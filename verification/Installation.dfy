/**
 * The installation as the updater sees it: durable files, running services, and the invariant
 * that ties them to the operation recorded in the journal.
 *
 * A runtime directory is the sequence of writes it holds, each with its author, so that "the
 * data of the previous release" can be told apart from data a candidate release has touched.
 */
module Installation {
  import opened Outcomes
  import opened SnapshotRestore

  type Id = nat
  type Version = nat

  /** A container image: the release it belongs to and the database schema its code works with. */
  datatype Image = Image(version: Version, schema: nat, digest: nat)
  datatype Images = Images(admin: Image, broker: Image)

  datatype Author = ByAdmin(image: Image) | ByBroker(image: Image) | ByMigration(schema: nat)

  /**
   * One change of the runtime directory. It is visible unless it only touches what the persistent
   * fingerprint leaves out: sessions and challenges, signature counters, the last TOTP step, audit
   * and traffic rows, logs, the gate file, and nine bytes in a chunk of mosquitto.db.
   */
  datatype Write = Write(author: Author, content: nat, visible: bool)
  datatype Runtime = Runtime(writes: seq<Write>, schema: nat)

  function Visible(writes: seq<Write>): seq<Write> {
    if writes == [] then []
    else
      var last := writes[|writes| - 1];
      Visible(writes[..|writes| - 1]) + if last.visible then [last] else []
  }

  /** The hash of the persistent state, represented by what it identifies. */
  datatype Fingerprint = Fingerprint(state: seq<Write>, schema: nat, units: Images)

  function FingerprintOf(r: Runtime, units: Images): Fingerprint {
    Fingerprint(Visible(r.writes), r.schema, units)
  }

  /** `r'` continues `r`, by writes that a fingerprint leaves out. */
  ghost predicate Forgotten(r: Runtime, r': Runtime) {
    && r.writes <= r'.writes && r'.schema == r.schema
    && forall k | |r.writes| <= k < |r'.writes| :: !r'.writes[k].visible
  }

  lemma {:induction false} VisibleExtends(a: seq<Write>, b: seq<Write>)
    requires a <= b
    ensures Visible(a) <= Visible(b)
    ensures Visible(a) == Visible(b) <==> forall k | |a| <= k < |b| :: !b[k].visible
    decreases |b|
  {
    if |a| < |b| {
      var c := b[..|b| - 1];
      VisibleExtends(a, c);
      assert forall k | |a| <= k < |c| :: b[k] == c[k];
    } else {
      assert a == b;
    }
  }

  /** What equal fingerprints say about data that have only grown. */
  lemma SameFingerprintMeansForgotten(r: Runtime, r': Runtime, units: Images)
    requires r.writes <= r'.writes
    ensures FingerprintOf(r, units) == FingerprintOf(r', units) <==> Forgotten(r, r')
  {
    VisibleExtends(r.writes, r'.writes);
  }

  /** A change of the images shows in the fingerprint, whatever the data. */
  lemma FingerprintTellsImages(r: Runtime, r': Runtime, units: Images, units': Images)
    requires FingerprintOf(r, units) == FingerprintOf(r', units')
    ensures units == units' && r.schema == r'.schema
  {
  }

  /** Nothing that was live is lost. */
  predicate Grows(d: Option<Runtime>, d': Option<Runtime>) {
    d.Some? ==> d'.Some? && d.value.writes <= d'.value.writes
  }

  /** Once a visible write has been added, nothing written later brings the fingerprint back. */
  lemma DifferenceLasts(r: Runtime, r': Runtime, r'': Runtime, units: Images)
    requires r.writes <= r'.writes <= r''.writes
    requires Visible(r'.writes) != Visible(r.writes)
    ensures FingerprintOf(r'', units) != FingerprintOf(r, units)
  {
    VisibleExtends(r.writes, r'.writes);
    VisibleExtends(r'.writes, r''.writes);
  }

  /** What installed.json says. */
  datatype Record = Record(version: Version, schema: nat, images: Images, operationId: Option<Id>,
                           fingerprint: Option<Fingerprint>)

  /** What a manifest demands of the host it is installed on. */
  datatype Terms = Terms(minGateway: Version, minPodman: Version, migration: Option<Migration>)
  datatype Migration = Migration(from: nat, to: nat, requiresSnapshot: bool)

  datatype Release = Release(version: Version, schema: nat, images: Option<Images>, terms: Option<Terms>)

  /** `releases.compatible`: minimum versions, no downgrade, and a declared migration for a change of schema. */
  predicate Compatible(release: Release, installed: Version, schema: nat, podman: Version) {
    && release.terms.Some?
    && release.terms.value.minGateway <= installed && release.terms.value.minPodman <= podman
    && schema <= release.schema
    && (schema != release.schema ==> release.terms.value.migration == Some(Migration(schema, release.schema, true)))
  }

  /** The refusals, one by one: what is equal to a minimum or to the present schema is not refused. */
  lemma RefusedExactly(release: Release, installed: Version, schema: nat, podman: Version)
    requires release.terms.Some?
    ensures var terms := release.terms.value;
            !Compatible(release, installed, schema, podman) <==>
              || installed < terms.minGateway || podman < terms.minPodman || release.schema < schema
              || (release.schema != schema
                  && !(&& terms.migration.Some? && terms.migration.value.from == schema
                       && terms.migration.value.to == release.schema && terms.migration.value.requiresSnapshot))
  {
    var migration := release.terms.value.migration;
    if migration.Some? {
      assert migration.value == Migration(migration.value.from, migration.value.to, migration.value.requiresSnapshot);
    }
  }

  /** A recovery point: the directory and the digest of its archive. */
  datatype Pointer = Pointer(id: Id, digest: Snapshot<Runtime>)

  datatype Kind = Install | Rollback

  datatype State =
    | Checking | Downloading | Verifying | Preparing
    | Stopping | BackingUp | Migrating | Installing | Starting | HealthChecking
    | Committing | RollingBack
    | Completed | RolledBack | Failed | RecoveryRequired
  {
    predicate PreMutation() { Checking? || Downloading? || Verifying? || Preparing? }
    predicate Terminal() { Completed? || RolledBack? || Failed? || RecoveryRequired? }
    /** Terminal, and not waiting for an explicit retry either. */
    predicate Settled() { Completed? || RolledBack? || Failed? }
  }

  datatype Operation = Operation(id: Id, state: State, version: Version, previous: Record, kind: Kind,
                                 committed: bool, release: Option<Release>, snapshot: Option<Pointer>)

  /** An operation's own restore workspace, and the one of the older state a rollback installs. */
  datatype WorkId = Own(id: Id) | Target(id: Id)

  /** The image each running service was started from. */
  datatype Services = Services(admin: Option<Image>, broker: Option<Image>)

  const Down := Services(None, None)

  datatype View = View(
    marker: bool,                                // bridge/maintenance.json exists
    installed: Option<Record>,                   // installed.json
    units: Images,                               // Image= lines of the two Quadlets
    up: Services,
    data: Option<Runtime>,
    snapshots: map<Id, Snapshot<Runtime>>,
    work: map<WorkId, Workspace<Runtime>>)

  // ----- running services

  predicate UpWithin(up: Services, images: Images) {
    && (up.admin.Some? ==> up.admin.value == images.admin)
    && (up.broker.Some? ==> up.broker.value == images.broker)
  }

  ghost predicate WrittenBy(up: Services, w: Write) {
    || (up.admin.Some? && w.author == ByAdmin(up.admin.value))
    || (up.broker.Some? && w.author == ByBroker(up.broker.value))
  }

  /** The running services append writes; an Admin that finds an older schema migrates it. */
  ghost predicate ServedData(up: Services, r: Runtime, r': Runtime) {
    && r.writes <= r'.writes
    && (forall k | |r.writes| <= k < |r'.writes| :: WrittenBy(up, r'.writes[k]))
    && (r'.schema == r.schema || (up.admin.Some? && r.schema < up.admin.value.schema == r'.schema))
  }

  /** Time passes: only the running services act, and only on the live runtime. */
  ghost predicate Served(v: View, v': View) {
    && v' == v.(data := v'.data)
    && (v.data.None? ==> v'.data.None?)
    && (v.data.Some? ==> v'.data.Some? && ServedData(v.up, v.data.value, v'.data.value))
  }

  /** After power returns systemd starts whatever services it can from the current Quadlets. */
  ghost predicate Rebooted(v: View, v': View) {
    && v' == v.(up := v'.up)
    && UpWithin(v'.up, v.units)
    && (v.data.None? ==> v'.up == Down)
  }

  // ----- what an installation should look like

  /** `Host.installed`: the record, or what inspection of a bootstrapped installation yields. */
  function Effective(v: View): Record
    requires v.installed.None? ==> v.data.Some?
  {
    if v.installed.Some? then v.installed.value
    else Record(v.units.admin.version, v.data.value.schema, v.units, None, None)
  }

  predicate RecordOk(r: Record) {
    r.version == r.images.admin.version && r.schema == r.images.admin.schema
  }

  /** Record, Quadlets, running services and database agree on one release. */
  predicate Coherent(r: Record, v: View) {
    && RecordOk(r)
    && v.units == r.images
    && v.data.Some? && v.data.value.schema == r.schema
    && UpWithin(v.up, v.units)
  }

  /** `r` is `base` plus writes by the services of `images` only. */
  ghost predicate Extends(base: Runtime, r: Runtime, images: Images) {
    && base.writes <= r.writes
    && r.schema == base.schema
    && forall k | |base.writes| <= k < |r.writes| ::
         r.writes[k].author == ByAdmin(images.admin) || r.writes[k].author == ByBroker(images.broker)
  }

  /** No operation has left anything behind. */
  ghost predicate Quiet(v: View) {
    && v.data.Some?
    && Coherent(Effective(v), v)
    && !v.marker
  }

  // ----- the write-ahead invariant

  /** What the operation wants to reach: the images, and the runtime it starts them on. */
  datatype Aim = Aim(images: Images, runtime: Runtime)

  /** Nothing but the previous services has touched the installation. */
  ghost predicate Untouched(op: Operation, base: Runtime, v: View) {
    && v.data.Some?
    && Effective(v) == op.previous
    && Coherent(op.previous, v)
    && Extends(base, v.data.value, op.previous.images)
    && Own(op.id) !in v.work && Target(op.id) !in v.work
    && !Recorded(op, v)
  }

  /** The recovery point named by the journal holds the previous data. */
  ghost predicate Saved(op: Operation, base: Runtime, v: View) {
    && op.snapshot.Some?
    && op.snapshot.value.id in v.snapshots
    && v.snapshots[op.snapshot.value.id] == op.snapshot.value.digest
    && Complete(op.snapshot.value.digest)
    && Extends(base, op.snapshot.value.digest.runtime, op.previous.images)
    && RecordOk(op.previous) && base.schema == op.previous.schema
  }

  /** What the recovery of `op` needs to find in the live runtime: the recovery point, and no write of a stranger. */
  ghost predicate Restorable(op: Operation, v: View) {
    var w := Lookup(v.work, Own(op.id));
    w.Some? && w.value.stage.Moved? ==>
      && v.data.Some?
      && if w.value.completed then Extends(w.value.source.runtime, v.data.value, op.previous.images)
         else v.data.value == w.value.source.runtime
  }

  /** Moved into place, but an autostart would run on it unchecked or under the wrong images. */
  predicate Exposed(op: Operation, v: View) {
    var w := Lookup(v.work, Own(op.id));
    w.Some? && w.value.stage.Moved? && (!w.value.completed || v.units != op.previous.images)
  }

  /** A restoration of the recovery point may be pending, under way or done. */
  ghost predicate Restoring(op: Operation, base: Runtime, v: View) {
    var w := Lookup(v.work, Own(op.id));
    && Saved(op, base, v)
    && Resumable(v.data, w)
    && (v.data.None? ==> v.up == Down)
    && (w.Some? ==> w.value.source == op.snapshot.value.digest)
    && Restorable(op, v)
    && (Exposed(op, v) ==> v.up == Down)
    && (w.Some? && w.value.stage.Moved? ==> UpWithin(v.up, op.previous.images))
  }

  /** The operation has a recovery point it may still have to go back to. */
  predicate Undoing(op: Operation) {
    !op.committed && op.snapshot.Some? && !op.state.RolledBack?
  }

  ghost predicate Returned(op: Operation, base: Runtime, v: View) {
    && v.data.Some?
    && Effective(v) == op.previous
    && Coherent(op.previous, v)
    && Extends(base, v.data.value, op.previous.images)
    && (op.snapshot.Some? ==> Extends(op.snapshot.value.digest.runtime, v.data.value, op.previous.images))
  }

  /** How the live data relate to what the operation started the new images on. */
  ghost predicate Advanced(kind: Kind, aim: Aim, r: Runtime) {
    match kind
    case Install => aim.runtime.writes <= r.writes
    case Rollback => Extends(aim.runtime, r, aim.images)
  }

  ghost predicate Forward(op: Operation, base: Runtime, aim: Aim, v: View) {
    && Saved(op, base, v)
    && op.release.Some?
    && v.data.Some? && v.data.value.schema == op.release.value.schema
    && Advanced(op.kind, aim, v.data.value)
    && v.units == aim.images
    && (op.release.value.images.Some? ==> op.release.value.images.value == aim.images)
    && aim.images.admin.version == op.release.value.version
    && (op.kind.Install? ==> aim.images.broker.version == op.release.value.version)
    && aim.images.admin.schema == op.release.value.schema
    && UpWithin(v.up, v.units)
    && (v.installed.Some? && v.installed.value.operationId == Some(op.id) ==>
          Coherent(v.installed.value, v) && v.installed.value.version == op.release.value.version)
    && (op.kind.Install? ==> aim.runtime == op.snapshot.value.digest.runtime)
  }

  predicate Recorded(op: Operation, v: View) {
    v.installed.Some? && v.installed.value.operationId == Some(op.id)
  }

  /** Everything a crash may find: the journal always names enough to finish or to undo. */
  ghost predicate Safe(journal: Option<Operation>, base: Runtime, aim: Aim, v: View) {
    match journal
    case None => Quiet(v)
    case Some(op) =>
      && (op.state.Committing? || op.state.Completed? ==> op.committed)
      && (op.committed ==> op.state.Committing? || op.state.Completed? || op.state.RecoveryRequired?)
      && (op.state.Settled() ==> !v.marker)
      && if op.committed then
           Forward(op, base, aim, v) && (op.state.Completed? ==> Recorded(op, v))
         else if op.snapshot.None? then
           Untouched(op, base, v) && (op.state.PreMutation() ==> !v.marker)
         else
           && !op.state.PreMutation() && !op.state.Failed?
           && if !Undoing(op) then Returned(op, base, v) && Saved(op, base, v)
              else Restoring(op, base, v)
  }

  /**
   * The promise for a finished operation: the gate is open, and record, images, services and data
   * are those of the new release or those of the previous one. Nothing in the recovery point, which
   * is the whole runtime as the previous services left it, is lost by an installation; a completed
   * rollback runs on the older recovery point it was started on, with its own writes added.
   */
  ghost predicate OnOneVersion(op: Operation, base: Runtime, aim: Aim, v: View) {
    && Quiet(v)
    && (op.state.Completed? ==>
          && Recorded(op, v)
          && op.release.Some? && v.installed.value.version == op.release.value.version
          && v.installed.value.schema == op.release.value.schema
          && (op.release.value.images.Some? ==> v.units == op.release.value.images.value)
          && op.snapshot.Some? && base.writes <= op.snapshot.value.digest.runtime.writes
          && (op.kind.Install? ==> op.snapshot.value.digest.runtime.writes <= v.data.value.writes)
          && (op.kind.Rollback? ==> Extends(aim.runtime, v.data.value, aim.images)))
    && (op.state.RolledBack? || op.state.Failed? ==>
          && Effective(v) == op.previous
          && Extends(base, v.data.value, op.previous.images)
          && (op.snapshot.Some? ==> Extends(op.snapshot.value.digest.runtime, v.data.value, op.previous.images)))
  }

  // ----- what happens to the invariant while the updater is not looking

  lemma ServedExtends(base: Runtime, r: Runtime, r': Runtime, up: Services, images: Images)
    requires Extends(base, r, images) && ServedData(up, r, r') && UpWithin(up, images)
    requires images.admin.schema == base.schema
    ensures Extends(base, r', images)
  {
    forall k | |base.writes| <= k < |r'.writes|
      ensures r'.writes[k].author == ByAdmin(images.admin) || r'.writes[k].author == ByBroker(images.broker)
    {
      if k < |r.writes| {
        assert r'.writes[k] == r.writes[k];
      } else {
        assert WrittenBy(up, r'.writes[k]);
      }
    }
  }

  lemma StoppedServicesWriteNothing(r: Runtime, r': Runtime)
    requires ServedData(Down, r, r')
    ensures r' == r
  {
    var k := |r.writes|;
    assert k < |r'.writes| ==> WrittenBy(Down, r'.writes[k]);
  }

  /** Whatever the running services write, the invariant holds on. */
  lemma ServedKeepsSafe(journal: Option<Operation>, base: Runtime, aim: Aim, v: View, v': View)
    requires Safe(journal, base, aim, v) && Served(v, v')
    ensures Safe(journal, base, aim, v')
  {
    if journal.Some? {
      var op := journal.value;
      if op.committed {
        if op.kind.Rollback? {
          ServedExtends(aim.runtime, v.data.value, v'.data.value, v.up, aim.images);
        }
      } else if op.snapshot.None? || op.state.RolledBack? {
        ServedExtends(base, v.data.value, v'.data.value, v.up, op.previous.images);
        if op.snapshot.Some? {
          ServedExtends(op.snapshot.value.digest.runtime, v.data.value, v'.data.value, v.up, op.previous.images);
        }
      } else {
        var w := Lookup(v.work, Own(op.id));
        if w.Some? && w.value.stage.Moved? {
          if v.up == Down {
            StoppedServicesWriteNothing(v.data.value, v'.data.value);
          } else {
            ServedExtends(w.value.source.runtime, v.data.value, v'.data.value, v.up, op.previous.images);
          }
        }
      }
    }
  }

  /** Losing power keeps the invariant unless the restored runtime stands exposed to an autostart. */
  lemma RebootKeepsSafe(journal: Option<Operation>, base: Runtime, aim: Aim, v: View, v': View)
    requires Safe(journal, base, aim, v) && Rebooted(v, v')
    requires journal.Some? && Undoing(journal.value) ==> !Exposed(journal.value, v)
    ensures Safe(journal, base, aim, v')
  {
  }

  lemma ShutDownKeepsSafe(journal: Option<Operation>, base: Runtime, aim: Aim, v: View, up: Services)
    requires Safe(journal, base, aim, v)
    requires up.admin == v.up.admin || up.admin.None?
    requires up.broker == v.up.broker || up.broker.None?
    ensures Safe(journal, base, aim, v.(up := up))
  {
  }

  /**
   * Exactly when a reboot is harmless to a pending restoration: whatever the autostarted services
   * then write, the recovery still finds what it needs, if and only if the runtime is not exposed.
   */
  lemma RebootHarmlessUnlessExposed(op: Operation, base: Runtime, v: View)
    requires Restoring(op, base, v)
    ensures (forall up, after | Rebooted(v, v.(up := up)) && Served(v.(up := up), after) :: Restorable(op, after))
            <==> !Exposed(op, v)
  {
    if Exposed(op, v) {
      var up := Services(Some(v.units.admin), Some(v.units.broker));
      var author :=
        if v.units.admin != op.previous.images.admin then ByAdmin(v.units.admin) else ByBroker(v.units.broker);
      var r := v.data.value;
      var r' := r.(writes := r.writes + [Write(author, 0, true)]);
      var after := v.(up := up, data := Some(r'));
      assert WrittenBy(up, r'.writes[|r.writes|]);
      assert Rebooted(v, v.(up := up)) && Served(v.(up := up), after);
      assert !Restorable(op, after) by {
        if v.work[Own(op.id)].completed {
          assert r'.writes[|r.writes|].author == author;
        } else {
          assert |r'.writes| != |r.writes|;
        }
      }
    } else {
      forall up, after | Rebooted(v, v.(up := up)) && Served(v.(up := up), after)
        ensures Restorable(op, after)
      {
        var w := Lookup(v.work, Own(op.id));
        if w.Some? && w.value.stage.Moved? {
          ServedExtends(w.value.source.runtime, v.data.value, after.data.value, up, op.previous.images);
        }
      }
    }
  }
}
