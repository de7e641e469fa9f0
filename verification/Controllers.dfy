/**
 * The update controller (scripts/updater/controller.py). Every durable write and every backend
 * call may be the last thing the process does, or may raise; each method leaves the invariant
 * intact however it ends, so it holds at every instant at which power can be lost.
 */
module Controllers {
  import opened Outcomes
  import opened SnapshotRestore
  import opened Installation
  import opened Journals
  import opened Hosts
  import opened Retention

  /**
   * Facts that hold of every record the journal has held. The recovery point of a rollback has
   * the fingerprint that was taken when the release it leaves was committed.
   */
  predicate OperationOk(op: Operation) {
    && RecordOk(op.previous)
    && (op.kind.Rollback? && op.snapshot.Some? ==>
          && op.previous.fingerprint.Some?
          && op.previous.fingerprint.value == FingerprintOf(op.snapshot.value.digest.runtime,
                                                            op.previous.fingerprint.value.units))
    && (op.snapshot.Some? ==>
          op.snapshot.value.id == op.id && Complete(op.snapshot.value.digest)
            && op.snapshot.value.digest.runtime.schema == op.previous.schema)
  }

  /** A restoration was ordered by an operation that was not committed and had a durable recovery point. */
  ghost predicate Justified(log: seq<Operation>, e: Event) {
    e.Did? && e.action.Restore? ==>
      && 0 < e.at <= |log|
      && log[e.at - 1].id == e.action.id.id
      && !log[e.at - 1].committed
      && log[e.at - 1].snapshot.Some?
  }

  ghost predicate AllJustified(log: seq<Operation>, events: seq<Event>) {
    forall e | e in events :: Justified(log, e)
  }

  predicate IdBelow(n: nat, r: Record) {
    r.operationId.Some? ==> r.operationId.value < n
  }

  ghost predicate IdsBelow(n: nat, log: seq<Operation>, v: View) {
    && (forall op | op in log :: op.id < n && IdBelow(n, op.previous))
    && (v.installed.Some? ==> IdBelow(n, v.installed.value))
    && (forall w | w in v.work :: w.id < n)
    && (forall s | s in v.snapshots :: s < n)
  }

  /** The controller's copy of the operation may be ahead of the journal by the release only. */
  predicate InMemory(op: Operation, record: Option<Operation>) {
    record.Some? && record.value == op.(release := record.value.release)
  }

  lemma AdvancedWhileServing(kind: Kind, aim: Aim, v: View, v': View)
    requires v.data.Some? && Advanced(kind, aim, v.data.value) && Served(v, v')
    requires UpWithin(v.up, aim.images)
    requires kind.Rollback? ==> aim.images.admin.schema == aim.runtime.schema
    ensures Advanced(kind, aim, v'.data.value)
  {
    if kind.Rollback? {
      ServedExtends(aim.runtime, v.data.value, v'.data.value, v.up, aim.images);
    }
  }

  /** The fingerprint of `r` was taken of `sealed`, which the data `later` continue. */
  ghost predicate Seals(r: Record, sealed: Runtime, later: Runtime) {
    r.fingerprint.Some? ==>
      sealed.writes <= later.writes && r.fingerprint.value == FingerprintOf(sealed, r.fingerprint.value.units)
  }

  /** What `sealed` has to do with the record an operation starts from, or has written. */
  ghost predicate Sealed(journal: Option<Operation>, base: Runtime, sealed: Runtime, v: View) {
    match journal
    case None => v.data.Some? && Seals(Effective(v), sealed, v.data.value)
    case Some(op) =>
      if op.committed then Recorded(op, v) ==> v.data.Some? && Seals(v.installed.value, sealed, v.data.value)
      else Seals(op.previous, sealed, base)
  }

  lemma TimePasses(journal: Option<Operation>, base: Runtime, aim: Aim, sealed: Runtime, v: View, v': View)
    requires Safe(journal, base, aim, v) && Sealed(journal, base, sealed, v) && Served(v, v')
    ensures Safe(journal, base, aim, v') && Sealed(journal, base, sealed, v')
  {
    ServedKeepsSafe(journal, base, aim, v, v');
  }

  lemma NothingRuns(v: View, v': View)
    requires Served(v, v') && v.up == Down
    ensures v'.data == v.data
  {
    if v.data.Some? {
      StoppedServicesWriteNothing(v.data.value, v'.data.value);
    }
  }

  predicate SameOperation(a: Operation, b: Operation) {
    a.id == b.id && a.version == b.version && a.previous == b.previous && a.kind == b.kind
  }

  lemma FreshStart(log: seq<Operation>, op: Operation)
    requires LogOk(log) && !op.committed
    requires log != [] ==> log[|log| - 1].state.Settled()
    requires forall r | r in log :: r.id < op.id
    ensures LogOk(log + [op])
  {
    if log != [] {
      assert StepOk(log + [op], |log|);
    }
    LogExtends(log, op);
  }

  /** Where a recovery point exists it has been restored, with the previous images and record. */
  ghost predicate BackInPlace(op: Operation, v: View) {
    op.snapshot.Some? ==>
      && Own(op.id) in v.work && v.work[Own(op.id)].completed
      && v.units == op.previous.images && v.installed == Some(op.previous)
  }

  /** However far a restoration of the recovery point gets, it can be taken up again. */
  lemma RestoreKeepsRestoring(op: Operation, base: Runtime, v: View, v': View)
    requires Restoring(op, base, v) && v.up == Down
    requires RestoreEffect(Own(op.id), op.snapshot.value, op.previous, v, v')
    ensures Restoring(op, base, v')
    ensures v'.work.Keys <= v.work.Keys + {Own(op.id)}
  {
    assert forall k | k in v'.work && k != Own(op.id) :: k in v'.work - {Own(op.id)};
    var w, w' := Lookup(v.work, Own(op.id)), Lookup(v'.work, Own(op.id));
    if w'.Some? && w'.value.stage.Moved? && w'.value.completed && !(w.Some? && w.value.completed) {
      assert v'.data == Some(op.snapshot.value.digest.runtime);
    }
  }

  /**
   * A restoration that loses power between its second rename and its last record leaves the
   * restored runtime exposed, and an autostart of the candidate's services then spoils it.
   */
  lemma ExposedOnTheWay(op: Operation, v0: View, v1: View)
    requires var images := Images(Image(1, 1, 0), Image(1, 1, 1));
             var saved := Snapshot(Runtime([], 1), map[Environment := 0, AdminUnit := 0, BrokerUnit := 0,
                                                       NetworkUnit := 0]);
             var candidate := Runtime([Write(ByMigration(2), 0, true)], 2);
             && op == Operation(0, RollingBack, 2, Record(1, 1, images, None, None), Kind.Install, false, None,
                                Some(Pointer(0, saved)))
             && v0 == View(true, None, images, Down, Some(candidate), map[0 := saved],
                           map[Own(0) := Workspace(saved, false, Staged(saved.runtime), None)])
             && v1 == v0.(data := Some(saved.runtime),
                           work := map[Own(0) := Workspace(saved, false, Moved, Some(candidate))])
    ensures var base := Runtime([], 1);
            && Restoring(op, base, v0) && !Exposed(op, v0)
            && RestoreEffect(Own(0), op.snapshot.value, op.previous, v0, v1)
            && Restoring(op, base, v1) && Exposed(op, v1)
            && exists up, after :: Rebooted(v1, v1.(up := up)) && Served(v1.(up := up), after) && !Restorable(op, after)
  {
    var base := Runtime([], 1);
    assert v1.work - {Own(0)} == v0.work - {Own(0)};
    assert Complete(op.snapshot.value.digest);
    RebootHarmlessUnlessExposed(op, base, v1);
  }

  ghost predicate Orderly(log: seq<Operation>, events: seq<Event>) {
    Disciplined(events) && OpenedWhenClear(events) && AllJustified(log, events)
  }

  lemma OneMoreEvent(log: seq<Operation>, events: seq<Event>, e: Event)
    requires Orderly(log, events)
    requires (e.Did? ==> e.marker && e.quiescent) && (e.Launched? ==> e.marker)
    requires e.Opened? ==> Clear(events)
    requires Justified(log, e)
    ensures Orderly(log, events + [e])
    ensures e.Healthy? || ((e.Opened? || e.Registered?) && Clear(events)) ==> Clear(events + [e])
  {
    var events' := events + [e];
    forall i | 0 <= i < |events'| && events'[i].Opened? ensures Clear(events'[..i]) {
      assert events'[..i] == events[..i];
      if i == |events| {
        assert events[..i] == events;
      }
    }
    assert events'[..|events|] == events;
  }

  lemma OneMoreRecord(log: seq<Operation>, events: seq<Event>, op: Operation)
    requires Orderly(log, events)
    ensures Orderly(log + [op], events)
  {
    forall e | e in events ensures Justified(log + [op], e) {
      assert Justified(log, e);
    }
  }

  /** No restoration is ever executed for an operation whose commit was already durable. */
  lemma NoRestoreAfterCommit(log: seq<Operation>, events: seq<Event>, i: nat, e: Event)
    requires LogOk(log) && AllJustified(log, events)
    requires e in events && e.Did? && e.action.Restore? && i < e.at
    requires log[i].id == e.action.id.id
    ensures !log[i].committed
  {
    assert Justified(log, e);
    if log[i].committed && i < e.at - 1 {
      PointOfNoReturn(log, i, e.at - 1);
    }
  }

  /** Every restoration was executed before any commit of its operation was durable. */
  ghost predicate CommitsStand(log: seq<Operation>, events: seq<Event>) {
    forall i, e | 0 <= i < |log| && e in events && e.Did? && e.action.Restore? && i < e.at
      && log[i].id == e.action.id.id ::
      !log[i].committed
  }

  lemma NoCommitIsUndone(log: seq<Operation>, events: seq<Event>)
    requires LogOk(log) && AllJustified(log, events)
    ensures CommitsStand(log, events)
  {
    forall i, e | 0 <= i < |log| && e in events && e.Did? && e.action.Restore? && i < e.at
      && log[i].id == e.action.id.id
      ensures !log[i].committed
    {
      NoRestoreAfterCommit(log, events, i, e);
    }
  }

  /** The guards a rollback passes before it records anything. */
  predicate RollbackPermitted(history: map<Id, Operation>, v: View, sourceId: Id, confirmation: Confirmation) {
    && sourceId in history
    && (v.installed.None? ==> v.data.Some?)
    && var source, installed := history[sourceId], Effective(v);
    && source.state.Completed? && source.snapshot.Some?
    && installed.operationId == Some(sourceId)
    && confirmation == ConfirmRollback(source.previous.version)
    && v.data.Some? && installed.fingerprint == Some(FingerprintOf(v.data.value, v.units))
  }

  /** A release that may be installed as `version` over `previous` on a host with the given Podman. */
  predicate Acceptable(version: Version, previous: Record, release: Release, podman: Version) {
    && release.version == version && release.images.Some?
    && release.images.value.admin.version == version && release.images.value.broker.version == version
    && previous.version < version
    && Compatible(release, previous.version, previous.schema, podman)
  }

  /** What a cleanup deletes: finished candidates that are neither retained nor protected. */
  /** The journal knows how the operation ended. */
  predicate Ended(history: map<Id, Operation>, id: Id) {
    id in history && (history[id].state.Completed? || history[id].state.RolledBack? || history[id].state.Failed?)
  }

  function Prunable(v: View, current: Option<Operation>, history: map<Id, Operation>, retained: seq<Id>): set<Id> {
    if current.Some? && !current.value.state.Settled() then {}
    else
      set id | id in v.snapshots && Candidate(history, id) && id !in retained
               && (v.installed.Some? ==> v.installed.value.operationId != Some(id))
               && (current.Some? ==> current.value.id != id
                                     && (current.value.snapshot.Some? ==> current.value.snapshot.value.id != id))
  }

  /** What the owner, the service or a timer may ask for. */
  datatype Request =
    | InstallRelease(version: Version, release: Release, around: Surroundings)
    | RollBackTo(id: Id, confirmation: Confirmation, around: Surroundings)
    | RecoverNow
    | RetryNow(id: Id, confirmation: Confirmation)
    | Prune(setting: Option<int>, mtime: Id -> nat)

  datatype Confirmation = ConfirmRecovery(id: Id) | ConfirmRollback(version: Version) | NoConfirmation

  class Controller {
    const journal: Journal
    const host: Host
    var nextId: Id
    /** The live runtime when the current operation began, and what the operation heads for. */
    ghost var base: Runtime
    ghost var aim: Aim
    /** The live runtime when the installed record of reference was written. */
    ghost var sealed: Runtime
    /** The requests handled so far. */
    ghost var handled: seq<Request>

    constructor (host: Host, ghost sealed: Runtime)
      requires Quiet(host.Now()) && host.events == [] && Seals(Effective(host.Now()), sealed, host.store.data.value)
      requires host.store.work == map[] && host.snapshots == map[]
      ensures Inv() && this.host == host && fresh(journal)
    {
      this.host := host;
      journal := new Journal();
      nextId := match host.installedFile
        case Some(Record(_, _, _, Some(id), _)) => id + 1
        case _ => 0;
      base := host.store.data.value;
      aim := Aim(host.units, host.store.data.value);
      this.sealed, handled := sealed, [];
    }

    /** The safety of the journal against the host, the discipline of past effects, and fresh ids. */
    ghost predicate Inv()
      reads this, journal, host, host.store
    {
      && journal.Valid()
      && LogOk(journal.log)
      && (forall op | op in journal.log :: OperationOk(op))
      && (journal.current.Some? ==> OperationOk(journal.current.value) && journal.current.value.id < nextId)
      && Safe(journal.current, base, aim, host.Now())
      && Sealed(journal.current, base, sealed, host.Now())
      && IdsBelow(nextId, journal.log, host.Now())
      && Orderly(journal.log, host.events)
      && (journal.current.Some? && journal.current.value.state.Completed? ==> Clear(host.events))
    }

    // ----- single effects, each keeping the invariant however it ends

    /** A transition whose record is safe for the host as it stands; a crash leaves the old or the new one. */
    method Advance(value: Operation, state: State, fields: Fields, faulty: bool) returns (o: Outcome, value': Operation)
      requires Inv() && journal.current.Some? && !value.state.Terminal()
      requires value.committed ==> !state.RollingBack?
      requires Follows(journal.current.value, Updated(value, state, fields))
      requires OperationOk(Updated(value, state, fields))
      requires Safe(Some(Updated(value, state, fields)), base, aim, host.Now())
      requires state.Completed? ==> Clear(host.events)
      requires Updated(value, state, fields).committed && !journal.current.value.committed ==>
                 !Recorded(value, host.Now())
      modifies journal
      ensures Inv() && !o.Raised?
      ensures value' == Updated(value, state, fields)
      ensures o.Ok? ==> journal.current == Some(value') && journal.log == old(journal.log) + [value']
      ensures !faulty ==> o.Ok?
    {
      ghost var log := journal.log;
      o, value' := journal.Transition(value, state, fields, faulty);
      OneMoreRecord(log, host.events, value');
      LogExtends(log, value');
    }

    /** A transition before the commit that changes nothing but the stage reached. */
    method Step(value: Operation, state: State, faulty: bool) returns (o: Outcome, value': Operation)
      requires Inv() && InMemory(value, journal.current)
      requires !value.committed && !value.state.Terminal() && !state.Terminal() && !state.Committing?
      requires state.PreMutation() ==> value.state.PreMutation()
      modifies journal
      ensures Inv() && !o.Raised?
      ensures value' == value.(state := state)
      ensures o.Ok? ==> journal.current == Some(value')
      ensures !faulty ==> o.Ok?
    {
      o, value' := Advance(value, state, NoFields, faulty);
    }

    method EnterMaintenance(faulty: bool) returns (o: Outcome)
      requires Inv() && journal.current.Some?
      requires !journal.current.value.state.Terminal() && !journal.current.value.state.PreMutation()
      modifies host`marker
      ensures Inv()
      ensures o.Ok? ==> host.marker
      ensures !faulty ==> o.Ok?
    {
      o := host.EnterMaintenance(faulty);
    }

    method Start(faulty: bool) returns (o: Outcome)
      requires Inv() && journal.current.Some? && !journal.current.value.state.Settled()
      requires host.marker && UpWithin(host.up, host.units)
      requires Undoing(journal.current.value) ==> !Exposed(journal.current.value, host.Now())
      modifies host`up, host`events, host.store`data
      ensures Inv() && Grows(old(host.store.data), host.store.data)
      ensures Served(old(host.Now()).(up := host.up), host.Now()) && UpWithin(host.up, host.units)
      ensures o.Ok? ==> Running()
      ensures !faulty && old(host.store.data).Some? ==> o.Ok?
      ensures !faulty ==> !o.Crashed?
    {
      ghost var v := host.Now();
      OneMoreEvent(journal.log, host.events, Launched(true));
      o := host.Start(faulty);
      RebootKeepsSafe(journal.current, base, aim, v, v.(up := host.up));
      TimePasses(journal.current, base, aim, sealed, v.(up := host.up), host.Now());
    }

    method Health(release: Release, faulty: bool) returns (o: Outcome)
      requires Inv()
      modifies host`events, host.store`data
      ensures Inv() && Served(old(host.Now()), host.Now())
      ensures o.Ok? ==> Serves(host.Now(), release) && Clear(host.events)
      ensures !faulty && Serves(old(host.Now()), release) ==> o.Ok?
      ensures !faulty ==> !o.Crashed?
    {
      ghost var v := host.Now();
      OneMoreEvent(journal.log, host.events, Healthy);
      o := host.Health(release, faulty);
      TimePasses(journal.current, base, aim, sealed, v, host.Now());
    }

    method Register(op: Operation, faulty: bool) returns (o: Outcome)
      requires Inv() && journal.current == Some(op) && op.committed && Clear(host.events)
      modifies this`sealed, host`installedFile, host`events
      ensures Inv() && Clear(host.events)
      ensures o.Ok? ==> Recorded(op, host.Now())
      ensures !faulty ==> o.Ok?
    {
      OneMoreEvent(journal.log, host.events, Registered(op.id));
      ghost var installed := host.installedFile;
      o := host.Register(op, faulty);
      if host.installedFile != installed {
        sealed := host.store.data.value;
      }
    }

    method LeaveMaintenance(faulty: bool) returns (o: Outcome)
      requires Inv() && Clear(host.events)
      modifies host`marker, host`events, host.store`data
      ensures Inv() && Clear(host.events)
      ensures Served(old(host.Now()).(marker := host.marker), host.Now())
      ensures o.Ok? ==> !host.marker && host.up.broker.Some?
      ensures !faulty && host.up.broker.Some? ==> o.Ok?
      ensures !faulty ==> !o.Crashed?
    {
      ghost var v := host.Now();
      OneMoreEvent(journal.log, host.events, Opened);
      o := host.LeaveMaintenance(faulty);
      TimePasses(journal.current, base, aim, sealed, v.(marker := host.marker), host.Now());
    }

    method Stop(faulty: bool) returns (o: Outcome)
      requires Inv()
      modifies host`up, host.store`data
      ensures Inv() && Served(old(host.Now()), host.Now().(up := old(host.up)))
      ensures old(host.up) == Down ==> host.store.data == old(host.store.data)
      ensures Grows(old(host.store.data), host.store.data)
      ensures o.Ok? ==> host.up == Down
      ensures !faulty ==> o.Ok?
    {
      ghost var v := host.Now();
      o := host.Stop(faulty);
      TimePasses(journal.current, base, aim, sealed, v, host.Now().(up := v.up));
      ShutDownKeepsSafe(journal.current, base, aim, host.Now().(up := v.up), host.up);
      if v.up == Down {
        NothingRuns(v, host.Now().(up := v.up));
      }
    }

    /** Goes back to the recovery point the journal names. */
    method RestoreOwn(op: Operation, faulty: bool) returns (o: Outcome)
      requires Inv() && journal.current == Some(op)
      requires op.state.RollingBack? && op.snapshot.Some? && host.marker && host.up == Down
      modifies host`units, host`installedFile, host`events, host.store
      ensures Inv() && host.up == Down
      ensures o.Ok? ==> BackInPlace(op, host.Now())
      ensures !faulty ==> o.Ok?
    {
      ghost var v := host.Now();
      OneMoreEvent(journal.log, host.events, Did(Action.Restore(Own(op.id)), true, true, |journal.log|));
      o := host.RestorePoint(Own(op.id), op.snapshot.value, op.previous, faulty, |journal.log|);
      RestoreKeepsRestoring(op, base, v, host.Now());
    }

    // ----- recovery

    /** The committed branch of `_recover`, without its exception handler. */
    method GoForward(op: Operation, faulty: bool) returns (o: Outcome)
      requires Inv() && journal.current == Some(op)
      requires op.committed && op.state.Committing?
      modifies this`sealed, journal, host, host.store
      ensures Inv()
      ensures o.Ok? ==> journal.current == Some(op.(state := Completed)) && Running()
      ensures o.Raised? ==> journal.current == Some(op)
      ensures !faulty ==> o.Ok?
    {
      o := EnterMaintenance(faulty);
      if !o.Ok? { return; }
      o := Start(faulty);
      if !o.Ok? { return; }
      o := Health(op.release.value, faulty);
      if !o.Ok? { return; }
      o := Finish(op, faulty);
    }

    /** Registers the committed release and opens the gate. */
    method Finish(op: Operation, faulty: bool) returns (o: Outcome)
      requires Inv() && journal.current == Some(op)
      requires op.committed && op.state.Committing? && Clear(host.events)
      modifies this`sealed, journal, host`marker, host`installedFile, host`events, host.store`data
      ensures Inv()
      ensures o.Ok? ==> journal.current == Some(op.(state := Completed))
      ensures o.Raised? ==> journal.current == Some(op)
      ensures !faulty && host.up.broker.Some? ==> o.Ok?
    {
      o := Register(op, faulty);
      if !o.Ok? { return; }
      o := LeaveMaintenance(faulty);
      if !o.Ok? { return; }
      var completed: Operation;
      o, completed := Advance(op, Completed, NoFields, faulty);
    }

    /** Stops what runs and restores the recovery point, if there is one. */
    method Reinstate(op: Operation, faulty: bool) returns (o: Outcome)
      requires Inv() && journal.current == Some(op) && op.state.RollingBack?
      modifies host, host.store
      ensures Inv()
      ensures o.Ok? ==> host.marker && BackInPlace(op, host.Now()) && Returned(op, base, host.Now())
      ensures op.snapshot.None? ==> host.store.data == old(host.store.data)
      ensures !faulty ==> o.Ok?
    {
      o := EnterMaintenance(faulty);
      if !o.Ok? || op.snapshot.None? { return; }
      o := Stop(faulty);
      if !o.Ok? { return; }
      o := RestoreOwn(op, faulty);
    }

    /** Starts the previous services and, once they are healthy, releases them. */
    method Relaunch(op: Operation, faulty: bool) returns (o: Outcome)
      requires Inv() && journal.current == Some(op) && op.state.RollingBack?
      requires host.marker && BackInPlace(op, host.Now()) && Returned(op, base, host.Now())
      modifies journal, host, host.store
      ensures Inv()
      ensures o.Ok? ==> journal.current == Some(op.(state := RolledBack)) && Returned(op, base, host.Now()) && Running()
      ensures o.Raised? ==> journal.current == Some(op)
      ensures Grows(old(host.store.data), host.store.data)
      ensures !faulty ==> o.Ok?
    {
      o := Start(faulty);
      if !o.Ok? { return; }
      o := Health(Release(op.previous.version, op.previous.schema, None, None), faulty);
      if !o.Ok? { return; }
      o := LeaveMaintenance(faulty);
      if !o.Ok? { return; }
      var rolledBack: Operation;
      o, rolledBack := Advance(op, RolledBack, NoFields, faulty);
    }

    /** The other branch of `_recover`: back to the recovery point, or just restart what was stopped. */
    method GoBack(op: Operation, faulty: bool) returns (o: Outcome, op': Operation)
      requires Inv() && InMemory(op, journal.current)
      requires !op.committed && !op.state.Terminal() && !op.state.PreMutation()
      modifies journal, host, host.store
      ensures Inv()
      ensures o.Ok? ==> journal.current == Some(op'.(state := RolledBack)) && Returned(op', base, host.Now())
      ensures o.Ok? ==> Running()
      ensures o.Raised? ==> journal.current == Some(op')
      ensures !o.Crashed? ==> op' == op.(state := RollingBack)
      ensures !o.Crashed? && op.snapshot.None? ==> Grows(old(host.store.data), host.store.data)
      ensures !faulty ==> o.Ok?
    {
      o, op' := Step(op, RollingBack, faulty);
      if !o.Ok? { return; }
      o := Reinstate(op', faulty);
      if !o.Ok? { return; }
      o := Relaunch(op', faulty);
    }

    /** `_recover`: forward after the commit, FAILED before any mutation, otherwise back. */
    method RecoverOperation(op: Operation, faulty: bool) returns (o: Outcome)
      requires Inv() && InMemory(op, journal.current)
      requires op.committed ==> journal.current == Some(op)
      requires !op.state.Terminal()
      modifies this`sealed, journal, host, host.store
      ensures Inv() && !o.Raised?
      ensures o.Ok? ==>
                journal.current.Some? && journal.current.value.state.Terminal()
                  && journal.current.value == op.(state := journal.current.value.state)
      ensures o.Ok? && (journal.current.value.state.Completed? || journal.current.value.state.RolledBack?) ==> Running()
      ensures o.Ok? && op.snapshot.None? ==> Grows(old(host.store.data), host.store.data)
      ensures o.Ok? && op.state.PreMutation() ==> journal.current.value.state.Failed? && host.Now() == old(host.Now())
      ensures !faulty ==>
                && o.Ok?
                && (op.committed ==> journal.current == Some(op.(state := Completed)))
                && (op.state.PreMutation() ==> journal.current == Some(op.(state := Failed)))
                && (!op.committed && !op.state.PreMutation() ==>
                      journal.current == Some(op.(state := RolledBack)) && Returned(op, base, host.Now()))
    {
      var attempt, ignored := Ok, op;
      if op.committed {
        attempt := GoForward(op, faulty);
      } else if op.state.PreMutation() {
        o, ignored := Advance(op, Failed, NoFields, faulty);
        return;
      } else {
        attempt, ignored := GoBack(op, faulty);
      }
      o := attempt;
      if attempt.Raised? {
        o, ignored := Advance(ignored, RecoveryRequired, NoFields, faulty);
      }
    }

    /** Resumes whatever a crash interrupted; finished operations and those awaiting a retry are left alone. */
    method Recover(faulty: bool) returns (o: Outcome)
      requires Inv()
      modifies this`sealed, journal, host, host.store
      ensures Inv()
      ensures old(journal.current).None? || old(journal.current).value.state.RolledBack?
              || old(journal.current).value.state.Failed?
              || old(journal.current).value.state.RecoveryRequired?
              ==> o.Ok? && journal.current == old(journal.current) && host.Now() == old(host.Now())
      ensures old(journal.current).Some? && old(journal.current).value.state.Completed? ==>
                && journal.current == old(journal.current)
                && (o.Ok? ==> !host.marker && host.up.broker.Some?)
                && (!faulty && old(host.up).broker.Some? ==> o.Ok?)
      ensures !faulty && old(journal.current).Some? && !old(journal.current).value.state.Terminal() ==>
                var op := old(journal.current).value;
                && o.Ok? && (!op.state.PreMutation() ==> Running())
                && (op.committed ==> journal.current == Some(op.(state := Completed)))
                && (op.state.PreMutation() ==>
                      journal.current == Some(op.(state := Failed)) && Untouched(op, base, host.Now()))
                && (!op.committed && !op.state.PreMutation() ==>
                      journal.current == Some(op.(state := RolledBack)) && Returned(op, base, host.Now()))
    {
      if journal.current.None? {
        return Ok;
      }
      var op := journal.current.value;
      if op.state.Completed? {
        o := LeaveMaintenance(faulty);
      } else if !op.state.Terminal() {
        o := RecoverOperation(op, faulty);
      } else {
        o := Ok;
      }
    }

    /** One explicit retry of an operation that requires recovery. */
    method RetryRecovery(id: Id, confirmation: Confirmation, faulty: bool) returns (o: Outcome)
      requires Inv()
      modifies this`sealed, journal, host, host.store
      ensures Inv()
      ensures o.Raised? <==> old(journal.current).None? || !old(journal.current).value.state.RecoveryRequired?
                             || old(journal.current).value.id != id || confirmation != ConfirmRecovery(id)
      ensures o.Raised? ==> journal.current == old(journal.current) && host.Now() == old(host.Now())
      ensures !faulty && !o.Raised? ==>
                var op := old(journal.current).value;
                && o.Ok? && Running()
                && (op.committed ==> journal.current == Some(op.(state := Completed)))
                && (!op.committed ==>
                      journal.current == Some(op.(state := RolledBack)) && Returned(op, base, host.Now()))
    {
      if journal.current.None? || !journal.current.value.state.RecoveryRequired? || journal.current.value.id != id {
        return Raised;
      }
      if confirmation != ConfirmRecovery(id) {
        return Raised;
      }
      var op := journal.current.value;
      var resumed := if op.committed then Committing else RollingBack;
      o, op := Advance(op.(state := resumed), resumed, NoFields, faulty);
      if !o.Ok? { return; }
      o := RecoverOperation(op, faulty);
    }

    // ----- installation

    /** Both services run. */
    predicate Running()
      reads host
    {
      host.up.admin.Some? && host.up.broker.Some?
    }

    /**
     * Nothing about `release` stands in the way of installing it over `previous` as operation `id`,
     * and both services run.
     */
    ghost predicate Installable(id: Id, version: Version, previous: Record, release: Release)
      reads host, host.store
    {
      && Acceptable(version, previous, release, host.podman)
      && release.images.value.admin.schema == release.schema
      && id !in host.snapshots && Running()
      && forall f | f in CONFIG_FILES :: f in host.store.config
    }

    // The checks before the mutation only take time.

    method Resolve(version: Version, release: Release, faulty: bool) returns (o: Outcome)
      requires Inv()
      modifies host.store`data
      ensures Inv() && Grows(old(host.store.data), host.store.data)
      ensures o.Ok? ==> release.version == version && release.images.Some?
      ensures o.Ok? && UpWithin(host.up, host.units) ==>
                && host.store.data.Some? && Effective(host.Now()).version < version
                && Compatible(release, Effective(host.Now()).version, host.store.data.value.schema, host.podman)
      ensures !faulty && Inspectable(host.Now()) && UpWithin(host.up, host.units)
              && release.version == version && release.images.Some?
              && host.store.data.Some? && Effective(host.Now()).version < version
              && Compatible(release, Effective(host.Now()).version, host.store.data.value.schema, host.podman)
              ==> o.Ok?
    {
      ghost var v := host.Now();
      o := host.Resolve(version, release, faulty);
      TimePasses(journal.current, base, aim, sealed, v, host.Now());
    }

    method Download(release: Release, faulty: bool) returns (o: Outcome)
      requires Inv()
      modifies host`pulled, host.store`data
      ensures Inv() && Grows(old(host.store.data), host.store.data)
      ensures o.Ok? ==> Pulled(release)
      ensures !faulty && release.images.Some? ==> o.Ok?
    {
      ghost var v := host.Now();
      o := host.Download(release, faulty);
      TimePasses(journal.current, base, aim, sealed, v, host.Now());
    }

    /** Both images of the release are at hand. */
    predicate Pulled(release: Release)
      reads host
    {
      && release.images.Some?
      && release.images.value.admin in host.pulled && release.images.value.broker in host.pulled
    }

    method VerifyImages(release: Release, faulty: bool) returns (o: Outcome)
      requires Inv()
      modifies host.store`data
      ensures Inv() && Grows(old(host.store.data), host.store.data)
      ensures o.Ok? ==> Pulled(release)
                        && release.images.value.admin.version == release.version
                        && release.images.value.broker.version == release.version
      ensures !faulty && Pulled(release) && release.images.value.admin.version == release.version
              && release.images.value.broker.version == release.version
              ==> o.Ok?
    {
      ghost var v := host.Now();
      o := host.VerifyImages(release, faulty);
      TimePasses(journal.current, base, aim, sealed, v, host.Now());
    }

    method Preflight(around: Surroundings, faulty: bool) returns (o: Outcome)
      requires Inv()
      modifies host.store`data
      ensures Inv() && Grows(old(host.store.data), host.store.data)
      ensures o.Ok? ==> around.policyApplied && host.up.broker.Some?
      ensures !faulty && around.policyApplied && host.up.broker.Some? && Inspectable(host.Now())
              && UpWithin(host.up, host.units)
              && Effective(host.Now()).images == ImageIds(host.Now())
              ==> o.Ok?
    {
      ghost var v := host.Now();
      o := host.Preflight(around, faulty);
      TimePasses(journal.current, base, aim, sealed, v, host.Now());
    }

    /** From CHECKING to VERIFYING: a signed release has been downloaded and its labels verified. */
    method Fetch(op: Operation, release: Release, faulty: bool) returns (o: Outcome, op': Operation)
      requires Inv() && journal.current == Some(op)
      requires op.state.Checking? && !op.committed
      modifies journal, host`pulled, host.store`data
      ensures Inv() && Grows(old(host.store.data), host.store.data)
      ensures !o.Crashed? ==>
                && InMemory(op', journal.current) && op' == op.(state := op'.state, release := op'.release)
                && op'.state.PreMutation()
      ensures o.Ok? ==>
                && op' == op.(state := Verifying, release := Some(release)) && Pulled(release)
                && Acceptable(op.version, op.previous, release, host.podman)
      ensures !faulty && op.snapshot.None? && Installable(op.id, op.version, op.previous, release) ==> o.Ok?
    {
      op' := op;
      o := Resolve(op.version, release, faulty);
      if !o.Ok? { return; }
      o, op' := Step(op.(release := Some(release)), Downloading, faulty);
      if !o.Ok? { return; }
      o, op' := Obtain(op', release, faulty);
    }

    /** Downloads the release and verifies the labels of its images. */
    method Obtain(op: Operation, release: Release, faulty: bool) returns (o: Outcome, op': Operation)
      requires Inv() && journal.current == Some(op)
      requires op.state.Downloading? && !op.committed && op.snapshot.None?
      modifies journal, host`pulled, host.store`data
      ensures Inv() && Grows(old(host.store.data), host.store.data)
      ensures !o.Crashed? ==> journal.current == Some(op') && op' == op.(state := op'.state) && op'.state.PreMutation()
      ensures o.Ok? ==>
                && op'.state.Verifying? && Pulled(release)
                && release.images.value.admin.version == release.version
                && release.images.value.broker.version == release.version
      ensures !faulty && release.images.Some? && release.images.value.admin.version == release.version
              && release.images.value.broker.version == release.version
              ==> o.Ok?
    {
      op' := op;
      o := Download(release, faulty);
      if !o.Ok? { return; }
      o, op' := Step(op, Verifying, faulty);
      if !o.Ok? { return; }
      o := VerifyImages(release, faulty);
    }

    /** From VERIFYING to STOPPING: maintenance is durable before the writers are stopped. */
    method Announce(op: Operation, around: Surroundings, faulty: bool) returns (o: Outcome, op': Operation)
      requires Inv() && InMemory(op, journal.current)
      requires op.state.Verifying? && !op.committed
      modifies journal, host.store`data
      ensures Inv() && Grows(old(host.store.data), host.store.data)
      ensures !o.Crashed? ==> InMemory(op', journal.current) && op' == op.(state := op'.state) && !op'.state.Terminal()
      ensures o.Raised? ==> op'.state.PreMutation()
      ensures o.Ok? ==>
                op' == op.(state := State.Stopping) && journal.current == Some(op') && around.policyApplied
                  && host.up.broker.Some?
      ensures !faulty && op.snapshot.None? && around.policyApplied && Running() ==> o.Ok?
    {
      o, op' := Step(op, Preparing, faulty);
      if !o.Ok? { return; }
      o := Preflight(around, faulty);
      if !o.Ok? { return; }
      o, op' := Step(op', State.Stopping, faulty);
    }

    method PrepareStop(around: Surroundings, faulty: bool) returns (o: Outcome)
      requires Inv()
      modifies host.store`data
      ensures Inv() && Grows(old(host.store.data), host.store.data)
      ensures o.Ok? ==> Running() && around.delivered
      ensures !faulty && Running() && around.delivered ==> o.Ok?
      ensures !faulty ==> !o.Crashed?
    {
      ghost var v := host.Now();
      o := host.PrepareStop(around, faulty);
      TimePasses(journal.current, base, aim, sealed, v, host.Now());
    }

    method Quiesce(around: Surroundings, faulty: bool) returns (o: Outcome)
      requires Inv() && journal.current.Some?
      requires !journal.current.value.state.Terminal() && !journal.current.value.state.PreMutation()
      modifies host`marker, host`up, host.store`data
      ensures Inv() && Grows(old(host.store.data), host.store.data)
      ensures o.Ok? ==> host.marker && host.up == Down && old(Running()) && around.delivered
      ensures !faulty && old(Running()) && around.delivered ==> o.Ok?
      ensures !faulty ==> !o.Crashed?
    {
      o := EnterMaintenance(faulty);
      if !o.Ok? { return; }
      o := PrepareStop(around, faulty);
      if !o.Ok? { return; }
      o := Stop(faulty);
    }

    /** Takes a recovery point of the stopped installation. */
    method TakeSnapshot(op: Operation, faulty: bool) returns (o: Outcome, pointer: Pointer)
      requires Inv() && journal.current == Some(op)
      requires op.state.BackingUp? && !op.committed && op.snapshot.None?
      requires host.marker && host.up == Down
      modifies host`snapshots, host`events
      ensures Inv()
      ensures host.snapshots - {op.id} == old(host.snapshots) - {op.id}
      ensures o.Ok? ==>
                && host.store.data == Some(pointer.digest.runtime) && Complete(pointer.digest) && pointer.id == op.id
                && pointer.id in host.snapshots && host.snapshots[pointer.id] == pointer.digest
      ensures !faulty && op.id !in old(host.snapshots) && (forall f | f in CONFIG_FILES :: f in host.store.config) ==>
                o.Ok?
    {
      ghost var snapshots := host.snapshots;
      OneMoreEvent(journal.log, host.events, Did(Action.TakeSnapshot, true, true, |journal.log|));
      o, pointer := host.TakeSnapshot(op.id, faulty, |journal.log|);
      assert forall k | k in host.snapshots && k != op.id :: k in snapshots - {op.id};
    }

    /** Saves the stopped installation and makes the journal name the recovery point. */
    method BackUp(op: Operation, next: State, faulty: bool) returns (o: Outcome, op': Operation)
      requires Inv() && journal.current == Some(op)
      requires op.state.Stopping? && !op.committed && op.snapshot.None?
      requires next.Migrating? || next.Installing?
      requires host.marker && host.up == Down
      requires op.kind.Rollback? ==>
                 && op.previous.fingerprint.Some? && host.store.data.Some?
                 && op.previous.fingerprint.value == FingerprintOf(host.store.data.value,
                                                                   op.previous.fingerprint.value.units)
      modifies journal, host`snapshots, host`events
      ensures Inv()
      ensures host.snapshots - {op.id} == old(host.snapshots) - {op.id}
      ensures !o.Crashed? ==>
                && journal.current == Some(op') && op' == op.(state := op'.state, snapshot := op'.snapshot)
                && !op'.state.Terminal() && !op'.state.PreMutation()
                && (op'.snapshot.Some? ==> host.store.data == Some(op'.snapshot.value.digest.runtime))
      ensures o.Ok? ==>
                && op'.snapshot.Some? && op'.state == next
                && Own(op.id) !in host.store.work && Target(op.id) !in host.store.work && !Recorded(op, host.Now())
                && host.store.data == Some(op'.snapshot.value.digest.runtime)
      ensures !faulty && op.id !in old(host.snapshots) && (forall f | f in CONFIG_FILES :: f in host.store.config) ==>
                o.Ok?
    {
      o, op' := Step(op, State.BackingUp, faulty);
      if !o.Ok? { return; }
      o, op' := Save(op', next, faulty);
    }

    /** The recovery point itself, and the record that names it. */
    method Save(op: Operation, next: State, faulty: bool) returns (o: Outcome, op': Operation)
      requires Inv() && journal.current == Some(op)
      requires op.state.BackingUp? && !op.committed && op.snapshot.None?
      requires next.Migrating? || next.Installing?
      requires host.marker && host.up == Down
      requires op.kind.Rollback? ==>
                 && op.previous.fingerprint.Some? && host.store.data.Some?
                 && op.previous.fingerprint.value == FingerprintOf(host.store.data.value,
                                                                   op.previous.fingerprint.value.units)
      modifies journal, host`snapshots, host`events
      ensures Inv()
      ensures host.snapshots - {op.id} == old(host.snapshots) - {op.id}
      ensures !o.Crashed? ==>
                && journal.current == Some(op') && op' == op.(state := op'.state, snapshot := op'.snapshot)
                && !op'.state.Terminal() && !op'.state.PreMutation()
                && (op'.snapshot.Some? ==> host.store.data == Some(op'.snapshot.value.digest.runtime))
      ensures o.Ok? ==>
                && op'.snapshot.Some? && op'.state == next
                && Own(op.id) !in host.store.work && Target(op.id) !in host.store.work && !Recorded(op, host.Now())
      ensures !faulty && op.id !in old(host.snapshots) && (forall f | f in CONFIG_FILES :: f in host.store.config) ==>
                o.Ok?
    {
      op' := op;
      var pointer: Pointer;
      o, pointer := TakeSnapshot(op, faulty);
      if !o.Ok? { return; }
      o, op' := Advance(op, next, Recovery(pointer), faulty);
    }

    method MigrateData(op: Operation, release: Release, faulty: bool) returns (o: Outcome)
      requires Inv() && journal.current == Some(op) && Undoing(op)
      requires host.marker && host.up == Down && host.store.data.Some?
      requires Own(op.id) !in host.store.work
      modifies host`events, host.store`data
      ensures Inv()
      ensures host.store.data.Some?
      ensures o.Ok? ==> host.store.data.value.schema == release.schema && Grows(old(host.store.data), host.store.data)
      ensures !faulty ==> o.Ok?
    {
      OneMoreEvent(journal.log, host.events, Did(Action.Migrate, true, true, |journal.log|));
      o := host.MigrateData(release, faulty, |journal.log|);
    }

    method ActivateImages(op: Operation, images: Images, faulty: bool) returns (o: Outcome)
      requires Inv() && journal.current == Some(op) && Undoing(op)
      requires host.marker && host.up == Down
      requires Own(op.id) !in host.store.work
      modifies host`events, host`units
      ensures Inv()
      ensures o.Ok? ==> host.units == images
      ensures !faulty ==> o.Ok?
    {
      OneMoreEvent(journal.log, host.events, Did(Action.Activate, true, true, |journal.log|));
      o := host.ActivateImages(images, faulty, |journal.log|);
    }

    /** Migrates the data and activates the candidate's images. */
    method Mutate(op: Operation, release: Release, faulty: bool) returns (o: Outcome, op': Operation)
      requires Inv() && journal.current == Some(op)
      requires op.state.Migrating? && !op.committed && op.snapshot.Some? && release.images.Some?
      requires host.marker && host.up == Down && host.store.data.Some?
      requires Own(op.id) !in host.store.work
      modifies journal, host`units, host`events, host.store`data
      ensures Inv()
      ensures !o.Crashed? ==>
                && journal.current == Some(op') && op' == op.(state := op'.state)
                && !op'.state.Terminal() && !op'.state.PreMutation()
      ensures host.store.data.Some? && (o.Ok? ==> Grows(old(host.store.data), host.store.data))
      ensures o.Ok? ==>
                op'.state.Installing? && host.units == release.images.value
                  && host.store.data.value.schema == release.schema
      ensures !faulty ==> o.Ok?
    {
      op' := op;
      o := MigrateData(op, release, faulty);
      if !o.Ok? { return; }
      o, op' := Step(op', State.Installing, faulty);
      if !o.Ok? { return; }
      o := ActivateImages(op', release.images.value, faulty);
    }

    /** The images activated by `op` are started on the data it prepared for them. */
    ghost predicate Launchable(op: Operation)
      reads this, host, host.store
    {
      && !op.committed && op.snapshot.Some? && op.release.Some?
      && UpWithin(host.up, host.units) && host.units == aim.images && host.store.data.Some?
      && Own(op.id) !in host.store.work && !Recorded(op, host.Now())
      && Advanced(op.kind, aim, host.store.data.value)
      && (op.release.value.images.Some? ==> op.release.value.images.value == aim.images)
      && (op.kind.Install? ==>
            aim.runtime == op.snapshot.value.digest.runtime && aim.images.broker.version == op.release.value.version)
      && (op.kind.Rollback? ==> aim.images.admin.schema == aim.runtime.schema)
    }

    method StartActivated(op: Operation, faulty: bool) returns (o: Outcome)
      requires Inv() && journal.current == Some(op) && Launchable(op) && !op.state.Settled() && host.marker
      modifies host`up, host`events, host.store`data
      ensures Inv() && Launchable(op)
      ensures old(host.store.data).value.schema == aim.images.admin.schema ==>
                host.store.data.value.schema == aim.images.admin.schema
      ensures o.Ok? ==> Running()
      ensures !faulty ==> o.Ok?
    {
      ghost var v := host.Now();
      o := Start(faulty);
      AdvancedWhileServing(op.kind, aim, v.(up := host.up), host.Now());
    }

    method StartUp(op: Operation, faulty: bool) returns (o: Outcome, op': Operation)
      requires Inv() && journal.current == Some(op)
      requires op.state.Starting? && Launchable(op) && host.marker
      modifies journal, host`up, host`events, host.store`data
      ensures Inv()
      ensures !o.Crashed? ==>
                && journal.current == Some(op') && op' == op.(state := op'.state)
                && !op'.state.Terminal() && !op'.state.PreMutation()
      ensures o.Ok? ==> op'.state.HealthChecking? && Launchable(op') && Running()
      ensures old(host.store.data).value.schema == aim.images.admin.schema ==>
                host.store.data.Some? && host.store.data.value.schema == aim.images.admin.schema
      ensures !faulty ==> o.Ok?
    {
      op' := op;
      o := StartActivated(op, faulty);
      if !o.Ok? { return; }
      o, op' := Step(op, State.HealthChecking, faulty);
    }

    method Launch(op: Operation, faulty: bool) returns (o: Outcome, op': Operation)
      requires Inv() && journal.current == Some(op)
      requires op.state.Installing? && Launchable(op) && host.marker
      modifies journal, host`up, host`events, host.store`data
      ensures Inv()
      ensures !o.Crashed? ==>
                && journal.current == Some(op') && op' == op.(state := op'.state)
                && !op'.state.Terminal() && !op'.state.PreMutation()
      ensures o.Ok? ==> op'.state.HealthChecking? && Launchable(op') && Running()
      ensures old(host.store.data).value.schema == aim.images.admin.schema ==>
                host.store.data.Some? && host.store.data.value.schema == aim.images.admin.schema
      ensures !faulty ==> o.Ok?
    {
      o, op' := Step(op, State.Starting, faulty);
      if !o.Ok? { return; }
      o, op' := StartUp(op', faulty);
    }

    /** Once the health check has succeeded and this record is durable, recovery only moves forward. */
    method Decide(op: Operation, faulty: bool) returns (o: Outcome, op': Operation)
      requires Inv() && journal.current == Some(op)
      requires op.state.HealthChecking? && Launchable(op)
      modifies journal, host`events, host.store`data
      ensures Inv()
      ensures o.Raised? ==> journal.current == Some(op') && op' == op
      ensures o.Ok? ==>
                journal.current == Some(op') && op' == op.(state := Committing, committed := true) && Clear(host.events)
      ensures !faulty && Serves(old(host.Now()), op.release.value) ==> o.Ok?
    {
      op' := op;
      ghost var v := host.Now();
      o := Health(op.release.value, faulty);
      AdvancedWhileServing(op.kind, aim, v, host.Now());
      if !o.Ok? { return; }
      o, op' := Advance(op, Committing, Commit, faulty);
    }

    /** Records a fresh operation; `base` becomes what is live now. */
    method Begin(version: Version, previous: Record, kind: Kind, faulty: bool) returns (o: Outcome, op: Operation)
      requires Inv()
      requires journal.current.None? || journal.current.value.state.Settled() ==> previous == Effective(host.Now())
      modifies this`nextId, this`base, journal
      ensures Inv()
      ensures o.Raised? <==> old(journal.current).Some? && !old(journal.current).value.state.Settled()
      ensures o.Raised? ==>
                journal.current == old(journal.current) && journal.log == old(journal.log) && base == old(base)
      ensures o.Ok? ==>
                && op == Operation(old(nextId), Checking, version, previous, kind, false, None, None)
                && journal.current == Some(op)
                && base == host.store.data.value
                && op.id !in host.snapshots
      ensures !faulty ==> !o.Crashed?
    {
      ghost var log, current := journal.log, journal.current;
      o, op := journal.Begin(nextId, version, previous, kind, faulty);
      nextId := nextId + 1;
      if journal.log != log {
        base := host.store.data.value;
        OneMoreRecord(log, host.events, op);
        FreshStart(log, op);
      }
    }

    /** Installs the release published as `version`, or puts everything back. */
    method Install(version: Version, release: Release, around: Surroundings, faulty: bool) returns (o: Outcome)
      requires Inv()
      modifies this`nextId, this`base, this`aim, this`sealed, journal, host, host.store
      ensures Inv()
      ensures o.Raised? ==> journal.current == old(journal.current) && host.Now() == old(host.Now())
      ensures old(journal.current).Some? && !old(journal.current).value.state.Settled() ==> !o.Ok?
      ensures o.Ok? ==>
                && journal.current.Some? && journal.current.value.id == old(nextId)
                && journal.current.value.state.Terminal()
                && journal.current.value.version == version
                && journal.current.value.previous == Effective(old(host.Now()))
      ensures o.Ok? && !faulty ==> journal.current.value.state.Settled()
      ensures o.Ok? && journal.current.value.state.Settled() ==> Grows(old(host.store.data), host.store.data)
      ensures o.Ok? && journal.current.value.state.Completed? ==>
                && old(Running()) && around == Surroundings(true, true)
                && Acceptable(version, journal.current.value.previous, release, host.podman)
      // What is installed then is the release that was asked for, image by image.
      ensures o.Ok? && journal.current.value.state.Completed? ==>
                && host.units == release.images.value && Running()
                && host.installedFile.Some? && host.installedFile.value.images == release.images.value
                && host.installedFile.value.version == release.version
                && host.installedFile.value.schema == release.schema
                && host.store.data.Some? && host.store.data.value.schema == release.schema
      // It advances the version, meets what the manifest demands, and changes the schema as declared only.
      ensures o.Ok? && journal.current.value.state.Completed? ==>
                && release.version == version > Effective(old(host.Now())).version && release.terms.Some?
                && release.terms.value.minGateway <= Effective(old(host.Now())).version
                && release.terms.value.minPodman <= host.podman
                && Effective(old(host.Now())).schema <= release.schema
                && (Effective(old(host.Now())).schema < release.schema ==>
                      release.terms.value.migration
                      == Some(Migration(Effective(old(host.Now())).schema, release.schema, true)))
      ensures o.Ok? && journal.current.value.state.RolledBack? ==> Running()
      // Nothing but a fault or the release itself keeps an installation from being completed.
      ensures !faulty && (old(journal.current).None? || old(journal.current).value.state.Settled())
              && old(host.store.data.Some? && Installable(nextId, version, Effective(host.Now()), release))
              && around == Surroundings(true, true)
              ==> o.Ok? && journal.current.value.state.Completed?
    {
      var previous: Record;
      o, previous := host.Installed(faulty);
      if !o.Ok? { return; }
      var op: Operation;
      o, op := Begin(version, previous, Kind.Install, faulty);
      if !o.Ok? { return; }
      o := CarryOutInstall(op, release, around, faulty);
    }

    /** Everything that precedes the snapshot. */
    method PrepareInstall(op: Operation, release: Release, around: Surroundings, faulty: bool)
      returns (o: Outcome, op': Operation)
      requires Inv() && journal.current == Some(op)
      requires op.state.Checking? && !op.committed
      modifies journal, host`marker, host`up, host`pulled, host.store`data
      ensures Inv() && Grows(old(host.store.data), host.store.data)
      ensures !o.Crashed? ==>
                && InMemory(op', journal.current) && op' == op.(state := op'.state, release := op'.release)
                && !op'.state.Terminal()
      ensures o.Ok? ==>
                && journal.current == Some(op') && op'.state.Stopping? && op'.release == Some(release)
                && release.images.Some? && release.images.value.broker.version == release.version
                && host.marker && host.up == Down && Pulled(release)
      ensures !faulty && op.snapshot.None? && old(Installable(op.id, op.version, op.previous, release))
              && around == Surroundings(true, true)
              ==> o.Ok?
      ensures o.Ok? ==>
                && old(Running()) && around == Surroundings(true, true)
                && Acceptable(op.version, op.previous, release, host.podman)
      ensures o.Raised? ==> !op'.committed
    {
      o, op' := Fetch(op, release, faulty);
      if !o.Ok? { return; }
      o, op' := Announce(op', around, faulty);
      if !o.Ok? { return; }
      o := Quiesce(around, faulty);
    }

    /** The body of `install` inside its exception handler. */
    method TryInstall(op: Operation, release: Release, around: Surroundings, faulty: bool)
      returns (o: Outcome, op': Operation)
      requires Inv() && journal.current == Some(op)
      requires op.state.Checking? && !op.committed && op.snapshot.None? && op.kind.Install?
      modifies this`aim, this`sealed, journal, host, host.store
      ensures Inv()
      ensures !o.Crashed? ==>
                journal.current.Some? && SameOperation(op, op') && SameOperation(op, journal.current.value)
      ensures o.Ok? ==>
                journal.current.value.state.Completed? && journal.current.value.release == Some(release) && Running()
      ensures o.Raised? && op'.committed ==> op'.release == Some(release)
      ensures o.Raised? ==>
                && InMemory(op', journal.current) && !op'.state.Terminal()
                && (op'.committed ==> journal.current == Some(op'))
      ensures !faulty && old(Installable(op.id, op.version, op.previous, release))
              && around == Surroundings(true, true)
              ==> o.Ok?
      ensures o.Ok? || (o.Raised? && op'.committed) ==>
                && old(Running()) && around == Surroundings(true, true)
                && Acceptable(op.version, op.previous, release, host.podman)
    {
      o, op' := PrepareInstall(op, release, around, faulty);
      if !o.Ok? { return; }
      o, op' := BackUp(op', Migrating, faulty);
      if !o.Ok? { return; }
      o, op' := Mutate(op', release, faulty);
      if !o.Ok? { return; }
      aim := Aim(release.images.value, op'.snapshot.value.digest.runtime);
      o, op' := Commission(op', faulty);
    }

    /** `TryInstall` with its exception handler. */
    method CarryOutInstall(op: Operation, release: Release, around: Surroundings, faulty: bool) returns (o: Outcome)
      requires Inv() && journal.current == Some(op)
      requires op.state.Checking? && !op.committed && op.snapshot.None? && op.kind.Install?
      modifies this`aim, this`sealed, journal, host, host.store
      ensures Inv() && !o.Raised?
      ensures o.Ok? ==>
                journal.current.Some? && SameOperation(op, journal.current.value)
                  && journal.current.value.state.Terminal()
      ensures o.Ok? && journal.current.value.state.RolledBack? ==> Running()
      ensures o.Ok? && !faulty ==> journal.current.value.state.Settled()
      ensures o.Ok? && journal.current.value.state.Completed? ==>
                && old(Running()) && around == Surroundings(true, true)
                && Acceptable(op.version, op.previous, release, host.podman)
                && host.units == release.images.value && Running()
                && host.installedFile.Some? && host.installedFile.value.images == release.images.value
                && host.installedFile.value.version == release.version
                && host.installedFile.value.schema == release.schema
                && host.store.data.Some? && host.store.data.value.schema == release.schema
      ensures !faulty && old(Installable(op.id, op.version, op.previous, release)) && around == Surroundings(true, true)
              ==> o.Ok? && journal.current.value.state.Completed?
    {
      var op';
      o, op' := TryInstall(op, release, around, faulty);
      if o.Raised? {
        o := RecoverOperation(op', faulty);
      }
    }

    /** The common tail: start, check, commit, register, open. */
    method Commission(op: Operation, faulty: bool) returns (o: Outcome, op': Operation)
      requires Inv() && journal.current == Some(op)
      requires op.state.Installing? && Launchable(op) && host.marker
      modifies this`sealed, journal, host, host.store
      ensures Inv()
      ensures !o.Crashed? ==>
                journal.current.Some? && SameOperation(op, op') && SameOperation(op, journal.current.value)
      ensures !o.Crashed? ==> op'.snapshot == op.snapshot && journal.current.value.snapshot == op.snapshot
      ensures !o.Crashed? ==> op'.release == op.release && journal.current.value.release == op.release
      ensures o.Ok? ==> journal.current.value.state.Completed? && Running()
      ensures o.Raised? ==> journal.current == Some(op') && !op'.state.Terminal()
      ensures !faulty && old(host.store.data).value.schema == aim.images.admin.schema
              && op.release.value.schema == aim.images.admin.schema
              && op.release.value.version == aim.images.admin.version
              ==> o.Ok?
    {
      o, op' := Launch(op, faulty);
      if !o.Ok? { return; }
      o, op' := Decide(op', faulty);
      if !o.Ok? { return; }
      o := Finish(op', faulty);
    }

    // ----- guarded rollback

    /** The older recovery point is there, and both services run, with nothing left to deliver. */
    ghost predicate Revertible(id: Id, source: Operation, around: Surroundings)
      reads host, host.store
    {
      && source.snapshot.Some? && source.snapshot.value.id in host.snapshots
      && host.snapshots[source.snapshot.value.id] == source.snapshot.value.digest
      && id !in host.snapshots && Running() && around.delivered
      && host.store.data.Some?
      && forall f | f in CONFIG_FILES :: f in host.store.config
    }

    /** The live data no longer have the fingerprint that was taken at the commit of `r`. */
    ghost predicate Departed(r: Record)
      reads host, host.store
    {
      host.store.data.Some? && r.fingerprint != Some(FingerprintOf(host.store.data.value, host.units))
    }

    /** Installs the older state over the one just saved; the displaced runtime stays in the workspace. */
    method RestoreTarget(op: Operation, source: Operation, faulty: bool) returns (o: Outcome)
      requires Inv() && journal.current == Some(op) && Undoing(op) && op.state.Installing?
      requires source.snapshot.Some? && IdBelow(op.id, source.previous)
      requires host.marker && host.up == Down && host.store.data.Some?
      requires Own(op.id) !in host.store.work && Target(op.id) !in host.store.work
      modifies host`units, host`installedFile, host`events, host.store
      ensures Inv() && host.up == Down
      ensures Own(op.id) !in host.store.work
      ensures Target(op.id) in host.store.work ==>
                Original(host.store.data, Some(host.store.work[Target(op.id)])) == old(host.store.data)
      ensures o.Ok? ==>
                && host.store.data == Some(source.snapshot.value.digest.runtime)
                && host.units == source.previous.images && !Recorded(op, host.Now())
      ensures !faulty && source.snapshot.value.id in host.snapshots && Complete(source.snapshot.value.digest)
              && host.snapshots[source.snapshot.value.id] == source.snapshot.value.digest
              ==> o.Ok?
    {
      ghost var v := host.Now();
      OneMoreEvent(journal.log, host.events, Did(Action.Restore(Target(op.id)), true, true, |journal.log|));
      o := host.RestorePoint(Target(op.id), source.snapshot.value, source.previous, faulty, |journal.log|);
      assert forall k | k in host.store.work && k != Target(op.id) :: k in v.work - {Target(op.id)};
    }

    /** From CHECKING to STOPPING: the target is verified, and nothing was written since the commit. */
    method PrepareRollback(op: Operation, source: Operation, around: Surroundings, faulty: bool)
      returns (o: Outcome, op': Operation)
      requires Inv() && journal.current == Some(op)
      requires op.state.Checking? && !op.committed && op.snapshot.None? && source.snapshot.Some?
      modifies journal, host`marker, host`up, host.store`data
      ensures Inv() && Grows(old(host.store.data), host.store.data)
      ensures !o.Crashed? ==>
                && InMemory(op', journal.current) && op' == op.(state := op'.state, release := op'.release)
                && !op'.state.Terminal()
      ensures o.Ok? ==>
                && journal.current == Some(op') && op'.state.Stopping?
                && op'.release == Some(Release(source.previous.version, source.previous.schema, None, None))
                && host.marker && host.up == Down
                && host.store.data.Some?
                && op.previous.fingerprint == Some(FingerprintOf(host.store.data.value, host.units))
                && Forgotten(sealed, host.store.data.value)
      ensures !faulty && old(Revertible(op.id, source, around)) && Complete(source.snapshot.value.digest) ==>
                o.Ok? || (o.Raised? && op'.state.Stopping? && Departed(op.previous))
      ensures o.Ok? ==> old(Running()) && around.delivered
      // The target is verified before anything is announced.
      ensures var target := source.snapshot.value;
              if target.id in host.snapshots && host.snapshots[target.id] == target.digest && Complete(target.digest)
              then true
              else !o.Ok? && journal.current == Some(op) && host.marker == old(host.marker) && host.up == old(host.up)
    {
      op' := op.(release := Some(Release(source.previous.version, source.previous.schema, None, None)));
      o := VerifySnapshot(source.snapshot.value, faulty);
      if !o.Ok? { return; }
      o, op' := Step(op', State.Stopping, faulty);
      if !o.Ok? { return; }
      o := QuiesceUnchanged(op', around, faulty);
    }

    /** The body of `rollback` inside its exception handler. */
    method TryRollback(op: Operation, source: Operation, around: Surroundings, faulty: bool)
      returns (o: Outcome, op': Operation)
      requires Inv() && journal.current == Some(op)
      requires op.state.Checking? && !op.committed && op.snapshot.None? && op.kind.Rollback?
      requires source.snapshot.Some? && OperationOk(source) && IdBelow(op.id, source.previous)
      modifies this`aim, this`sealed, journal, host, host.store
      ensures Inv()
      ensures !o.Crashed? ==>
                journal.current.Some? && SameOperation(op, op') && SameOperation(op, journal.current.value)
      ensures o.Ok? ==>
                && journal.current.value.state.Completed?
                && aim == Aim(source.previous.images, source.snapshot.value.digest.runtime)
                && journal.current.value.release
                   == Some(Release(source.previous.version, source.previous.schema, None, None))
                && Running()
      ensures o.Raised? && op'.committed ==>
                && aim == Aim(source.previous.images, source.snapshot.value.digest.runtime)
                && op'.release == Some(Release(source.previous.version, source.previous.schema, None, None))
      ensures o.Raised? ==>
                && InMemory(op', journal.current) && !op'.state.Terminal()
                && (op'.committed ==> journal.current == Some(op'))
      // What the older state replaces is in the safety snapshot, and nothing visible was written since the commit.
      ensures !o.Crashed? && journal.current.value.snapshot.Some? ==>
                && Grows(old(host.store.data), Some(journal.current.value.snapshot.value.digest.runtime))
                && Forgotten(old(sealed), journal.current.value.snapshot.value.digest.runtime)
      ensures o.Ok? ==> journal.current.value.snapshot.Some?
      ensures !faulty && old(Revertible(op.id, source, around)) ==>
                || o.Ok?
                || (o.Raised? && op'.state.Stopping? && op'.snapshot.None?
                  && Grows(old(host.store.data), host.store.data) && Departed(op.previous))
      ensures o.Ok? || (o.Raised? && op'.committed) ==> old(Running()) && around.delivered
    {
      o, op' := PrepareRollback(op, source, around, faulty);
      if !o.Ok? { return; }
      o, op' := SaveAndRestoreTarget(op', source, faulty);
      if !o.Ok? { return; }
      aim := Aim(source.previous.images, source.snapshot.value.digest.runtime);
      o, op' := Commission(op', faulty);
    }

    /** `TryRollback` with its exception handler. */
    method CarryOutRollback(op: Operation, source: Operation, around: Surroundings, faulty: bool) returns (o: Outcome)
      requires Inv() && journal.current == Some(op)
      requires op.state.Checking? && !op.committed && op.snapshot.None? && op.kind.Rollback?
      requires source.snapshot.Some? && OperationOk(source) && IdBelow(op.id, source.previous)
      modifies this`aim, this`sealed, journal, host, host.store
      ensures Inv() && !o.Raised?
      ensures o.Ok? ==>
                journal.current.Some? && SameOperation(op, journal.current.value)
                  && journal.current.value.state.Terminal()
      ensures o.Ok? && journal.current.value.snapshot.Some? ==>
                && Grows(old(host.store.data), Some(journal.current.value.snapshot.value.digest.runtime))
                && Forgotten(old(sealed), journal.current.value.snapshot.value.digest.runtime)
      ensures o.Ok? && !faulty ==> journal.current.value.state.Settled()
      ensures !faulty && old(Revertible(op.id, source, around)) && !old(Departed(op.previous))
              ==> && o.Ok?
                  && (|| journal.current.value.state.Completed?
                      || (journal.current.value.state.RolledBack? && Departed(op.previous)
                        && Grows(old(host.store.data), host.store.data)))
      ensures o.Ok? && journal.current.value.state.Completed? ==> old(Running()) && around.delivered
      ensures o.Ok? && journal.current.value.state.Completed? ==>
                && host.units == source.previous.images && Running()
                && host.installedFile.Some? && host.installedFile.value.images == source.previous.images
                && host.installedFile.value.version == source.previous.version
                && host.installedFile.value.schema == source.previous.schema
                && host.store.data.Some?
                && Extends(source.snapshot.value.digest.runtime, host.store.data.value, source.previous.images)
      ensures o.Ok? && journal.current.value.state.RolledBack? ==> Running()
    {
      ghost var data := host.store.data;
      var op';
      o, op' := TryRollback(op, source, around, faulty);
      if o.Raised? {
        o := TakeBack(op', data, faulty);
      }
      if o.Ok? && journal.current.value.state.Completed? {
        GoneBack(source);
      }
    }

    /** The exception handler of a rollback; `before` was live at its start. */
    method TakeBack(op: Operation, ghost before: Option<Runtime>, faulty: bool) returns (o: Outcome)
      requires Inv() && InMemory(op, journal.current) && !op.state.Terminal()
      requires op.committed ==> journal.current == Some(op)
      modifies this`sealed, journal, host, host.store
      ensures Inv() && !o.Raised?
      ensures o.Ok? ==>
                && journal.current.Some? && journal.current.value.state.Terminal()
                && journal.current.value == op.(state := journal.current.value.state)
                && (journal.current.value.state.Completed? || journal.current.value.state.RolledBack? ==> Running())
                && (journal.current.value.state.Completed? ==> op.committed)
      ensures !faulty ==> o.Ok? && journal.current.value.state.Settled()
      ensures !faulty && op.state.Stopping? && op.snapshot.None? && before.Some? && Grows(before, old(host.store.data))
              && op.previous.fingerprint == Some(FingerprintOf(before.value, old(host.units)))
              && before.value.schema == op.previous.schema && old(Departed(op.previous))
              ==> && o.Ok? && journal.current.value.state.RolledBack?
                  && Departed(op.previous) && Grows(before, host.store.data)
    {
      ghost var stopped := host.store.data;
      ghost var departed := op.state.Stopping? && op.snapshot.None? && before.Some? && Grows(before, stopped)
        && op.previous.fingerprint == Some(FingerprintOf(before.value, host.units))
        && before.value.schema == op.previous.schema && Departed(op.previous);
      o := RecoverOperation(op, faulty);
      if !faulty && departed {
        StaysDeparted(op, before.value, stopped.value);
      }
    }

    /** What a completed rollback has restored. */
    lemma GoneBack(source: Operation)
      requires journal.current.Some? && journal.current.value.state.Completed? && journal.current.value.kind.Rollback?
      requires Safe(journal.current, base, aim, host.Now()) && source.snapshot.Some?
      requires aim == Aim(source.previous.images, source.snapshot.value.digest.runtime)
      requires journal.current.value.release
               == Some(Release(source.previous.version, source.previous.schema, None, None))
      ensures host.units == source.previous.images
      ensures host.installedFile.Some? && host.installedFile.value.images == source.previous.images
      ensures host.installedFile.value.version == source.previous.version
      ensures host.installedFile.value.schema == source.previous.schema
      ensures host.store.data.Some?
      ensures Extends(source.snapshot.value.digest.runtime, host.store.data.value, source.previous.images)
    {
    }

    lemma StaysDeparted(op: Operation, data: Runtime, stopped: Runtime)
      requires host.store.data.Some? && data.writes <= stopped.writes <= host.store.data.value.writes
      requires op.previous.fingerprint == Some(FingerprintOf(data, host.units)) && data.schema == stopped.schema
      requires op.previous.fingerprint != Some(FingerprintOf(stopped, host.units))
      ensures Departed(op.previous)
    {
      DifferenceLasts(data, stopped, host.store.data.value, host.units);
    }

    /** Stops the writers and checks again that nothing was written since the commit. */
    method QuiesceUnchanged(op: Operation, around: Surroundings, faulty: bool) returns (o: Outcome)
      requires Inv() && journal.current == Some(op) && op.state.Stopping? && !op.committed && op.snapshot.None?
      modifies host`marker, host`up, host.store`data
      ensures Inv() && Grows(old(host.store.data), host.store.data)
      ensures o.Ok? ==>
                && host.marker && host.up == Down
                && host.store.data.Some?
                && op.previous.fingerprint == Some(FingerprintOf(host.store.data.value, host.units))
                && Forgotten(sealed, host.store.data.value)
      ensures !faulty && old(Running()) && around.delivered ==>
                o.Ok? || (o.Raised? && Departed(op.previous))
      ensures o.Ok? ==> old(Running()) && around.delivered
    {
      o := Quiesce(around, faulty);
      if !o.Ok? { return; }
      var f: Fingerprint;
      o, f := host.PersistentFingerprint(faulty);
      if o.Ok? && op.previous.fingerprint != Some(f) {
        o := Raised;
      }
      if o.Ok? {
        SameFingerprintMeansForgotten(sealed, host.store.data.value, host.units);
      }
    }

    method VerifySnapshot(pointer: Pointer, faulty: bool) returns (o: Outcome)
      requires Inv()
      modifies host.store`data
      ensures Inv() && Grows(old(host.store.data), host.store.data)
      ensures o.Ok? ==>
                && pointer.id in host.snapshots && host.snapshots[pointer.id] == pointer.digest
                && Complete(pointer.digest)
      ensures !faulty && pointer.id in host.snapshots && host.snapshots[pointer.id] == pointer.digest
              && Complete(pointer.digest)
              ==> o.Ok?
    {
      ghost var v := host.Now();
      o := host.VerifySnapshot(pointer, faulty);
      TimePasses(journal.current, base, aim, sealed, v, host.Now());
    }

    method SaveAndRestoreTarget(op: Operation, source: Operation, faulty: bool) returns (o: Outcome, op': Operation)
      requires Inv() && journal.current == Some(op)
      requires op.state.Stopping? && !op.committed && op.snapshot.None? && op.kind.Rollback?
      requires source.snapshot.Some? && IdBelow(op.id, source.previous)
      requires host.marker && host.up == Down
      requires host.store.data.Some?
      requires op.previous.fingerprint == Some(FingerprintOf(host.store.data.value, host.units))
      modifies journal, host, host.store
      ensures Inv()
      ensures !o.Crashed? ==>
                && journal.current == Some(op') && op' == op.(state := op'.state, snapshot := op'.snapshot)
                && !op'.state.Terminal()
                && (op'.snapshot.Some? ==> old(host.store.data) == Some(op'.snapshot.value.digest.runtime))
      ensures o.Ok? ==>
                && op'.state.Installing? && op'.snapshot.Some? && host.marker
                && host.store.data == Some(source.snapshot.value.digest.runtime) && host.up == Down
                && Own(op.id) !in host.store.work && host.units == source.previous.images && !Recorded(op, host.Now())
      ensures !faulty && op.id !in old(host.snapshots) && (forall f | f in CONFIG_FILES :: f in old(host.store.config))
              && source.snapshot.value.id in old(host.snapshots) && Complete(source.snapshot.value.digest)
              && old(host.snapshots)[source.snapshot.value.id] == source.snapshot.value.digest
              ==> o.Ok?
    {
      ghost var id, snapshots := source.snapshot.value.id, host.snapshots;
      o, op' := BackUp(op, Installing, faulty);
      if !o.Ok? { return; }
      if id in snapshots && id != op.id {
        assert id in host.snapshots - {op.id} && host.snapshots[id] == (snapshots - {op.id})[id];
      }
      o := RestoreTarget(op', source, faulty);
    }

    /** Goes back to the release before `sourceId`, refusing whenever data written since would be lost. */
    method Rollback(sourceId: Id, confirmation: Confirmation, around: Surroundings, faulty: bool) returns (o: Outcome)
      requires Inv()
      modifies this`nextId, this`base, this`aim, this`sealed, journal, host, host.store
      ensures Inv()
      ensures o.Raised? ==> journal.current == old(journal.current) && host.Now() == old(host.Now())
      ensures !RollbackPermitted(old(journal.history), old(host.Now()), sourceId, confirmation) ==> !o.Ok?
      ensures !RollbackPermitted(old(journal.history), old(host.Now()), sourceId, confirmation)
              ==> journal.current == old(journal.current) && host.Now() == old(host.Now())
      ensures o.Ok? ==>
                && journal.current.Some? && journal.current.value.id == old(nextId)
                && journal.current.value.state.Terminal() && journal.current.value.kind.Rollback?
                && sourceId in old(journal.history)
                && journal.current.value.version == old(journal.history)[sourceId].previous.version
      ensures o.Ok? && !faulty ==> journal.current.value.state.Settled()
      // What is given up for the older state is saved whole; since the commit it has gained forgotten writes only.
      ensures o.Ok? && journal.current.value.snapshot.Some? ==>
                && Grows(old(host.store.data), Some(journal.current.value.snapshot.value.digest.runtime))
                && Forgotten(old(sealed), journal.current.value.snapshot.value.digest.runtime)
                && journal.current.value.snapshot.value.id in host.snapshots
                && var safety := journal.current.value.snapshot.value; host.snapshots[safety.id] == safety.digest
      ensures o.Ok? && journal.current.value.state.Completed? ==> journal.current.value.snapshot.Some?
      ensures o.Ok? && journal.current.value.state.Completed? ==> old(Running()) && around.delivered
      ensures o.Ok? && journal.current.value.state.RolledBack? ==> Running()
      // Only the completed installation of record, confirmed by the version to go back to and unchanged since.
      ensures o.Ok? ==>
                var source := old(journal.history)[sourceId];
                && source.state.Completed? && source.snapshot.Some?
                && confirmation == ConfirmRollback(source.previous.version)
                && old(host.installedFile).Some? && old(host.installedFile).value.operationId == Some(sourceId)
                && old(host.store.data).Some? && old(host.installedFile).value.fingerprint.Some?
                && old(host.installedFile).value.fingerprint.value.state == Visible(old(host.store.data).value.writes)
                && old(host.installedFile).value.fingerprint.value.units == old(host.units)
      // What runs then is what that installation had replaced, on its recovery point.
      ensures o.Ok? && journal.current.value.state.Completed? ==>
                var source := old(journal.history)[sourceId];
                && host.units == source.previous.images && Running()
                && host.installedFile.Some? && host.installedFile.value.images == source.previous.images
                && host.installedFile.value.version == source.previous.version
                && host.installedFile.value.schema == source.previous.schema
                && host.store.data.Some?
                && Extends(source.snapshot.value.digest.runtime, host.store.data.value, source.previous.images)
      // Nothing but a fault or a visible write keeps a permitted rollback from being completed.
      ensures !faulty && (old(journal.current).None? || old(journal.current).value.state.Settled())
              && RollbackPermitted(old(journal.history), old(host.Now()), sourceId, confirmation)
              && old(sourceId in journal.history && Revertible(nextId, journal.history[sourceId], around))
              ==> && o.Ok?
                  && (|| journal.current.value.state.Completed?
                      || (journal.current.value.state.RolledBack? && Departed(journal.current.value.previous)
                          && Grows(old(host.store.data), host.store.data)))
    {
      if sourceId !in journal.history {
        return Raised;
      }
      var source := journal.history[sourceId];
      var installed: Record;
      o, installed := host.Installed(faulty);
      if !o.Ok? { return; }
      if !source.state.Completed? || installed.operationId != Some(sourceId) || source.snapshot.None? {
        return Raised;
      }
      if confirmation != ConfirmRollback(source.previous.version) {
        return Raised;
      }
      var f: Fingerprint;
      o, f := host.PersistentFingerprint(faulty);
      if !o.Ok? { return; }
      if installed.fingerprint != Some(f) {
        return Raised;
      }
      var op: Operation;
      o, op := Begin(source.previous.version, installed, Kind.Rollback, faulty);
      if !o.Ok? { return; }
      o := CarryOutRollback(op, source, around, faulty);
    }

    // ----- what happens besides

    /**
     * The process comes back after a crash, the host having been restarted or not. Even a reboot that
     * lets services loose on an exposed runtime leaves the recovery point and the displaced runtime.
     */
    method ComeBack(rebooted: bool)
      requires Inv()
      modifies host`up, host`boots, host.store`data
      ensures !(rebooted && journal.current.Some? && Undoing(journal.current.value)
              && old(Exposed(journal.current.value, host.Now())))
              ==> Inv()
      ensures journal.current.Some? && Undoing(journal.current.value) ==> Saved(journal.current.value, base, host.Now())
      ensures host.Now() == old(host.Now()).(up := host.up, data := host.store.data)
              && Grows(old(host.store.data), host.store.data)
      ensures host.boots == old(host.boots) + if rebooted then 1 else 0
    {
      ghost var exposed := rebooted && journal.current.Some? && Undoing(journal.current.value)
        && Exposed(journal.current.value, host.Now());
      ghost var v := host.Now();
      if rebooted {
        host.Reboot();
        if !exposed {
          RebootKeepsSafe(journal.current, base, aim, v, host.Now());
        }
        v := host.Now();
      }
      host.Serve();
      if !exposed {
        TimePasses(journal.current, base, aim, sealed, v, host.Now());
      }
    }

    /** Deleting a recovery point the current operation does not name loses nothing it may need. */
    method RemoveSnapshot(id: Id)
      requires Inv()
      requires journal.current.Some? ==> journal.current.value.id != id
      modifies host`snapshots
      ensures Inv()
      ensures host.snapshots == old(host.snapshots) - {id}
    {
      host.RemoveSnapshot(id);
    }

    method RemoveAll(doomed: set<Id>, faulty: bool) returns (o: Outcome)
      requires Inv()
      requires journal.current.Some? ==> journal.current.value.id !in doomed
      modifies host`snapshots
      ensures Inv()
      ensures host.snapshots - doomed == old(host.snapshots) - doomed
      ensures forall id | id in host.snapshots ::
                id in old(host.snapshots) && host.snapshots[id] == old(host.snapshots)[id]
      ensures o.Ok? ==> host.snapshots == old(host.snapshots) - doomed
      ensures !faulty ==> o.Ok?
    {
      o := Ok;
      var rest := doomed;
      ghost var snapshots := host.snapshots;
      while rest != {}
        invariant rest <= doomed && o.Ok?
        invariant host.snapshots == snapshots - (doomed - rest)
        invariant Inv()
        decreases |rest|
      {
        var point :| point in rest;
        assert snapshots - (doomed - rest) - {point} == snapshots - (doomed - (rest - {point}));
        RemoveSnapshot(point);
        rest := rest - {point};
        assert host.snapshots - doomed == snapshots - doomed;
        o := Fate(faulty);
        if !o.Ok? { return; }
      }
    }

    /** Deletes old recovery points, never one that a recovery or a permitted rollback may need. */
    method PruneSnapshots(setting: Option<int>, mtime: Id -> nat, faulty: bool) returns (o: Outcome, retained: seq<Id>)
      requires Inv()
      modifies host`snapshots
      ensures Inv()
      ensures var doomed := Prunable(old(host.Now()), journal.current, journal.history, retained);
              && old(host.snapshots) - doomed == host.snapshots - doomed
              && (o.Ok? ==> host.snapshots == old(host.snapshots) - doomed)
      ensures journal.current.Some? && !journal.current.value.state.Settled() ==>
                o.Ok? && host.snapshots == old(host.snapshots)
      // Without a record, what is installed must be asked of a running Admin first.
      ensures !Inspectable(old(host.Now())) ==> host.snapshots == old(host.snapshots)
      ensures !faulty && Inspectable(old(host.Now())) ==> o.Ok?
      // What is retained stays, and the point of any operation that has not ended; nothing is changed.
      ensures forall id | id in old(host.snapshots) && (id in retained || !Ended(journal.history, id)) ::
                id in host.snapshots
      ensures forall id | id in host.snapshots ::
                id in old(host.snapshots) && host.snapshots[id] == old(host.snapshots)[id]
      ensures forall id | id in old(host.snapshots) && host.installedFile.Some?
                          && host.installedFile.value.operationId == Some(id) :: id in host.snapshots
      // What is left are the retained candidates and the protected ones.
      ensures o.Ok? && (journal.current.None? || journal.current.value.state.Settled()) ==>
                forall id | id in host.snapshots && Ended(journal.history, id) ::
                  || id in retained
                  || (host.installedFile.Some? && host.installedFile.value.operationId == Some(id))
                  || (journal.current.Some? && journal.current.value.id == id)
                  || (journal.current.Some? && journal.current.value.snapshot.Some?
                      && journal.current.value.snapshot.value.id == id)
      ensures forall id | id in retained :: id in old(host.snapshots) && Candidate(journal.history, id)
      ensures Distinct(retained) && |retained| <= Keep(setting)
      ensures o.Ok? && (journal.current.None? || journal.current.value.state.Settled()) ==>
                forall id | id in old(host.snapshots) && Ended(journal.history, id) && id !in retained ::
                  |retained| == Keep(setting) && forall r | r in retained :: mtime(r) >= mtime(id)
      // Whatever rollback the record permits, its recovery point is still there.
      ensures forall id, confirmation | RollbackPermitted(journal.history, host.Now(), id, confirmation) ::
                id in old(host.snapshots) ==> id in host.snapshots
    {
      retained := [];
      if journal.current.Some? && !journal.current.value.state.Settled() {
        return Ok, [];
      }
      var installed: Record;
      o, installed := host.Installed(faulty);
      if !o.Ok? { return; }
      retained := Newest(host.snapshots.Keys, journal.history, mtime, Keep(setting));
      var doomed := Prunable(host.Now(), journal.current, journal.history, retained);
      ghost var snapshots := host.snapshots;
      o := RemoveAll(doomed, faulty);
      forall id | id in snapshots && id !in doomed ensures id in host.snapshots {
        assert id in snapshots - doomed;
      }
    }

    /** One request, which may be refused, fail or be cut short by a loss of power. */
    method Handle(request: Request, faulty: bool) returns (o: Outcome)
      requires Inv()
      modifies this, journal, host, host.store
      ensures Inv() && handled == old(handled) + [request]
      ensures request.InstallRelease? && o.Ok? ==>
                && journal.current.Some? && journal.current.value.id == old(nextId)
                && journal.current.value.version == request.version
                && (journal.current.value.state.Completed? ==>
                      request.release.images.Some? && host.units == request.release.images.value && Running())
      ensures request.InstallRelease? && !faulty
              && (old(journal.current).None? || old(journal.current).value.state.Settled())
              && old(host.store.data.Some?
                     && Installable(nextId, request.version, Effective(host.Now()), request.release))
              && request.around == Surroundings(true, true)
              ==> o.Ok? && journal.current.value.state.Completed?
      ensures request.RollBackTo? && o.Ok? ==>
                && journal.current.Some? && journal.current.value.id == old(nextId)
                && request.id in old(journal.history)
                && (journal.current.value.state.Completed? ==>
                      host.units == old(journal.history)[request.id].previous.images && Running())
      ensures request.RollBackTo? && !faulty
              && (old(journal.current).None? || old(journal.current).value.state.Settled())
              && RollbackPermitted(old(journal.history), old(host.Now()), request.id, request.confirmation)
              && old(request.id in journal.history
                     && Revertible(nextId, journal.history[request.id], request.around))
              ==> o.Ok?
      ensures request.RecoverNow? && !faulty && old(journal.current).Some?
              && !old(journal.current).value.state.Terminal()
              ==> o.Ok? && journal.current.Some? && journal.current.value.state.Settled()
      ensures request.RetryNow? ==>
                (o.Raised? <==> old(journal.current).None? || !old(journal.current).value.state.RecoveryRequired?
                                || old(journal.current).value.id != request.id
                                || request.confirmation != ConfirmRecovery(request.id))
      ensures request.RetryNow? && !faulty && !o.Raised? ==>
                o.Ok? && journal.current.Some? && journal.current.value.state.Settled()
      ensures request.Prune? ==>
                journal.current == old(journal.current) && host.snapshots.Keys <= old(host.snapshots).Keys
      ensures request.Prune? && !faulty && Inspectable(old(host.Now()))
              && (journal.current.None? || journal.current.value.state.Settled())
              ==> exists retained: seq<Id> ::
                    && Distinct(retained) && |retained| <= Keep(request.setting)
                    && forall id | id in host.snapshots && Ended(journal.history, id) ::
                         || id in retained
                         || (host.installedFile.Some? && host.installedFile.value.operationId == Some(id))
                         || (journal.current.Some? && journal.current.value.id == id)
                         || (journal.current.Some? && journal.current.value.snapshot.Some?
                             && journal.current.value.snapshot.value.id == id)
    {
      handled := handled + [request];
      match request {
        case InstallRelease(version, release, around) => o := Install(version, release, around, faulty);
        case RollBackTo(id, confirmation, around) => o := Rollback(id, confirmation, around, faulty);
        case RecoverNow => o := Recover(faulty);
        case RetryNow(id, confirmation) => o := RetryRecovery(id, confirmation, faulty);
        case Prune(setting, mtime) =>
          var retained: seq<Id>;
          o, retained := PruneSnapshots(setting, mtime, faulty);
      }
    }

    function RequestsOf(requests: seq<(Request, bool)>): (r: seq<Request>)
      ensures |r| == |requests| && forall i | 0 <= i < |r| :: r[i] == requests[i].0
    {
      seq(|requests|, i requires 0 <= i < |requests| => requests[i].0)
    }

    /** Any sequence of requests that may fail anywhere, with crashes and reboots in between. */
    method Live(requests: seq<(Request, bool)>)
      requires Inv()
      modifies this, journal, host, host.store
      ensures Inv() && handled == old(handled) + RequestsOf(requests)
    {
      for i := 0 to |requests|
        invariant Inv() && handled == old(handled) + RequestsOf(requests)[..i]
      {
        var o := Handle(requests[i].0, true);
        assert RequestsOf(requests)[..i + 1] == RequestsOf(requests)[..i] + [requests[i].0];
        // A reboot while the restored runtime is exposed is the one event left out.
        ComeBack(requests[i].1
                 && !(journal.current.Some? && Undoing(journal.current.value)
                   && Exposed(journal.current.value, host.Now())));
      }
    }

    /**
     * Any history of requests, failures, crashes and reboots, followed by one recovery with a
     * working backend: no operation is left half-done, and a finished one is on one version. If the
     * recovery still has to be confirmed, one confirmed retry finishes the operation, too.
     */
    method Lifetime(requests: seq<(Request, bool)>, confirmed: bool)
      requires Inv()
      modifies this, journal, host, host.store
      ensures Inv() && handled == old(handled) + RequestsOf(requests)
      ensures journal.current.Some? ==> journal.current.value.state.Terminal()
      ensures journal.current.Some? && confirmed ==> journal.current.value.state.Settled()
      ensures journal.current.Some? && journal.current.value.state.Settled() ==>
                OnOneVersion(journal.current.value, base, aim, host.Now())
      ensures journal.current.None? ==> Quiet(host.Now())
      // Throughout, effects kept the maintenance discipline, and no commit was ever undone.
      ensures Disciplined(host.events) && OpenedWhenClear(host.events)
      ensures CommitsStand(journal.log, host.events)
    {
      Live(requests);
      var recovered := Recover(false);
      if confirmed && journal.current.Some? && journal.current.value.state.RecoveryRequired? {
        var id := journal.current.value.id;
        recovered := RetryRecovery(id, ConfirmRecovery(id), false);
      }
      NoCommitIsUndone(journal.log, host.events);
    }
  }
}
