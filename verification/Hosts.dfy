/**
 * The host adapter (scripts/updater/host.py): the effects the controller drives, each of which
 * may fail, be interrupted, or take time in which the running services write.
 */
module Hosts {
  import opened Outcomes
  import opened SnapshotRestore
  import opened Installation

  datatype Action = TakeSnapshot | Migrate | Activate | Restore(id: WorkId)

  /** What the updater has done, in order. `at` counts the journal records written before it. */
  datatype Event =
    | Did(action: Action, marker: bool, quiescent: bool, at: nat)
    | Launched(marker: bool)
    | Healthy
    | Registered(id: Id)
    | Opened

  /**
   * Every change of data or images happened under maintenance with both services stopped, and
   * services are started under maintenance only.
   */
  ghost predicate Disciplined(events: seq<Event>) {
    forall e | e in events :: (e.Did? ==> e.marker && e.quiescent) && (e.Launched? ==> e.marker)
  }

  /** A health check succeeded and nothing was changed or restarted since. */
  ghost predicate Clear(events: seq<Event>) {
    events != [] &&
    var last := events[|events| - 1];
    last.Healthy? || ((last.Opened? || last.Registered?) && Clear(events[..|events| - 1]))
  }

  ghost predicate OpenedWhenClear(events: seq<Event>) {
    forall i | 0 <= i < |events| && events[i].Opened? :: Clear(events[..i])
  }

  /** The images of the running containers, or of the Quadlets where nothing runs. */
  function ImageIds(v: View): Images {
    Images(if v.up.admin.Some? then v.up.admin.value else v.units.admin,
           if v.up.broker.Some? then v.up.broker.value else v.units.broker)
  }

  /** What the running installation says about itself to an updater that must ask, and has to be up for it. */
  datatype Surroundings = Surroundings(
    policyApplied: bool,   // no pending revision, and the applied one is the latest
    delivered: bool)       // no one-time provisioning delivery is under way

  /** Whether `Host.installed` can tell what is installed: from the record, or by asking a running Admin. */
  predicate Inspectable(v: View) {
    v.installed.None? ==> v.data.Some? && v.up.admin.Some?
  }

  predicate Serves(v: View, release: Release) {
    && v.up.admin.Some? && v.up.broker.Some?
    && v.data.Some? && v.data.value.schema == release.schema
    && v.up.admin.value.schema == release.schema
    && v.up.admin.value.version == release.version
  }

  ghost predicate ShutDown(up: Services, up': Services) {
    && (up'.admin == up.admin || up'.admin.None?)
    && (up'.broker == up.broker || up'.broker.None?)
  }

  ghost predicate StartedUp(v: View, up': Services) {
    && (up'.admin == v.up.admin || (v.up.admin.None? && up'.admin == Some(v.units.admin)))
    && (up'.broker == v.up.broker || (v.up.broker.None? && up'.broker == Some(v.units.broker)))
  }

  ghost predicate PartlyActivated(units: Images, units': Images, target: Images) {
    && (units'.admin == units.admin || units'.admin == target.admin)
    && (units'.broker == units.broker || units'.broker == target.broker)
  }

  function BrokerWrites(writes: seq<Write>): seq<Write> {
    if writes == [] then []
    else
      var last := writes[|writes| - 1];
      BrokerWrites(writes[..|writes| - 1]) + if last.author.ByBroker? then [last] else []
  }

  lemma {:induction false} BrokerWritesAreKept(writes: seq<Write>, w: Write)
    ensures w in BrokerWrites(writes) <==> w in writes && w.author.ByBroker?
  {
    if writes != [] {
      var front, last := writes[..|writes| - 1], writes[|writes| - 1];
      BrokerWritesAreKept(front, w);
      assert writes == front + [last];
    }
  }

  /** The database without its write-ahead log: what Admin wrote last is gone. */
  ghost predicate LogRemoved(r: Runtime, r': Runtime) {
    exists n | 0 <= n <= |r.writes| :: r' == Runtime(r.writes[..n] + BrokerWrites(r.writes[n..]), r'.schema)
  }

  ghost predicate Migrated(r: Runtime, r': Runtime, schema: nat) {
    && r'.schema == schema
    && |r'.writes| == |r.writes| + 1 && r.writes <= r'.writes
    && r'.writes[|r.writes|].author == ByMigration(schema)
  }

  /** All that restoring `pointer` in workspace `id` may have done, whether or not it finished. */
  ghost predicate RestoreEffect(id: WorkId, pointer: Pointer, previous: Record, v: View, v': View) {
    var w, w' := Lookup(v.work, id), Lookup(v'.work, id);
    && v' == v.(units := v'.units, installed := v'.installed, data := v'.data, work := v'.work)
    && v'.work - {id} == v.work - {id}
    && Advances(v.data, w, v'.data, w', pointer.digest)
    && (v.up != Down ==> v' == v)
    && PartlyActivated(v.units, v'.units, previous.images)
    && (v'.units != v.units || v'.installed != v.installed ==> w'.Some? && w'.value.completed)
    && (v'.installed == v.installed || (v'.installed == Some(previous) && v'.units == previous.images))
    && (Resumable(v.data, w) && Untampered(v.data, w)
        && w'.Some? && w'.value.completed && !(w.Some? && w.value.completed)
        ==> v'.data == Some(pointer.digest.runtime) && w'.value == Settled(pointer.digest, Original(v.data, w)))
  }

  class Host {
    var marker: bool
    var installedFile: Option<Record>
    var units: Images
    var up: Services
    var snapshots: map<Id, Snapshot<Runtime>>
    const store: RuntimeStore<WorkId, Runtime>
    /** The version of the host's Podman. */
    const podman: Version
    /** The images in the local storage of Podman. */
    var pulled: set<Image>
    ghost var events: seq<Event>
    /** How often power has returned. */
    ghost var boots: nat

    /** An installation that was bootstrapped, with or without a record of its release. */
    constructor (installed: Option<Record>, units: Images, up: Services, data: Runtime, config: map<ConfigFile, nat>,
                 files: Runtime -> Files, podman: Version)
      requires UpWithin(up, units)
      ensures Now() == View(false, installed, units, up, Some(data), map[], map[])
      ensures events == [] && fresh(store) && this.podman == podman
    {
      marker, installedFile, this.units, this.up, snapshots := false, installed, units, up, map[];
      store := new RuntimeStore(Some(data), config, files);
      this.podman := podman;
      pulled, events, boots := {units.admin, units.broker}, [], 0;
    }

    function Now(): View
      reads this, store
    {
      View(marker, installedFile, units, up, store.data, snapshots, store.work)
    }

    /** Time passes. */
    method Serve()
      modifies store`data
      ensures Served(old(Now()), Now())
    {
      var n: nat :| 0 <= n;
      for i := 0 to n
        invariant Served(old(Now()), Now())
      {
        var content: nat :| 0 <= content;
        var byAdmin: bool, visible: bool := *, *;
        if store.data.Some? {
          var r := store.data.value;
          if byAdmin && up.admin.Some? {
            var image := up.admin.value;
            store.data := Some(Runtime(r.writes + [Write(ByAdmin(image), content, visible)],
                                       if r.schema < image.schema then image.schema else r.schema));
          } else if !byAdmin && up.broker.Some? {
            store.data := Some(r.(writes := r.writes + [Write(ByBroker(up.broker.value), content, visible)]));
          }
        }
      }
    }

    /** Power returns: systemd starts what it can of what the Quadlets now say. */
    method Reboot()
      modifies `up, `boots
      ensures Rebooted(old(Now()), Now()) && boots == old(boots) + 1
    {
      up, boots := Down, boots + 1;
      var admin: bool, broker: bool := *, *;
      if store.data.Some? {
        up := Services(if admin then Some(units.admin) else None, if broker then Some(units.broker) else None);
      }
    }

    /** Deletes one recovery point. */
    method RemoveSnapshot(id: Id)
      modifies `snapshots
      ensures snapshots == old(snapshots) - {id}
    {
      snapshots := snapshots - {id};
    }

    method Installed(faulty: bool) returns (o: Outcome, r: Record)
      ensures o.Ok? ==>
                && Inspectable(Now())
                && r.operationId == if installedFile.Some? then installedFile.value.operationId else None
      ensures o.Ok? && (installedFile.Some? || UpWithin(up, units)) ==> r == Effective(Now())
      ensures !faulty && Inspectable(Now()) ==> o.Ok?
      ensures !faulty ==> !o.Crashed?
    {
      r := *;
      o := Fate(faulty);
      if !o.Ok? { return; }
      if installedFile.Some? {
        r := installedFile.value;
      } else if up.admin.None? || store.data.None? {
        o := Raised;
      } else {
        // The version is read inside the Admin container.
        var images := RunningImages();
        r := Record(up.admin.value.version, store.data.value.schema, images, None, None);
      }
    }

    /** `image_ids`: of the containers, or of the images the Quadlets name. */
    method RunningImages() returns (images: Images)
      ensures images == ImageIds(Now())
    {
      images := units;
      if up.admin.Some? {
        images := images.(admin := up.admin.value);
      }
      if up.broker.Some? {
        images := images.(broker := up.broker.value);
      }
    }

    /** Checks the signed manifest published for `version`: it must advance the release and be compatible with it. */
    method Resolve(version: Version, release: Release, faulty: bool) returns (o: Outcome)
      modifies store`data
      ensures Served(old(Now()), Now())
      ensures o.Ok? ==> release.version == version && release.images.Some?
      ensures o.Ok? && (installedFile.Some? || UpWithin(up, units)) ==>
                && store.data.Some? && Effective(Now()).version < version
                && Compatible(release, Effective(Now()).version, store.data.value.schema, podman)
      ensures !faulty && release.version == version && release.images.Some? && Inspectable(Now()) && UpWithin(up, units)
              && store.data.Some? && Effective(Now()).version < version
              && Compatible(release, Effective(Now()).version, store.data.value.schema, podman)
              ==> o.Ok?
      ensures !faulty ==> !o.Crashed?
    {
      Serve();
      o := Fate(faulty);
      if !o.Ok? { return; }
      var installed: Record;
      o, installed := Installed(faulty);
      if !o.Ok? { return; }
      if release.version != version || !release.images.Some? || version <= installed.version
         || store.data.None? || !Compatible(release, installed.version, store.data.value.schema, podman) {
        o := Raised;
      }
    }

    /** Pulls the image of the Admin, then the one of the broker. */
    method Download(release: Release, faulty: bool) returns (o: Outcome)
      modifies `pulled, store`data
      ensures Served(old(Now()), Now()) && old(pulled) <= pulled
      ensures o.Ok? ==> release.images.Some? && release.images.value.admin in pulled
                        && release.images.value.broker in pulled
      ensures release.images.None? ==> pulled == old(pulled)
      ensures release.images.Some? ==>
                pulled <= old(pulled) + {release.images.value.admin, release.images.value.broker}
      ensures !faulty && release.images.Some? ==> o.Ok?
      ensures !faulty ==> !o.Crashed?
    {
      Serve();
      if release.images.None? {
        return Raised;
      }
      o := Fate(faulty);
      if !o.Ok? { return; }
      pulled := pulled + {release.images.value.admin};
      o := Fate(faulty);
      if !o.Ok? { return; }
      pulled := pulled + {release.images.value.broker};
      o := Fate(faulty);
    }

    /** Both images must have been downloaded, and their labels must name the release. */
    method VerifyImages(release: Release, faulty: bool) returns (o: Outcome)
      modifies store`data
      ensures Served(old(Now()), Now())
      ensures o.Ok? ==>
                && release.images.Some? && release.images.value.admin in pulled && release.images.value.broker in pulled
                && release.images.value.admin.version == release.version
                && release.images.value.broker.version == release.version
      ensures !faulty && release.images.Some?
              && release.images.value.admin in pulled && release.images.value.broker in pulled
              && release.images.value.admin.version == release.version
              && release.images.value.broker.version == release.version
              ==> o.Ok?
    {
      Serve();
      o := Fate(faulty);
      if o.Ok? && !(release.images.Some?
                    && release.images.value.admin in pulled && release.images.value.broker in pulled
                    && release.images.value.admin.version == release.version
                    && release.images.value.broker.version == release.version) {
        o := Raised;
      }
    }

    /** Nothing may wait to be applied by the broker, which must run, and what runs must be what is recorded. */
    method Preflight(around: Surroundings, faulty: bool) returns (o: Outcome)
      modifies store`data
      ensures Served(old(Now()), Now())
      ensures o.Ok? ==> around.policyApplied && up.broker.Some? && Inspectable(Now())
      ensures o.Ok? && UpWithin(up, units) ==> Effective(Now()).images == ImageIds(Now())
      ensures !faulty && around.policyApplied && up.broker.Some? && Inspectable(Now()) && UpWithin(up, units)
              && Effective(Now()).images == ImageIds(Now())
              ==> o.Ok?
      ensures !faulty ==> !o.Crashed?
    {
      Serve();
      if !around.policyApplied || up.broker.None? {
        return Raised;
      }
      var installed: Record;
      o, installed := Installed(faulty);
      if !o.Ok? { return; }
      var images := RunningImages();
      if installed.images != images {
        o := Raised;
      }
    }

    method EnterMaintenance(faulty: bool) returns (o: Outcome)
      modifies `marker
      ensures o.Ok? ==> marker
      ensures !faulty ==> o.Ok?
    {
      o := Fate(faulty);
      if !o.Ok? { return; }
      marker := true;
      o := Fate(faulty);
    }

    /** Unlinks the marker, then waits for the broker to acknowledge; only the wait needs the broker. */
    method LeaveMaintenance(faulty: bool) returns (o: Outcome)
      modifies `marker, `events, store`data
      ensures Served(old(Now()).(marker := marker), Now())
      ensures o.Ok? ==> !marker && up.broker.Some?
      ensures (marker == old(marker) && events == old(events)) || (!marker && events == old(events) + [Opened])
      ensures o.Ok? ==> events == old(events) + [Opened]
      ensures !faulty && up.broker.Some? ==> o.Ok?
      ensures !faulty ==> !o.Crashed?
    {
      o := Fate(faulty);
      if !o.Ok? { return; }
      marker := false;
      events := events + [Opened];
      Serve();
      o := Fate(faulty);
      if o.Ok? && up.broker.None? {
        o := Raised;
      }
    }

    /** Asks Admin whether it may stop, then waits for the broker to acknowledge the marker: both must run. */
    method PrepareStop(around: Surroundings, faulty: bool) returns (o: Outcome)
      modifies store`data
      ensures Served(old(Now()), Now())
      ensures o.Ok? ==> up.admin.Some? && up.broker.Some? && around.delivered
      ensures !faulty && up.admin.Some? && up.broker.Some? && around.delivered ==> o.Ok?
      ensures !faulty ==> !o.Crashed?
    {
      Serve();
      o := Fate(faulty);
      if o.Ok? && (up.admin.None? || !around.delivered || up.broker.None?) {
        o := Raised;
      }
    }

    /** Stops Admin, then the broker, and checks that neither is left running. */
    method Stop(faulty: bool) returns (o: Outcome)
      modifies `up, store`data
      ensures Served(old(Now()), Now().(up := old(up))) && ShutDown(old(up), up)
      ensures o.Ok? ==> up == Down
      // The broker outlives Admin.
      ensures up.broker != old(up).broker ==> up.admin.None?
      ensures !faulty ==> o.Ok?
    {
      Serve();
      o := Fate(faulty);
      if !o.Ok? { return; }
      up := up.(admin := None);
      o := Fate(faulty);
      if !o.Ok? { return; }
      up := up.(broker := None);
      o := Fate(faulty);
    }

    /** Starts the broker, then Admin, unless they already run; without a runtime nothing starts. */
    method Start(faulty: bool) returns (o: Outcome)
      modifies `up, `events, store`data
      ensures Served(old(Now()).(up := up), Now()) && StartedUp(old(Now()), up)
      ensures old(store.data).None? ==> up == old(up)
      ensures o.Ok? ==> up.admin.Some? && up.broker.Some?
      // Admin is not started before the broker.
      ensures up.admin != old(up).admin ==> up.broker.Some?
      ensures events == old(events) + [Launched(marker)]
      ensures !faulty && old(store.data).Some? ==> o.Ok?
      ensures !faulty ==> !o.Crashed?
    {
      events := events + [Launched(marker)];
      o := Fate(faulty);
      if !o.Ok? { return; }
      if store.data.None? {
        return Raised;
      }
      if up.broker.None? {
        up := up.(broker := Some(units.broker));
      }
      o := Fate(faulty);
      if !o.Ok? { Serve(); return; }
      if up.admin.None? {
        up := up.(admin := Some(units.admin));
      }
      Serve();
      o := Fate(faulty);
    }

    /** The functional probe: both services active, and Admin reporting the release and its schema. */
    method Health(release: Release, faulty: bool) returns (o: Outcome)
      modifies `events, store`data
      ensures Served(old(Now()), Now())
      ensures o.Ok? ==> Serves(Now(), release) && events == old(events) + [Healthy]
      ensures !o.Ok? ==> events == old(events)
      ensures !faulty && Serves(old(Now()), release) ==> o.Ok?
      ensures !faulty ==> !o.Crashed?
    {
      Serve();
      o := Fate(faulty);
      if !o.Ok? { return; }
      if up.admin.Some? && up.broker.Some? && store.data.Some? && store.data.value.schema == release.schema
         && up.admin.value.schema == release.schema && up.admin.value.version == release.version {
        events := events + [Healthy];
      } else {
        o := Raised;
      }
    }

    method VerifySnapshot(pointer: Pointer, faulty: bool) returns (o: Outcome)
      modifies store`data
      ensures Served(old(Now()), Now())
      ensures o.Ok? ==> pointer.id in snapshots && snapshots[pointer.id] == pointer.digest && Complete(pointer.digest)
      ensures !faulty && pointer.id in snapshots && snapshots[pointer.id] == pointer.digest
              && Complete(pointer.digest)
              ==> o.Ok?
    {
      Serve();
      o := Fate(faulty);
      if o.Ok? && !(pointer.id in snapshots && snapshots[pointer.id] == pointer.digest && Complete(pointer.digest)) {
        o := Raised;
      }
    }

    /** Publishes a recovery point under the operation's id, by one rename at the end. */
    method TakeSnapshot(id: Id, faulty: bool, ghost at: nat) returns (o: Outcome, pointer: Pointer)
      modifies `snapshots, `events
      ensures o.Ok? ==>
                && up == Down && store.data.Some? && Complete(pointer.digest)
                && pointer == Pointer(id, Snapshot(store.data.value, store.config))
                && snapshots == old(snapshots)[id := pointer.digest]
      ensures snapshots - {id} == old(snapshots) - {id}
      ensures !faulty && up == Down && store.data.Some? && id !in old(snapshots)
              && Complete(Snapshot(store.data.value, store.config))
              ==> o.Ok?
      ensures id in old(snapshots) ==> snapshots == old(snapshots) && !o.Ok?
      ensures events == old(events) || events == old(events) + [Did(Action.TakeSnapshot, marker, up == Down, at)]
      ensures snapshots != old(snapshots) ==> events != old(events)
    {
      pointer := *;
      o := Fate(faulty);
      if !o.Ok? { return; }
      if up != Down || store.data.None? || id in snapshots {
        o := Raised;
        return;
      }
      var digest := Snapshot(store.data.value, store.config);
      if !Complete(digest) {
        o := Raised;
        return;
      }
      events := events + [Did(Action.TakeSnapshot, marker, up == Down, at)];
      o := Fate(faulty);
      if !o.Ok? { return; }
      snapshots := snapshots[id := digest];
      pointer := Pointer(id, digest);
      o := Fate(faulty);
    }

    /**
     * Migrates a copy of the database and, once it has reached the schema, removes the write-ahead
     * log of the live one and replaces it atomically.
     */
    method MigrateData(release: Release, faulty: bool, ghost at: nat) returns (o: Outcome)
      modifies `events, store`data
      ensures store.data == old(store.data)
              || (old(store.data).Some? && old(up) == Down && store.data.Some?
                  && (|| Migrated(old(store.data).value, store.data.value, release.schema)
                      || (!o.Ok? && LogRemoved(old(store.data).value, store.data.value))))
      ensures o.Ok? ==> store.data.Some? && Migrated(old(store.data).value, store.data.value, release.schema)
      ensures !faulty && old(up) == Down && old(store.data).Some? ==> o.Ok?
      ensures events == old(events) || events == old(events) + [Did(Action.Migrate, marker, up == Down, at)]
      ensures store.data != old(store.data) ==> events != old(events)
    {
      o := Fate(faulty);
      if !o.Ok? { return; }
      if up != Down || store.data.None? {
        return Raised;
      }
      // The code of the release may fail to reach its schema.
      o := Fate(faulty);
      if !o.Ok? { return; }
      events := events + [Did(Action.Migrate, marker, up == Down, at)];
      var live := store.data.value;
      var content: nat :| 0 <= content;
      var canonical := Runtime(live.writes + [Write(ByMigration(release.schema), content, true)], release.schema);
      RemoveLog();
      o := Fate(faulty);
      if !o.Ok? { return; }
      store.data := Some(canonical);
      o := Fate(faulty);
    }

    /** Unlinks `-wal` and `-shm`: what Admin wrote since the last checkpoint leaves the live database. */
    method RemoveLog()
      requires store.data.Some?
      modifies store`data
      ensures store.data.Some? && LogRemoved(old(store.data).value, store.data.value)
    {
      var r := store.data.value;
      var n: nat, schema: nat :| n <= |r.writes| && schema <= r.schema;
      store.data := Some(Runtime(r.writes[..n] + BrokerWrites(r.writes[n..]), schema));
    }

    /** Points the two managed Quadlets at the new images, one atomic replacement each. */
    method ActivateImages(images: Images, faulty: bool, ghost at: nat) returns (o: Outcome)
      modifies `events, `units
      ensures PartlyActivated(old(units), units, images)
      ensures up != Down ==> units == old(units)
      ensures o.Ok? ==> units == images
      ensures units.broker != old(units).broker ==> units.admin == images.admin
      ensures !faulty && up == Down ==> o.Ok?
      ensures events == old(events) || events == old(events) + [Did(Action.Activate, marker, up == Down, at)]
      ensures units != old(units) ==> events != old(events)
    {
      o := Fate(faulty);
      if !o.Ok? { return; }
      if up != Down {
        return Raised;
      }
      events := events + [Did(Action.Activate, marker, up == Down, at)];
      units := units.(admin := images.admin);
      o := Fate(faulty);
      if !o.Ok? { return; }
      units := units.(broker := images.broker);
      o := Fate(faulty);
    }

    method PersistentFingerprint(faulty: bool) returns (o: Outcome, f: Fingerprint)
      ensures o.Ok? ==> store.data.Some? && f == FingerprintOf(store.data.value, units)
      ensures !faulty && store.data.Some? ==> o.Ok?
      ensures !faulty ==> !o.Crashed?
    {
      f := *;
      o := Fate(faulty);
      if !o.Ok? { return; }
      if store.data.None? {
        o := Raised;
        return;
      }
      f := FingerprintOf(store.data.value, units);
    }

    /** Writes the installed record once per operation; repeating it changes nothing. */
    method Register(operation: Operation, faulty: bool) returns (o: Outcome)
      modifies `installedFile, `events
      ensures old(installedFile).Some? && old(installedFile).value.operationId == Some(operation.id)
              ==> installedFile == old(installedFile)
      ensures installedFile == old(installedFile)
              || (store.data.Some? && operation.release.Some?
                  && installedFile == Some(Record(operation.release.value.version, operation.release.value.schema,
                                                  ImageIds(Now()),
                                                  Some(operation.id), Some(FingerprintOf(store.data.value, units)))))
      ensures o.Ok? ==> installedFile.Some? && installedFile.value.operationId == Some(operation.id)
      ensures events == old(events) || events == old(events) + [Registered(operation.id)]
      ensures installedFile != old(installedFile) ==> events != old(events)
      ensures !faulty && store.data.Some? && operation.release.Some? ==> o.Ok?
      ensures !faulty ==> !o.Crashed?
    {
      o := Fate(faulty);
      if !o.Ok? { return; }
      if installedFile.Some? && installedFile.value.operationId == Some(operation.id) {
        return Ok;
      }
      if operation.release.None? {
        return Raised;
      }
      var f: Fingerprint;
      o, f := PersistentFingerprint(faulty);
      if !o.Ok? { return; }
      var images := RunningImages();
      installedFile := Some(Record(operation.release.value.version, operation.release.value.schema, images,
                                   Some(operation.id), Some(f)));
      events := events + [Registered(operation.id)];
      o := Fate(faulty);
    }

    /** Restores a recovery point, then the Quadlets with the previous images, then the record. */
    method RestorePoint(id: WorkId, pointer: Pointer, previous: Record, faulty: bool, ghost at: nat)
      returns (o: Outcome)
      modifies `units, `installedFile, `events, store
      ensures RestoreEffect(id, pointer, previous, old(Now()), Now())
      ensures !(pointer.id in snapshots && snapshots[pointer.id] == pointer.digest && Complete(pointer.digest)) ==>
                Now() == old(Now()) && !o.Ok?
      ensures o.Ok? ==>
                && old(up) == Down
                && id in store.work && store.work[id].completed && store.work[id].source == pointer.digest
                && units == previous.images && installedFile == Some(previous)
      ensures units.broker != old(units).broker ==> units.admin == previous.images.admin
      ensures events == old(events) || events == old(events) + [Did(Action.Restore(id), marker, up == Down, at)]
      ensures if up == Down then Now() != old(Now()) ==> events != old(events) else events == old(events) && o.Raised?
      ensures !faulty && old(up) == Down
              && pointer.id in snapshots && snapshots[pointer.id] == pointer.digest && Complete(pointer.digest)
              && Resumable(old(store.data), Lookup(old(store.work), id))
                && Untampered(old(store.data), Lookup(old(store.work), id))
              && (id in old(store.work) ==> old(store.work)[id].source == pointer.digest)
              ==> o.Ok?
      ensures !faulty ==> !o.Crashed?
    {
      if up != Down {
        return Raised;
      }
      if pointer.id !in snapshots {
        return Raised;
      }
      events := events + [Did(Action.Restore(id), marker, up == Down, at)];
      o := store.Restore(id, snapshots[pointer.id], pointer.digest, up == Down, faulty);
      if !o.Ok? { return; }
      o := RestoreUnits(previous, faulty);
    }

    /** The Quadlets get the previous images one after the other, and then the record is put back. */
    method RestoreUnits(previous: Record, faulty: bool) returns (o: Outcome)
      modifies `units, `installedFile
      ensures PartlyActivated(old(units), units, previous.images)
      ensures units.broker != old(units).broker ==> units.admin == previous.images.admin
      ensures installedFile == old(installedFile) || (installedFile == Some(previous) && units == previous.images)
      ensures o.Ok? ==> units == previous.images && installedFile == Some(previous)
      ensures !faulty ==> o.Ok?
    {
      o := Fate(faulty);
      if !o.Ok? { return; }
      units := units.(admin := previous.images.admin);
      o := Fate(faulty);
      if !o.Ok? { return; }
      units := units.(broker := previous.images.broker);
      o := Fate(faulty);
      if !o.Ok? { return; }
      installedFile := Some(previous);
      o := Fate(faulty);
    }
  }
}
