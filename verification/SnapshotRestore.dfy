/**
 * The resumable restoration of a runtime directory from a verified snapshot
 * (scripts/updater/snapshots.py). A digest is represented by the content it identifies, so
 * equal digests mean equal content. Every rename and every atomic file replacement is one
 * durable write; the process may raise or die between any two of them.
 */
module SnapshotRestore {
  import opened Outcomes

  datatype ConfigFile = Environment | AdminUnit | BrokerUnit | NetworkUnit

  /** The configuration files in the order they are put back. */
  const CONFIG_FILES: seq<ConfigFile> := [Environment, AdminUnit, BrokerUnit, NetworkUnit]

  datatype Snapshot<+T> = Snapshot(runtime: T, config: map<ConfigFile, nat>)

  /** The extracted tree: not there yet, holding the runtime, or with its runtime moved into place. */
  datatype Stage<+T> = Unextracted | Staged(runtime: T) | Moved

  /** One operation's workspace, from the moment its progress file exists. */
  datatype Workspace<+T> =
    Workspace(source: Snapshot<T>, completed: bool, stage: Stage<T>, previous: Option<T>)

  function Lookup<K, T>(work: map<K, Workspace<T>>, id: K): Option<Workspace<T>> {
    if id in work then Some(work[id]) else None
  }

  /** The shapes of (live runtime, workspace) that the restoration itself can leave behind. */
  ghost predicate Resumable<T>(data: Option<T>, w: Option<Workspace<T>>) {
    w.Some? ==>
      && (w.value.stage.Unextracted? ==> w.value.previous.None?)
      && (w.value.stage.Staged? ==>
            && w.value.stage.runtime == w.value.source.runtime
            && (w.value.previous.Some? ==> data.None?))
      && (w.value.stage.Moved? ==> data.Some?)
      && (w.value.completed ==> w.value.stage.Moved?)
  }

  /** The runtime that was live when the restoration began, wherever it is now. */
  ghost function Original<T>(data: Option<T>, w: Option<Workspace<T>>): Option<T> {
    if w.Some? && (w.value.previous.Some? || w.value.stage.Moved?) then w.value.previous else data
  }

  /** Before the final check: what was moved into place is still what the snapshot holds. */
  ghost predicate Untampered<T>(data: Option<T>, w: Option<Workspace<T>>) {
    w.Some? && w.value.stage.Moved? && !w.value.completed ==> data == Some(w.value.source.runtime)
  }

  /** The workspace of a finished restoration. */
  ghost function Settled<T>(source: Snapshot<T>, original: Option<T>): Workspace<T> {
    Workspace(source, true, Moved, original)
  }

  /** Everything a restoration of `snapshot` may do, in any number of steps, to a runtime and its workspace. */
  ghost predicate Advances<T>(d: Option<T>, w: Option<Workspace<T>>, d': Option<T>, w': Option<Workspace<T>>,
                              snapshot: Snapshot<T>) {
    && (w.None? && w'.Some? ==> w'.value.source == snapshot)
    && (w.Some? ==> w'.Some? && w'.value.source == w.value.source)
    && (w.Some? && w.value.stage.Moved? ==> d' == d && w'.value.stage.Moved?)
    && (w.Some? && w.value.completed ==> w' == w)
    // What has been displaced is never overwritten, in whatever state it is found.
    && (w.Some? && w.value.previous.Some? ==> w'.value.previous == w.value.previous)
    && (Resumable(d, w) ==> Resumable(d', w') && Original(d', w') == Original(d, w))
    && (Resumable(d, w) && Untampered(d, w) ==> Untampered(d', w'))
  }

  ghost predicate ConfigRestored<T>(config: map<ConfigFile, nat>, source: Snapshot<T>) {
    forall f | f in CONFIG_FILES :: f in config && f in source.config && config[f] == source.config[f]
  }

  /** What the snapshot check demands of the configuration part of the inventory. */
  predicate Complete<T>(snapshot: Snapshot<T>) {
    forall f | f in CONFIG_FILES :: f in snapshot.config
  }

  /** The regular files of a runtime directory, each with its digest. */
  type Files = map<string, nat>

  /** What the final check of a restoration demands: every file of the inventory, with its digest. */
  predicate Accepts(inventory: Files, files: Files) {
    forall f | f in inventory :: f in files && files[f] == inventory[f]
  }

  /** The restored runtime is the one of the snapshot if and only if the check accepts it and nothing else is there. */
  lemma AcceptedIsEqualUnlessLarger(inventory: Files, files: Files)
    ensures files == inventory <==> Accepts(inventory, files) && files.Keys <= inventory.Keys
  {
    if Accepts(inventory, files) && files.Keys <= inventory.Keys {
      assert forall f | f in files :: f in inventory && files[f] == inventory[f];
    }
  }

  /** A write-ahead log beside the restored database passes the check. */
  lemma AdditionalFilePasses(inventory: Files, files: Files)
    requires inventory == map["admin/gateway.sqlite" := 1]
    requires files == map["admin/gateway.sqlite" := 1, "admin/gateway.sqlite-wal" := 2]
    ensures Accepts(inventory, files) && files != inventory
  {
    assert "admin/gateway.sqlite-wal" !in inventory;
  }

  /** No configuration file is left out of a complete snapshot or of its restoration. */
  lemma EveryFileIsRestored<T>(config: map<ConfigFile, nat>, source: Snapshot<T>, f: ConfigFile)
    ensures Complete(source) ==> f in source.config
    ensures ConfigRestored(config, source) ==> f in config && f in source.config && config[f] == source.config[f]
  {
    assert CONFIG_FILES[0] == Environment && CONFIG_FILES[1] == AdminUnit;
    assert CONFIG_FILES[2] == BrokerUnit && CONFIG_FILES[3] == NetworkUnit;
  }

  class RuntimeStore<K(==), T(==)> {
    /** The files a runtime consists of. */
    const files: T -> Files
    var data: Option<T>
    var config: map<ConfigFile, nat>
    var work: map<K, Workspace<T>>

    constructor (data: Option<T>, config: map<ConfigFile, nat>, files: T -> Files)
      ensures this.data == data && this.config == config && this.work == map[] && this.files == files
    {
      this.files := files;
      this.data, this.config, this.work := data, config, map[];
    }

    /** Restores `snapshot` in workspace `id`; repeating the call with the same workspace resumes it. */
    method Restore(id: K, snapshot: Snapshot<T>, expected: Snapshot<T>, quiescent: bool, faulty: bool)
      returns (o: Outcome)
      modifies this
      ensures work - {id} == old(work) - {id}
      ensures Advances(old(data), Lookup(old(work), id), data, Lookup(work, id), snapshot)
      // Refusals change nothing.
      ensures !quiescent || snapshot != expected || !Complete(snapshot)
              || (id in old(work) && old(work)[id].source != snapshot)
              ==> !o.Ok? && data == old(data) && config == old(config) && work == old(work)
      ensures id in old(work) && old(work)[id].completed ==> config == old(config)
      ensures id in old(work) && old(data).Some? && old(work)[id].previous.Some? && old(work)[id].stage.Staged? ==>
                data == old(data) && work == old(work) && (o.Ok? ==> old(work)[id].completed)
      // A workspace that becomes completed holds exactly the snapshot.
      ensures Resumable(old(data), Lookup(old(work), id)) && Untampered(old(data), Lookup(old(work), id))
              && id in work && work[id].completed && !(id in old(work) && old(work)[id].completed) ==>
                && data == Some(snapshot.runtime)
                && work[id] == Settled(snapshot, Original(old(data), Lookup(old(work), id)))
                && ConfigRestored(config, snapshot)
      ensures o.Ok? ==> id in work && work[id].completed
      ensures !faulty ==> !o.Crashed?
      // Whatever has happened to it since it was moved, the runtime is accepted exactly on its inventory.
      ensures id in work && work[id].completed && !(id in old(work) && old(work)[id].completed)
              ==> data.Some? && Accepts(files(snapshot.runtime), files(data.value))
      ensures !faulty && quiescent && snapshot == expected && Complete(snapshot)
              && id in old(work) && old(work)[id].source == snapshot && old(work)[id].stage.Moved?
                && !old(work)[id].completed
              ==> (o.Ok? <==> old(data).Some? && Accepts(files(snapshot.runtime), files(old(data).value)))
      // With a working backend the errors about ambiguous, missing or differing runtimes do not occur.
      ensures !faulty && quiescent && snapshot == expected && Complete(snapshot)
              && Resumable(old(data), Lookup(old(work), id)) && Untampered(old(data), Lookup(old(work), id))
              && (id in old(work) ==> old(work)[id].source == snapshot)
              ==> o.Ok?
    {
      if !quiescent {
        return Raised;
      }
      o := Fate(faulty);
      if !o.Ok? { return; }
      if snapshot != expected || !Complete(snapshot) {
        return Raised;
      }
      if id in work && work[id].source != snapshot {
        return Raised;
      }
      if id !in work {
        UpdateElsewhere(work, id, Workspace(snapshot, false, Unextracted, None));
        work := work[id := Workspace(snapshot, false, Unextracted, None)];
      }
      if work[id].completed {
        return Ok;
      }
      o := Fate(faulty);
      if !o.Ok? { return; }
      if work[id].stage.Unextracted? {
        // A partial extraction lives under a temporary name that the next attempt removes.
        UpdateElsewhere(work, id, work[id].(stage := Staged(snapshot.runtime)));
        work := work[id := work[id].(stage := Staged(snapshot.runtime))];
      }
      o := Fate(faulty);
      if !o.Ok? { return; }
      o := Swap(id, faulty);
      if !o.Ok? { return; }
      var accepted := CheckInventory(files(snapshot.runtime), files(data.value));
      if !accepted {
        return Raised;
      }
      o := RestoreConfig(snapshot, faulty);
      if !o.Ok? { return; }
      UpdateElsewhere(work, id, work[id].(completed := true));
      work := work[id := work[id].(completed := true)];
    }

    /** Compares the files of the inventory, one after another. */
    method CheckInventory(inventory: Files, files: Files) returns (accepted: bool)
      ensures accepted <==> Accepts(inventory, files)
    {
      var rest := inventory.Keys;
      while rest != {}
        invariant rest <= inventory.Keys
        invariant forall f | f in inventory && f !in rest :: f in files && files[f] == inventory[f]
        decreases |rest|
      {
        var f :| f in rest;
        if f !in files || files[f] != inventory[f] {
          return false;
        }
        rest := rest - {f};
      }
      return true;
    }

    /** Displaces the live runtime and moves the extracted one into its place, by two renames. */
    method Swap(id: K, faulty: bool) returns (o: Outcome)
      requires id in work && !work[id].stage.Unextracted? && !work[id].completed
      modifies `data, `work
      ensures work - {id} == old(work) - {id}
      ensures Advances(old(data), Lookup(old(work), id), data, Lookup(work, id), old(work)[id].source)
      ensures id in work && !work[id].completed
      ensures o.Ok? ==> work[id].stage.Moved? && data.Some?
      // An ambiguous state is left to the operator, a missing runtime is reported.
      ensures old(data).Some? && old(work)[id].previous.Some? && !old(work)[id].stage.Moved? ==>
                o.Raised? && data == old(data) && work == old(work)
      ensures old(data).None? && old(work)[id].stage.Moved? ==> o.Raised?
      ensures o.Ok? && old(work)[id].stage.Staged? ==> data == Some(old(work)[id].stage.runtime)
      ensures !faulty && Resumable(old(data), Lookup(old(work), id)) ==> o.Ok?
      ensures !faulty ==> !o.Crashed?
    {
      if work[id].stage.Moved? {
        return if data.None? then Raised else Ok;
      }
      if data.Some? {
        if work[id].previous.Some? {
          return Raised;
        }
        work, data := work[id := work[id].(previous := data)], None;
      }
      o := Fate(faulty);
      if !o.Ok? { return; }
      data, work := Some(work[id].stage.runtime), work[id := work[id].(stage := Moved)];
      o := Fate(faulty);
    }

    /** Puts the configuration files back one by one; each replacement is atomic. */
    method RestoreConfig(snapshot: Snapshot<T>, faulty: bool) returns (o: Outcome)
      requires Complete(snapshot)
      modifies `config
      ensures forall f | f in old(config) :: f in config
      ensures forall f | f in config ::
                (f in old(config) && config[f] == old(config)[f])
                  || (f in snapshot.config && config[f] == snapshot.config[f])
      ensures o.Ok? ==> ConfigRestored(config, snapshot)
      ensures !faulty ==> o.Ok?
    {
      o := Ok;
      for i := 0 to |CONFIG_FILES|
        invariant forall f | f in old(config) :: f in config
        invariant forall f | f in config ::
                    (f in old(config) && config[f] == old(config)[f])
                      || (f in snapshot.config && config[f] == snapshot.config[f])
        invariant forall f | f in CONFIG_FILES[..i] :: f in config && config[f] == snapshot.config[f]
        invariant o.Ok?
      {
        config := config[CONFIG_FILES[i] := snapshot.config[CONFIG_FILES[i]]];
        o := Fate(faulty);
        if !o.Ok? { return; }
      }
      assert CONFIG_FILES[..|CONFIG_FILES|] == CONFIG_FILES;
    }

    /**
     * Any number of interrupted attempts followed by one that works, with the services stopped
     * throughout, leaves exactly what a single uninterrupted attempt leaves.
     */
    method RestoreAfterInterruptions(id: K, snapshot: Snapshot<T>, attempts: nat) returns (o: Outcome)
      requires Complete(snapshot)
      requires Resumable(data, Lookup(work, id)) && Untampered(data, Lookup(work, id))
      requires id in work ==> work[id].source == snapshot && !work[id].completed
      modifies this
      ensures o.Ok?
      ensures data == Some(snapshot.runtime)
      ensures work == old(work)[id := Settled(snapshot, Original(old(data), Lookup(old(work), id)))]
      ensures ConfigRestored(config, snapshot)
    {
      ghost var original := Original(data, Lookup(work, id));
      for i := 0 to attempts
        invariant Resumable(data, Lookup(work, id)) && Untampered(data, Lookup(work, id))
        invariant Original(data, Lookup(work, id)) == original
        invariant id in work ==> work[id].source == snapshot
        invariant id in work && work[id].completed ==>
                    && data == Some(snapshot.runtime)
                    && work[id] == Settled(snapshot, original)
                    && ConfigRestored(config, snapshot)
        invariant work - {id} == old(work) - {id}
      {
        var interrupted := Restore(id, snapshot, snapshot, true, true);
      }
      o := Restore(id, snapshot, snapshot, true, false);
      SameElsewhere(old(work), work, id);
    }
  }

  lemma UpdateElsewhere<K, V>(m: map<K, V>, id: K, v: V)
    ensures m[id := v] - {id} == m - {id}
  {
  }

  lemma SameElsewhere<K, V>(m: map<K, V>, m': map<K, V>, id: K)
    requires m - {id} == m' - {id} && id in m'
    ensures m' == m[id := m'[id]]
  {
    assert forall k | k in m' && k != id :: k in m' - {id};
    assert forall k | k in m && k != id :: k in m - {id};
    forall k | k in m[id := m'[id]] ensures k in m' && m'[k] == m[id := m'[id]][k] {
      if k != id {
        assert (m - {id})[k] == (m' - {id})[k];
      }
    }
  }
}
