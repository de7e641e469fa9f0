/**
 * Schema upgrades (admin-web/src/migrations/index.js:15-43): the search for a path through the
 * registry, and its application one transaction at a time.
 */
module Migrations {
  import opened Outcomes

  const CURRENT_SCHEMA_VERSION := 1
  const MAX_SAFE_INTEGER := 0x1F_FFFF_FFFF_FFFF

  datatype Migration = Migration(id: string, from: int, to: int)
  datatype Entry = Entry(id: string, from: int, to: int)
  /** What the database file holds; `Data` stands for every table but the ledger. */
  datatype Contents<Data> = Contents(version: int, data: Data, ledger: seq<Entry>)
  datatype Report = Report(from: int, to: int, applied: seq<string>)

  // ----- the path

  function Applicable(registry: seq<Migration>, cursor: int, target: int): (r: seq<Migration>)
    ensures forall m :: m in r <==> m in registry && m.from == cursor && m.to <= target
  {
    if registry == [] then []
    else
      (if registry[0].from == cursor && registry[0].to <= target then [registry[0]] else [])
      + Applicable(registry[1..], cursor, target)
  }

  /** From `from` to `target` by registered migrations, each of which leads upwards to the next. */
  predicate Path(path: seq<Migration>, registry: seq<Migration>, from: int, target: int) {
    if path == [] then from == target
    else
      && path[0] in registry && path[0].from == from < path[0].to <= target
      && Path(path[1..], registry, path[0].to, target)
  }

  /** At no step of the path is there a choice. */
  predicate Unambiguous(path: seq<Migration>, registry: seq<Migration>, target: int) {
    forall m | m in path :: |Applicable(registry, m.from, target)| == 1
  }

  lemma OnlyOne(registry: seq<Migration>, m: Migration, target: int)
    requires m in registry && m.to <= target && |Applicable(registry, m.from, target)| == 1
    ensures Applicable(registry, m.from, target) == [m]
  {
    assert m in Applicable(registry, m.from, target);
  }

  lemma UnambiguousRest(path: seq<Migration>, registry: seq<Migration>, target: int, k: nat)
    requires Unambiguous(path, registry, target) && k <= |path|
    ensures Unambiguous(path[k..], registry, target)
  {
    forall m | m in path[k..] ensures m in path {
    }
  }

  lemma FirstIsForced(path: seq<Migration>, other: seq<Migration>, registry: seq<Migration>, from: int, target: int)
    requires path != [] && other != []
    requires Path(path, registry, from, target) && Unambiguous(path, registry, target)
    requires Path(other, registry, from, target)
    ensures other[0] == path[0]
  {
    assert path[0] in path;
    OnlyOne(registry, path[0], target);
    OnlyOne(registry, other[0], target);
  }

  /** A path without choices is the only path. */
  lemma {:induction false} PathIsUnique(path: seq<Migration>, other: seq<Migration>, registry: seq<Migration>,
                                        from: int, target: int)
    requires Path(path, registry, from, target) && Unambiguous(path, registry, target)
    requires Path(other, registry, from, target)
    ensures other == path
    decreases |path|
  {
    if path == [] {
      assert other == [];
    } else {
      assert other != [];
      FirstIsForced(path, other, registry, from, target);
      UnambiguousRest(path, registry, target, 1);
      PathIsUnique(path[1..], other[1..], registry, path[0].to, target);
      assert path == [path[0]] + path[1..] && other == [other[0]] + other[1..];
    }
  }

  lemma {:induction false} PathAppend(path: seq<Migration>, m: Migration, registry: seq<Migration>, from: int,
                                      cursor: int, target: int)
    requires Path(path, registry, from, cursor) && cursor <= target
    requires m in registry && m.from == cursor < m.to <= target
    ensures Path(path + [m], registry, from, m.to)
    decreases |path|
  {
    if path != [] {
      PathAppend(path[1..], m, registry, path[0].to, cursor, target);
      assert (path + [m])[1..] == path[1..] + [m];
      PathClimbs(path[1..], registry, path[0].to, cursor);
    }
  }

  lemma {:induction false} PathClimbs(path: seq<Migration>, registry: seq<Migration>, from: int, target: int)
    requires Path(path, registry, from, target)
    ensures from <= target
    ensures forall m | m in path :: from <= m.from < m.to <= target && m in registry
    decreases |path|
  {
    if path != [] {
      PathClimbs(path[1..], registry, path[0].to, target);
      assert path == [path[0]] + path[1..];
    }
  }

  lemma {:induction false} PathSplits(path: seq<Migration>, registry: seq<Migration>, from: int, target: int, k: nat)
    requires Path(path, registry, from, target) && k <= |path|
    ensures Path(path[k..], registry, if k == 0 then from else path[k - 1].to, target)
    ensures k < |path| ==> path[k].from == if k == 0 then from else path[k - 1].to
    decreases |path|
  {
    if k == 0 {
      assert path[0..] == path;
    } else {
      PathSplits(path[1..], registry, path[0].to, target, k - 1);
      assert path[1..][k - 1..] == path[k..];
    }
  }

  // ----- how a stuck search shows that there is no unambiguous path

  lemma {:induction false} StuckMeansNoPath(done: seq<Migration>, path: seq<Migration>, registry: seq<Migration>,
                                            from: int, cursor: int, target: int)
    requires Path(done, registry, from, cursor) && Unambiguous(done, registry, target) && cursor < target
    requires |Applicable(registry, cursor, target)| != 1 || Applicable(registry, cursor, target)[0].to <= cursor
    requires Path(path, registry, from, target)
    ensures !Unambiguous(path, registry, target)
    decreases |done|
  {
    assert path != [];
    if done == [] {
      if Unambiguous(path, registry, target) {
        assert path[0] in path;
        OnlyOne(registry, path[0], target);
        assert false;
      }
    } else {
      PathClimbs(done, registry, from, cursor);
      assert done[0] in done;
      OnlyOne(registry, done[0], target);
      assert path[0] in Applicable(registry, from, target);
      assert forall m | m in done[1..] :: m in done;
      StuckMeansNoPath(done[1..], path[1..], registry, done[0].to, cursor, target);
      assert forall m | m in path[1..] :: m in path;
    }
  }

  function Highest(registry: seq<Migration>): (r: int)
    ensures r >= 1 && (forall m | m in registry :: m.to <= r)
    ensures r == 1 || exists m | m in registry :: m.to == r
  {
    if registry == [] then CURRENT_SCHEMA_VERSION
    else
      var rest := Highest(registry[1..]);
      if registry[0].to > rest then registry[0].to else rest
  }

  predicate Supported(registry: seq<Migration>, current: int, target: int) {
    && 0 <= target <= MAX_SAFE_INTEGER && target <= Highest(registry) && current <= target
  }

  /** Finds the path that has no choices, or reports that there is none. */
  method FindPath(registry: seq<Migration>, current: int, target: int) returns (r: Option<seq<Migration>>)
    requires current <= target
    ensures r.Some? ==> Path(r.value, registry, current, target) && Unambiguous(r.value, registry, target)
    ensures r.None? ==> forall path | Path(path, registry, current, target) :: !Unambiguous(path, registry, target)
  {
    var path: seq<Migration> := [];
    var cursor := current;
    while cursor != target
      invariant cursor <= target
      invariant Path(path, registry, current, cursor) && Unambiguous(path, registry, target)
      decreases target - cursor
    {
      var next := Applicable(registry, cursor, target);
      if |next| != 1 || next[0].to <= cursor {
        forall p | Path(p, registry, current, target) ensures !Unambiguous(p, registry, target) {
          StuckMeansNoPath(path, p, registry, current, cursor, target);
        }
        return None;
      }
      assert next[0] in next;
      PathAppend(path, next[0], registry, current, cursor, target);
      path := path + [next[0]];
      cursor := next[0].to;
    }
    r := Some(path);
  }

  // ----- its application

  /** What one migration does to the data: the new data, or an exception. */
  type Change<!Data> = (Migration, Data) -> Option<Data>

  function EntryOf(m: Migration): Entry {
    Entry(m.id, m.from, m.to)
  }

  /** One committed transaction; the id is the primary key of the ledger. */
  function Apply<Data>(change: Change<Data>, db: Contents<Data>, m: Migration): Option<Contents<Data>> {
    if db.version != m.from || change(m, db.data).None? || (exists e | e in db.ledger :: e.id == m.id) then None
    else Some(Contents(m.to, change(m, db.data).value, db.ledger + [EntryOf(m)]))
  }

  function ApplyAll<Data>(change: Change<Data>, db: Contents<Data>, path: seq<Migration>): Option<Contents<Data>>
    decreases |path|
  {
    if path == [] then Some(db)
    else
      var next := Apply(change, db, path[0]);
      if next.None? then None else ApplyAll(change, next.value, path[1..])
  }

  lemma {:induction false} ApplyInTwoParts<Data>(change: Change<Data>, db: Contents<Data>, path: seq<Migration>, k: nat)
    requires k <= |path|
    ensures ApplyAll(change, db, path) ==
            var half := ApplyAll(change, db, path[..k]);
            if half.None? then None else ApplyAll(change, half.value, path[k..])
    decreases |path|
  {
    if k == 0 {
      assert path[..0] == [] && path[0..] == path;
    } else {
      assert path[..k][1..] == path[1..][..k - 1] && path[1..][k - 1..] == path[k..];
      var next := Apply(change, db, path[0]);
      if next.Some? {
        ApplyInTwoParts(change, next.value, path[1..], k - 1);
      }
    }
  }

  /** The data alone, changed by one migration after the other. */
  function Changed<Data>(change: Change<Data>, data: Data, path: seq<Migration>): Option<Data>
    decreases |path|
  {
    if path == [] then Some(data)
    else
      match Changed(change, data, path[..|path| - 1])
      case Some(d) => change(path[|path| - 1], d)
      case None => None
  }

  /** An upgrade makes every change of its path to the data, in order. */
  lemma {:induction false} DataIsChangedAlongPath<Data>(change: Change<Data>, db: Contents<Data>, path: seq<Migration>)
    requires ApplyAll(change, db, path).Some?
    ensures Changed(change, db.data, path) == Some(ApplyAll(change, db, path).value.data)
    decreases |path|
  {
    if path != [] {
      var n := |path| - 1;
      ApplyInTwoParts(change, db, path, n);
      DataIsChangedAlongPath(change, db, path[..n]);
      assert path[n..] == [path[n]] && path[n..][1..] == [];
    }
  }

  /** The ledger gains exactly the migrations of the path, in their order. */
  lemma {:induction false} LedgerRecordsPath<Data>(change: Change<Data>, db: Contents<Data>, path: seq<Migration>,
                                                   i: nat)
    requires ApplyAll(change, db, path).Some?
    ensures var after := ApplyAll(change, db, path).value;
            && |after.ledger| == |db.ledger| + |path| && after.ledger[..|db.ledger|] == db.ledger
            && (i < |path| ==> after.ledger[|db.ledger| + i] == Entry(path[i].id, path[i].from, path[i].to))
            && after.version == if path == [] then db.version else path[|path| - 1].to
    decreases |path|
  {
    if path != [] {
      var next := Apply(change, db, path[0]).value;
      LedgerRecordsPath(change, next, path[1..], if i == 0 then 0 else i - 1);
      var after := ApplyAll(change, next, path[1..]).value;
      assert after.ledger[..|db.ledger|] == after.ledger[..|next.ledger|][..|db.ledger|] == db.ledger;
      assert after.ledger[|db.ledger|] == after.ledger[..|next.ledger|][|db.ledger|];
    }
  }

  /** What is left of a path after an interruption is again the path without choices. */
  lemma RestOfPath<Data>(change: Change<Data>, db: Contents<Data>, path: seq<Migration>, registry: seq<Migration>,
                         target: int, k: nat)
    requires Path(path, registry, db.version, target) && Unambiguous(path, registry, target) && k <= |path|
    requires ApplyAll(change, db, path[..k]).Some?
    ensures var half := ApplyAll(change, db, path[..k]).value;
            && Path(path[k..], registry, half.version, target) && Unambiguous(path[k..], registry, target)
            && (k < |path| ==> path[k].from == half.version)
            && ApplyAll(change, db, path) == ApplyAll(change, half, path[k..])
  {
    ApplyInTwoParts(change, db, path, k);
    LedgerRecordsPath(change, db, path[..k], 0);
    PathSplits(path, registry, db.version, target, k);
    UnambiguousRest(path, registry, target, k);
  }

  /** One transaction more, or the end of the run. */
  lemma OneTransactionMore<Data>(change: Change<Data>, db: Contents<Data>, path: seq<Migration>, i: nat,
                                 half: Contents<Data>)
    requires i < |path| && ApplyAll(change, db, path[..i]) == Some(half)
    ensures ApplyAll(change, db, path[..i + 1]) == Apply(change, half, path[i])
    ensures Apply(change, half, path[i]).None? ==> ApplyAll(change, db, path).None?
  {
    ApplyInTwoParts(change, db, path[..i + 1], i);
    assert path[..i + 1][..i] == path[..i] && path[..i + 1][i..] == [path[i]];
    ApplyInTwoParts(change, db, path, i + 1);
  }

  /** One attempt, which some exception may have ended after `k` transactions. */
  ghost predicate Attempt<Data(!new)>(change: Change<Data>, registry: seq<Migration>, target: int, db: Contents<Data>,
                               db': Contents<Data>) {
    exists path, k: nat ::
      && Path(path, registry, db.version, target) && Unambiguous(path, registry, target) && k <= |path|
      && ApplyAll(change, db, path[..k]) == Some(db')
  }

  /** However often it is interrupted, the upgrade ends as one uninterrupted run would have. */
  lemma {:induction false} InterruptionsDoNotMatter<Data(!new)>(change: Change<Data>,
                                                                registry: seq<Migration>, target: int,
      states: seq<Contents<Data>>, path: seq<Migration>)
    requires |states| > 0 && states[|states| - 1].version == target
    requires forall i | 0 < i < |states| :: Attempt(change, registry, target, states[i - 1], states[i])
    requires Path(path, registry, states[0].version, target) && Unambiguous(path, registry, target)
    ensures ApplyAll(change, states[0], path) == Some(states[|states| - 1])
    decreases |states|
  {
    if |states| == 1 {
      assert path == [];
    } else {
      assert Attempt(change, registry, target, states[1 - 1], states[1]);
      var other, k: nat :| Path(other, registry, states[0].version, target) && Unambiguous(other, registry, target)
        && k <= |other| && ApplyAll(change, states[0], other[..k]) == Some(states[1]);
      PathIsUnique(path, other, registry, states[0].version, target);
      RestOfPath(change, states[0], path, registry, target, k);
      var rest := states[1..];
      forall i | 0 < i < |rest| ensures Attempt(change, registry, target, rest[i - 1], rest[i]) {
        assert Attempt(change, registry, target, states[(i + 1) - 1], states[i + 1]);
      }
      InterruptionsDoNotMatter(change, registry, target, rest, path[k..]);
    }
  }

  class Database<Data(!new)> {
    var contents: Contents<Data>

    constructor (contents: Contents<Data>)
      ensures this.contents == contents
    {
      this.contents := contents;
    }

    /** One transaction; `fault` tells which of its statements the disk refuses, if any. */
    method Transact(change: Change<Data>, m: Migration, fault: nat) returns (ok: bool)
      modifies this
      ensures ok == (fault >= 4 && Apply(change, old(contents), m).Some?)
      ensures contents == if ok then Apply(change, old(contents), m).value else old(contents)
    {
      var begun := contents;
      if contents.version != m.from || fault == 0 { return false; }
      var changed := change(m, contents.data);
      if changed.None? || fault == 1 { return false; }
      contents := contents.(data := changed.value);
      if fault == 2 || exists e | e in contents.ledger :: e.id == m.id {
        contents := begun;
        return false;
      }
      contents := contents.(ledger := contents.ledger + [EntryOf(m)]);
      contents := contents.(version := m.to);
      if fault == 3 {
        contents := begun;
        return false;
      }
      return true;
    }

    /** `healthy` transactions meet no fault of the disk; the next one does. */
    method ApplyPath(change: Change<Data>, path: seq<Migration>, registry: seq<Migration>, target: int, healthy: nat,
                     fault: nat)
      returns (done: nat)
      requires Path(path, registry, contents.version, target) && Unambiguous(path, registry, target)
      modifies this
      ensures done <= |path| && ApplyAll(change, old(contents), path[..done]) == Some(contents)
      ensures done < |path| && healthy >= |path| ==> ApplyAll(change, old(contents), path).None?
      ensures done == |path| ==> contents.version == target
    {
      done := 0;
      while done < |path|
        invariant done <= |path| && ApplyAll(change, old(contents), path[..done]) == Some(contents)
      {
        RestOfPath(change, old(contents), path, registry, target, done);
        assert contents.version == path[done].from;
        OneTransactionMore(change, old(contents), path, done, contents);
        var ok := Transact(change, path[done], if done < healthy then 4 else fault);
        if !ok { return; }
        done := done + 1;
      }
      RestOfPath(change, old(contents), path, registry, target, done);
    }

    /** Applies the path, or leaves the database exactly as the last committed transaction did. */
    method Migrate(target: int, registry: seq<Migration>, change: Change<Data>, healthy: nat, fault: nat)
      returns (r: Option<Report>, ghost path: seq<Migration>, ghost done: nat)
      modifies this
      ensures r.Some? ==> old(contents).version <= target <= 0x1F_FFFF_FFFF_FFFF && target >= 0
      ensures r.Some? ==> contents.version == target && Supported(registry, old(contents).version, target)
      ensures !Supported(registry, old(contents).version, target) ==> r.None? && contents == old(contents)
      ensures contents != old(contents) || r.Some? ==>
                Path(path, registry, old(contents).version, target) && Unambiguous(path, registry, target)
      ensures r.Some? ==> Changed(change, old(contents).data, path) == Some(contents.data)
      ensures done <= |path| && ApplyAll(change, old(contents), path[..done]) == Some(contents)
      ensures r.Some? ==>
                done == |path| && r.value == Report(old(contents).version, target,
                                                    seq(|path|, i requires 0 <= i < |path| => path[i].id))
      // A target that is no safe integer, beyond every migration, or below the database, is refused;
      // any other fails only for want of an unambiguous path, or in one of its migrations.
      ensures (r.None? && 0 <= target <= 9_007_199_254_740_991 && target <= Highest(registry)
               && old(contents).version <= target && healthy >= |path|)
              ==>
                || (path == [] && forall p | Path(p, registry, old(contents).version, target) ::
                                    !Unambiguous(p, registry, target))
                || ApplyAll(change, old(contents), path).None?
    {
      var current := contents.version;
      path, done := [], 0;
      if !(0 <= target <= MAX_SAFE_INTEGER) || target > Highest(registry) { return None, path, done; }
      if current > target { return None, path, done; }
      var found := FindPath(registry, current, target);
      if found.None? { return None, path, done; }
      path := found.value;
      var steps := found.value;
      var committed := ApplyPath(change, steps, registry, target, healthy, fault);
      done := committed;
      if committed < |steps| { return None, path, done; }
      assert path[..done] == path;
      DataIsChangedAlongPath(change, old(contents), path);
      r := Some(Report(current, target, seq(|steps|, i requires 0 <= i < |steps| => steps[i].id)));
    }
  }
}
