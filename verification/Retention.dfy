/** Which recovery points a cleanup may delete (scripts/updater/host.py, `prune_snapshots`). */
module Retention {
  import opened Outcomes
  import opened Installation

  const DEFAULT_RETENTION: nat := 5

  /** An unusable setting falls back to the default. */
  function Keep(setting: Option<int>): (keep: nat)
    ensures 2 <= keep <= 100
    ensures keep != 5 ==> setting == Some(keep)
    ensures setting.Some? && 2 <= setting.value <= 100 ==> keep == setting.value
  {
    match setting
    case Some(n) => if 2 <= n <= 100 then n else DEFAULT_RETENTION
    case None => DEFAULT_RETENTION
  }

  predicate Candidate(history: map<Id, Operation>, id: Id) {
    id in history && history[id].state.Settled()
  }

  ghost predicate NewestFirst(s: seq<Id>, mtime: Id -> nat) {
    forall i, j | 0 <= i < j < |s| :: mtime(s[i]) >= mtime(s[j])
  }

  ghost predicate Distinct(s: seq<Id>) {
    forall i, j | 0 <= i < j < |s| :: s[i] != s[j]
  }

  /** Puts `id` behind everything at least as new. */
  function Place(id: Id, s: seq<Id>, mtime: Id -> nat): (r: seq<Id>)
    ensures |r| == |s| + 1
    ensures forall x :: x in r <==> x in s || x == id
  {
    if s == [] then [id]
    else if mtime(s[0]) >= mtime(id) then [s[0]] + Place(id, s[1..], mtime)
    else [id] + s
  }

  lemma {:induction false} PlaceKeepsOrder(id: Id, s: seq<Id>, mtime: Id -> nat)
    requires NewestFirst(s, mtime) && Distinct(s) && id !in s
    ensures NewestFirst(Place(id, s, mtime), mtime) && Distinct(Place(id, s, mtime))
  {
    if s != [] && mtime(s[0]) >= mtime(id) {
      var rest := Place(id, s[1..], mtime);
      PlaceKeepsOrder(id, s[1..], mtime);
      forall i, j | 0 <= i < j < |rest| + 1
        ensures mtime(([s[0]] + rest)[i]) >= mtime(([s[0]] + rest)[j]) && ([s[0]] + rest)[i] != ([s[0]] + rest)[j]
      {
        if i == 0 {
          assert rest[j - 1] in rest;
          assert rest[j - 1] == id || exists k :: 1 <= k < |s| && s[k] == rest[j - 1];
        } else {
          assert rest[i - 1] != rest[j - 1];
        }
      }
    }
  }

  /** The candidates in order of age: the newest `keep` of them are the ones to retain. */
  method Newest(points: set<Id>, history: map<Id, Operation>, mtime: Id -> nat, keep: nat)
    returns (retained: seq<Id>)
    ensures forall id | id in retained :: id in points && Candidate(history, id)
    ensures Distinct(retained) && |retained| <= keep
    // Either every candidate is retained, or exactly `keep` are, none older than one left out.
    ensures forall id | id in points && Candidate(history, id) && id !in retained ::
              |retained| == keep && forall r | r in retained :: mtime(r) >= mtime(id)
  {
    var sorted: seq<Id> := [];
    var rest := points;
    while rest != {}
      invariant rest <= points
      invariant NewestFirst(sorted, mtime) && Distinct(sorted)
      invariant forall id :: id in sorted <==> id in points - rest && Candidate(history, id)
      decreases |rest|
    {
      var point :| point in rest;
      if Candidate(history, point) {
        PlaceKeepsOrder(point, sorted, mtime);
        sorted := Place(point, sorted, mtime);
      }
      rest := rest - {point};
    }
    retained := sorted[..if keep < |sorted| then keep else |sorted|];
    assert forall id | id in retained :: id in sorted;
    assert forall id | id in sorted && id !in retained :: exists k :: |retained| <= k < |sorted| && sorted[k] == id;
  }
}
