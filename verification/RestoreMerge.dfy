/**
 * What a restoration carries over from the displaced database into the restored one
 * (scripts/updater/host.py, `restore`): audit rows, traffic observations, and the replay counters
 * of credentials that exist on both sides.
 */
module RestoreMerge {
  import opened Outcomes

  datatype AuditRow = AuditRow(at: string, actor: string, action: string, detail: string)
  type AuditTable = map<nat, AuditRow>

  datatype Traffic = Traffic(received: nat, sent: nat, dropped: nat, publicationFailures: nat)
  type TrafficTable = map<int, Traffic>

  // ----- audit rows

  /** SQLite's choice for an absent row id: one more than the largest, 1 in an empty table. */
  predicate IsNextId(rows: AuditTable, id: nat) {
    && id > 0
    && (forall k | k in rows :: k < id)
    && (id == 1 || id - 1 in rows)
  }

  lemma {:induction false} SomeNextId(rows: AuditTable) returns (id: nat)
    ensures IsNextId(rows, id)
  {
    if rows == map[] {
      return 1;
    }
    var k :| k in rows;
    var rest := rows - {k};
    assert forall j | j in rows && j != k :: j in rest;
    var m := SomeNextId(rest);
    id := if k < m then m else k + 1;
  }

  lemma NextIdExists(rows: AuditTable)
    ensures exists id :: IsNextId(rows, id)
  {
    var id := SomeNextId(rows);
  }

  lemma NextIdIsUnique(rows: AuditTable, a: nat, b: nat)
    requires IsNextId(rows, a) && IsNextId(rows, b)
    ensures a == b
  {
  }

  ghost function NextId(rows: AuditTable): (id: nat)
    ensures IsNextId(rows, id)
  {
    NextIdExists(rows);
    var id :| IsNextId(rows, id);
    id
  }

  /** One displaced row: inserted under its id, under a new id, or not at all. */
  ghost function MergeRow(rows: AuditTable, id: nat, row: AuditRow): AuditTable {
    if id !in rows then rows[id := row]
    else if rows[id] != row && row !in rows.Values then rows[NextId(rows) := row]
    else rows
  }

  ghost function MergeAudit(rows: AuditTable, source: seq<(nat, AuditRow)>): AuditTable {
    if source == [] then rows
    else
      var before := MergeAudit(rows, source[..|source| - 1]);
      MergeRow(before, source[|source| - 1].0, source[|source| - 1].1)
  }

  ghost predicate Extends(rows: AuditTable, rows': AuditTable) {
    forall id | id in rows :: id in rows' && rows'[id] == rows[id]
  }

  ghost predicate Absorbed(rows: AuditTable, id: nat, row: AuditRow) {
    id in rows && row in rows.Values
  }

  lemma MergeRowEffect(rows: AuditTable, id: nat, row: AuditRow)
    ensures Extends(rows, MergeRow(rows, id, row))
    ensures Absorbed(MergeRow(rows, id, row), id, row)
    ensures MergeRow(rows, id, row).Values == rows.Values + {row}
    ensures Absorbed(rows, id, row) ==> MergeRow(rows, id, row) == rows
  {
    var rows' := MergeRow(rows, id, row);
    var at := if id !in rows then id else NextId(rows);
    if rows' == rows {
      assert id in rows && NextId(rows) !in rows;
      if rows[id] == row {
        assert row in rows.Values;
      }
    } else {
      assert rows' == rows[at := row] && at !in rows && at in rows' && rows'[at] == row;
      assert row in rows'.Values;
      forall r | r in rows.Values ensures r in rows'.Values {
        var k :| k in rows && rows[k] == r;
        assert rows'[k] == r;
      }
    }
  }

  /** Rows of the snapshot keep their ids, the contents of both sides are kept, and nothing is invented. */
  lemma {:induction false} AuditIsTheUnion(rows: AuditTable, source: seq<(nat, AuditRow)>)
    ensures Extends(rows, MergeAudit(rows, source))
    ensures MergeAudit(rows, source).Values == rows.Values + set s | s in source :: s.1
    ensures forall s | s in source :: Absorbed(MergeAudit(rows, source), s.0, s.1)
  {
    if source != [] {
      var init, last := source[..|source| - 1], source[|source| - 1];
      AuditIsTheUnion(rows, init);
      MergeRowEffect(MergeAudit(rows, init), last.0, last.1);
      assert forall s :: s in source <==> s in init || s == last;
      assert (set s | s in source :: s.1) == (set s | s in init :: s.1) + {last.1};
    }
  }

  lemma {:induction false} AbsorbedChangesNothing(rows: AuditTable, source: seq<(nat, AuditRow)>)
    requires forall s | s in source :: Absorbed(rows, s.0, s.1)
    ensures MergeAudit(rows, source) == rows
  {
    if source != [] {
      var init, last := source[..|source| - 1], source[|source| - 1];
      assert forall s | s in init :: s in source;
      AbsorbedChangesNothing(rows, init);
      MergeRowEffect(rows, last.0, last.1);
    }
  }

  /** A restoration that is taken up again merges the same rows a second time, to no effect. */
  lemma MergingAgainChangesNothing(rows: AuditTable, source: seq<(nat, AuditRow)>)
    ensures MergeAudit(MergeAudit(rows, source), source) == MergeAudit(rows, source)
  {
    AuditIsTheUnion(rows, source);
    AbsorbedChangesNothing(MergeAudit(rows, source), source);
  }

  // ----- traffic rows

  function Max(a: int, b: int): int {
    if a < b then b else a
  }

  function Larger(a: Traffic, b: Traffic): Traffic {
    Traffic(Max(a.received, b.received), Max(a.sent, b.sent), Max(a.dropped, b.dropped),
            Max(a.publicationFailures, b.publicationFailures))
  }

  function MergeTraffic(rows: TrafficTable, source: TrafficTable): TrafficTable {
    map t | t in rows.Keys + source.Keys ::
      if t !in rows then source[t] else if t !in source then rows[t] else Larger(rows[t], source[t])
  }

  lemma TrafficMergesOnce(a: TrafficTable, b: TrafficTable)
    ensures MergeTraffic(MergeTraffic(a, b), b) == MergeTraffic(a, b)
    ensures MergeTraffic(a, b) == MergeTraffic(b, a)
  {
    var ab, ba, abb := MergeTraffic(a, b), MergeTraffic(b, a), MergeTraffic(MergeTraffic(a, b), b);
    assert abb.Keys == ab.Keys && ba.Keys == ab.Keys;
    forall t | t in ab ensures abb[t] == ab[t] && ba[t] == ab[t] {
    }
  }

  predicate IsLarger(m: int, a: int, b: int) {
    m >= a && m >= b && (m == a || m == b)
  }

  /** Every interval of either side is there, each of its counts the larger of the two. */
  lemma TrafficIsTheLarger(a: TrafficTable, b: TrafficTable, t: int)
    ensures t in MergeTraffic(a, b) <==> t in a || t in b
    ensures t in a && t !in b ==> MergeTraffic(a, b)[t] == a[t]
    ensures t in b && t !in a ==> MergeTraffic(a, b)[t] == b[t]
    ensures t in a && t in b ==>
              var m := MergeTraffic(a, b)[t];
              && IsLarger(m.received, a[t].received, b[t].received) && IsLarger(m.sent, a[t].sent, b[t].sent)
              && IsLarger(m.dropped, a[t].dropped, b[t].dropped)
              && IsLarger(m.publicationFailures, a[t].publicationFailures, b[t].publicationFailures)
  {
  }

  lemma Inhabited(s: set<int>)
    ensures s == {} || exists t :: t in s
  {
    if forall t :: t !in s {
      assert s == {};
    }
  }

  /** One row of `source` merged: the row `t` leaves the rows still to come. */
  lemma MergeOneMore(rows: TrafficTable, source: TrafficTable, rest: set<int>, t: int)
    requires t in rest && t in source
    ensures t in MergeTraffic(rows, source - rest) <==> t in rows
    ensures t in rows ==> MergeTraffic(rows, source - rest)[t] == rows[t]
    ensures MergeTraffic(rows, source - (rest - {t}))
         == MergeTraffic(rows, source - rest)[t := if t in rows then Larger(rows[t], source[t]) else source[t]]
  {
    var before, after := source - rest, source - (rest - {t});
    assert t !in before && t in after && after[t] == source[t];
    var was, now := MergeTraffic(rows, before), MergeTraffic(rows, after);
    assert now.Keys == was.Keys + {t};
    forall k | k in now && k != t ensures k in was && now[k] == was[k] {
      assert k in before <==> k in after;
    }
  }

  // ----- the merging transaction

  class Database {
    var audit: AuditTable
    var traffic: Option<TrafficTable>

    constructor (audit: AuditTable, traffic: Option<TrafficTable>)
      ensures this.audit == audit && this.traffic == traffic
    {
      this.audit, this.traffic := audit, traffic;
    }

    method InsertAudit(row: AuditRow)
      modifies `audit
      ensures audit == old(audit)[NextId(old(audit)) := row]
    {
      var id: nat := 1;
      var rest := audit.Keys;
      while rest != {}
        invariant rest <= audit.Keys
        invariant forall k | k in audit && k !in rest :: k < id
        invariant id > 0 && (id == 1 || id - 1 in audit)
        decreases |rest|
      {
        var k :| k in rest;
        if k >= id {
          id := k + 1;
        }
        rest := rest - {k};
      }
      NextIdIsUnique(audit, id, NextId(audit));
      audit := audit[id := row];
    }

    /** Reads the displaced rows in the order of their ids. */
    method CopyAudit(source: seq<(nat, AuditRow)>)
      modifies `audit
      ensures audit == MergeAudit(old(audit), source)
    {
      for i := 0 to |source|
        invariant audit == MergeAudit(old(audit), source[..i])
      {
        var (id, row) := source[i];
        assert source[..i + 1][..i] == source[..i];
        if id !in audit {
          audit := audit[id := row];
        } else if audit[id] != row && row !in audit.Values {
          InsertAudit(row);
        }
      }
      assert source[..|source|] == source;
    }

    method CopyTraffic(source: TrafficTable)
      modifies `traffic
      ensures traffic == Some(MergeTraffic(if old(traffic).Some? then old(traffic).value else map[], source))
    {
      var table: TrafficTable := if traffic.Some? then traffic.value else map[];
      ghost var rows := table;
      var rest: set<int> := source.Keys;
      assert MergeTraffic(rows, source - rest) == rows;
      while rest != {}
        invariant rest <= source.Keys
        invariant table == MergeTraffic(rows, source - rest)
        decreases |rest|
      {
        Inhabited(rest);
        var t :| t in rest;
        MergeOneMore(rows, source, rest, t);
        table := table[t := if t in table then Larger(table[t], source[t]) else source[t]];
        rest := rest - {t};
      }
      assert source - rest == source;
      traffic := Some(table);
    }

    /**
     * Copies the observations of the displaced database inside a savepoint: an unreadable table
     * undoes everything copied, and the verified recovery point stands as it was.
     */
    method Observe(source: seq<(nat, AuditRow)>, readableRows: nat, traffic: Option<TrafficTable>,
                   trafficReadable: bool)
      modifies this
      ensures readableRows < |source| || (traffic.Some? && !trafficReadable) ==>
                audit == old(audit) && this.traffic == old(this.traffic)
      ensures readableRows >= |source| && (traffic.Some? ==> trafficReadable) ==>
                && audit == MergeAudit(old(audit), source)
                && (traffic.None? ==> this.traffic == old(this.traffic))
                && (traffic.Some? ==>
                      var table := if old(this.traffic).Some? then old(this.traffic).value else map[];
                      this.traffic == Some(MergeTraffic(table, traffic.value)))
    {
      var savedAudit, savedTraffic := audit, this.traffic;
      CopyAudit(if readableRows < |source| then source[..readableRows] else source);
      if readableRows < |source| {
        audit, this.traffic := savedAudit, savedTraffic;
        return;
      }
      if traffic.Some? {
        CopyTraffic(traffic.value);
        if !trafficReadable {
          audit, this.traffic := savedAudit, savedTraffic;
        }
      }
    }
  }

  // ----- replay counters

  datatype Credential = Credential(id: string, publicKey: string, counter: Option<nat>)
  datatype Totp = Totp(secret: string, lastStep: Option<int>)
  datatype User = User(id: string, credentials: seq<Credential>, totp: Option<Totp>)

  function OrElse(o: Option<int>, default: int): int {
    if o.Some? then o.value else default
  }

  /** The first item with the same id and key, as `next(...)` finds it. */
  function Matching(c: Credential, others: seq<Credential>): (r: Option<Credential>)
    ensures r.Some? ==> r.value in others && r.value.id == c.id && r.value.publicKey == c.publicKey
    ensures r.None? ==> forall o | o in others :: !(o.id == c.id && o.publicKey == c.publicKey)
  {
    if others == [] then None
    else if others[0].id == c.id && others[0].publicKey == c.publicKey then Some(others[0])
    else Matching(c, others[1..])
  }

  function UserById(id: string, users: seq<User>): (r: Option<User>)
    ensures r.Some? ==> r.value in users && r.value.id == id
    ensures r.None? ==> forall u | u in users :: u.id != id
  {
    if users == [] then None else if users[0].id == id then Some(users[0]) else UserById(id, users[1..])
  }

  predicate Advanced(c: Credential, other: Option<Credential>, merged: Credential) {
    && merged.id == c.id && merged.publicKey == c.publicKey
    && if other.None? then merged == c
       else merged.counter == Some(Max(OrElse(c.counter, 0), OrElse(other.value.counter, 0)))
  }

  predicate TotpAdvanced(t: Option<Totp>, other: Option<Totp>, merged: Option<Totp>) {
    if t.Some? && other.Some? && t.value.secret == other.value.secret then
      merged == Some(Totp(t.value.secret, Some(Max(OrElse(t.value.lastStep, -1), OrElse(other.value.lastStep, -1)))))
    else merged == t
  }

  predicate UserAdvanced(u: User, current: Option<User>, merged: User) {
    if current.None? then merged == u
    else
      && merged.id == u.id && |merged.credentials| == |u.credentials|
      && (forall i | 0 <= i < |u.credentials| ::
            Advanced(u.credentials[i], Matching(u.credentials[i], current.value.credentials), merged.credentials[i]))
      && TotpAdvanced(u.totp, current.value.totp, merged.totp)
  }

  method MergeCredentials(credentials: seq<Credential>, current: seq<Credential>) returns (merged: seq<Credential>)
    ensures |merged| == |credentials|
    ensures forall i | 0 <= i < |credentials| :: Advanced(credentials[i], Matching(credentials[i], current), merged[i])
  {
    merged := credentials;
    for k := 0 to |credentials|
      invariant |merged| == |credentials|
      invariant forall i | 0 <= i < k :: Advanced(credentials[i], Matching(credentials[i], current), merged[i])
      invariant forall i | k <= i < |credentials| :: merged[i] == credentials[i]
    {
      var other := Matching(credentials[k], current);
      if other.Some? {
        var counter := Max(OrElse(credentials[k].counter, 0), OrElse(other.value.counter, 0));
        merged := merged[k := credentials[k].(counter := Some(counter))];
      }
    }
  }

  /** Every counter and step known to both sides becomes the larger of the two. */
  method MergeUsers(restored: seq<User>, displaced: seq<User>) returns (merged: seq<User>)
    ensures |merged| == |restored|
    ensures forall i | 0 <= i < |restored| :: UserAdvanced(restored[i], UserById(restored[i].id, displaced), merged[i])
  {
    merged := restored;
    for k := 0 to |restored|
      invariant |merged| == |restored|
      invariant forall i | 0 <= i < k :: UserAdvanced(restored[i], UserById(restored[i].id, displaced), merged[i])
      invariant forall i | k <= i < |restored| :: merged[i] == restored[i]
    {
      var u := restored[k];
      var current := UserById(u.id, displaced);
      if current.Some? {
        var credentials := MergeCredentials(u.credentials, current.value.credentials);
        var totp := u.totp;
        if totp.Some? && current.value.totp.Some? && totp.value.secret == current.value.totp.value.secret {
          totp := Some(totp.value.(lastStep := Some(Max(OrElse(totp.value.lastStep, -1),
                                                        OrElse(current.value.totp.value.lastStep, -1)))));
        }
        merged := merged[k := User(u.id, credentials, totp)];
      }
    }
  }

  predicate IsAtLeast(merged: Option<int>, before: Option<int>) {
    before.Some? ==> merged.Some? && merged.value >= before.value
  }

  /** No credential that both sides know can be replayed after a restoration. */
  lemma CountersNeverFall(u: User, displaced: seq<User>, merged: User, i: nat)
    requires UserAdvanced(u, UserById(u.id, displaced), merged)
    requires i < |u.credentials| && |merged.credentials| == |u.credentials|
    ensures IsAtLeast(merged.credentials[i].counter, u.credentials[i].counter)
    ensures var current := UserById(u.id, displaced);
            current.Some? && Matching(u.credentials[i], current.value.credentials).Some? ==>
              && merged.credentials[i].counter.Some?
              && IsAtLeast(merged.credentials[i].counter,
                           Matching(u.credentials[i], current.value.credentials).value.counter)
    // Neither can a one-time code of a secret that has not changed.
    ensures u.totp.Some? ==> merged.totp.Some? && IsAtLeast(merged.totp.value.lastStep, u.totp.value.lastStep)
    ensures var current := UserById(u.id, displaced);
            current.Some? && current.value.totp.Some? && u.totp.Some?
            && current.value.totp.value.secret == u.totp.value.secret ==>
              && merged.totp.value.secret == u.totp.value.secret
              && IsAtLeast(merged.totp.value.lastStep, current.value.totp.value.lastStep)
  {
    if UserById(u.id, displaced).Some? {
      assert Advanced(u.credentials[i], Matching(u.credentials[i], UserById(u.id, displaced).value.credentials),
                      merged.credentials[i]);
    }
  }
}
