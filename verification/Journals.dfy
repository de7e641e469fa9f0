/**
 * The operation journal (scripts/updater/journal.py): operation.json always holds the latest
 * record, history/<id>.json some record that operation.json has held for the operation, and the
 * latest one whenever a write has returned.
 */
module Journals {
  import opened Outcomes
  import opened Installation

  /** What a transition changes besides the state. */
  datatype Fields = NoFields | Commit | Recovery(snapshot: Pointer)

  function Updated(value: Operation, state: State, fields: Fields): Operation {
    match fields
    case NoFields => value.(state := state)
    case Commit => value.(state := state, committed := true)
    case Recovery(snapshot) => value.(state := state, snapshot := Some(snapshot))
  }

  // ----- the sequence of records that operation.json has ever held

  predicate ForwardState(s: State) {
    s.Committing? || s.Completed? || s.RecoveryRequired?
  }

  /** `b` may follow `a` as a record of the same operation. */
  predicate Follows(a: Operation, b: Operation) {
    && b.id == a.id && b.previous == a.previous && b.kind == a.kind && b.version == a.version
    && !a.state.Settled()
    && (a.committed ==> b.committed)
    && (b.committed ==> ForwardState(b.state))
    && (b.state.Completed? ==> b.committed)
    && (a.state.RecoveryRequired? ==> b.state.Committing? || b.state.RollingBack?)
    && (a.snapshot.Some? ==> b.snapshot == a.snapshot)
  }

  ghost predicate StepOk(log: seq<Operation>, i: nat)
    requires 0 < i < |log|
  {
    || Follows(log[i - 1], log[i])
    || (log[i - 1].state.Settled() && !log[i].committed && forall k | 0 <= k < i :: log[k].id != log[i].id)
  }

  ghost predicate LogOk(log: seq<Operation>) {
    && (log != [] ==> !log[0].committed)
    && forall i | 0 < i < |log| :: StepOk(log, i)
  }

  lemma LogExtends(log: seq<Operation>, op: Operation)
    requires LogOk(log)
    requires log == [] ==> !op.committed
    requires log != [] ==> StepOk(log + [op], |log|)
    ensures LogOk(log + [op])
  {
    var log' := log + [op];
    forall i | 0 < i < |log'| ensures StepOk(log', i) {
      if i < |log| {
        assert StepOk(log, i);
      }
    }
  }

  /**
   * The point of no return: once a record of an operation is committed, every later record of it
   * is committed too and only ever COMMITTING, COMPLETED or RECOVERY_REQUIRED.
   */
  lemma {:induction false} PointOfNoReturn(log: seq<Operation>, i: nat, j: nat)
    requires LogOk(log) && i < j < |log|
    requires log[i].id == log[j].id && log[i].committed
    ensures log[j].committed && ForwardState(log[j].state)
  {
    assert StepOk(log, j);
    if i < j - 1 {
      PointOfNoReturn(log, i, j - 1);
    }
  }

  /** A COMPLETED, ROLLED_BACK or FAILED operation is never heard of again. */
  lemma {:induction false} FinishedForGood(log: seq<Operation>, i: nat, j: nat)
    requires LogOk(log) && i < j < |log|
    requires log[i].state.Settled()
    ensures log[j].id != log[i].id
  {
    if log[j].id == log[i].id {
      assert StepOk(log, j);
      if i < j - 1 {
        FinishedForGood(log, i, j - 1);
      }
    }
  }

  /** The recovery point an operation names, once durable, is never replaced by another. */
  lemma {:induction false} RecoveryPointIsFixed(log: seq<Operation>, i: nat, j: nat)
    requires LogOk(log) && i < j < |log|
    requires log[i].id == log[j].id && log[i].snapshot.Some?
    ensures log[j].snapshot == log[i].snapshot && log[j].previous == log[i].previous
  {
    assert StepOk(log, j);
    if i < j - 1 {
      RecoveryPointIsFixed(log, i, j - 1);
    }
  }

  class Journal {
    var current: Option<Operation>
    var history: map<Id, Operation>
    /** Every record operation.json has held, oldest first. */
    ghost var log: seq<Operation>

    constructor ()
      ensures current.None? && history == map[] && log == []
    {
      current, history, log := None, map[], [];
    }

    ghost predicate Valid()
      reads this
    {
      && (current.None? <==> log == [])
      && (current.Some? ==> current.value == log[|log| - 1])
      && forall id | id in history :: history[id].id == id && history[id] in log
    }

    /** Two atomic replacements; the process may die before, between or after them. */
    method Write(value: Operation, faulty: bool) returns (o: Outcome)
      requires Valid()
      modifies this
      ensures Valid() && !o.Raised?
      ensures !faulty ==> o.Ok?
      ensures o.Ok? ==>
                current == Some(value) && log == old(log) + [value] && history == old(history)[value.id := value]
      ensures o.Crashed? ==>
                || (current == old(current) && log == old(log) && history == old(history))
                || (current == Some(value) && log == old(log) + [value]
                    && (history == old(history) || history == old(history)[value.id := value]))
    {
      o := Fate(faulty);
      if !o.Ok? { return Crashed; }
      current := Some(value);
      log := log + [value];
      o := Fate(faulty);
      if !o.Ok? { return Crashed; }
      history := history[value.id := value];
      o := Fate(faulty);
      if !o.Ok? { return Crashed; }
    }

    /** Starts an operation under a fresh id, unless the last one still needs attention. */
    method Begin(id: Id, version: Version, previous: Record, kind: Kind, faulty: bool)
      returns (o: Outcome, value: Operation)
      requires Valid()
      modifies this
      ensures Valid()
      ensures value == Operation(id, Checking, version, previous, kind, false, None, None)
      ensures o.Raised? <==> old(current).Some? && !old(current).value.state.Settled()
      ensures o.Raised? ==> current == old(current) && log == old(log) && history == old(history)
      ensures !faulty ==> !o.Crashed?
      ensures o.Ok? ==> current == Some(value) && log == old(log) + [value] && history == old(history)[id := value]
      ensures o.Crashed? ==>
                || (current == old(current) && log == old(log) && history == old(history))
                || (current == Some(value) && log == old(log) + [value]
                    && (history == old(history) || history == old(history)[id := value]))
    {
      value := Operation(id, Checking, version, previous, kind, false, None, None);
      if current.Some? && !current.value.state.Terminal() {
        return Raised, value;
      }
      if current.Some? && current.value.state.RecoveryRequired? {
        return Raised, value;
      }
      o := Write(value, faulty);
    }

    /** Records the next state of `value`, the caller's copy; refuses to resume or to undo. */
    method Transition(value: Operation, state: State, fields: Fields, faulty: bool)
      returns (o: Outcome, value': Operation)
      requires Valid()
      modifies this
      ensures Valid()
      ensures o.Raised? <==> value.state.Terminal() || (value.committed && state.RollingBack?)
      ensures o.Raised? ==> value' == value && current == old(current) && log == old(log) && history == old(history)
      ensures !o.Raised? ==> value' == Updated(value, state, fields)
      ensures !faulty ==> !o.Crashed?
      ensures o.Ok? ==>
                current == Some(value') && log == old(log) + [value'] && history == old(history)[value'.id := value']
      ensures o.Crashed? ==>
                || (current == old(current) && log == old(log) && history == old(history))
                || (current == Some(value') && log == old(log) + [value']
                    && (history == old(history) || history == old(history)[value'.id := value']))
    {
      if value.state.Terminal() {
        return Raised, value;
      }
      if value.committed && state.RollingBack? {
        return Raised, value;
      }
      value' := Updated(value, state, fields);
      o := Write(value', faulty);
    }
  }
}
