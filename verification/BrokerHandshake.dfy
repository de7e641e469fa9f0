/**
 * The revision handshake between Admin (admin-web/src/services/certificate-service.js,
 * `syncBroker` and `applyBrokerChanges`) and the broker supervisor
 * (scripts/broker-entrypoint.sh). The two processes share files and nothing else, so every file
 * operation is one step and the steps interleave freely. A third process, the host command that
 * renews the server certificate, submits revisions of its own.
 */
module BrokerHandshake {
  import opened Outcomes

  type Acl = string
  /** Random UUIDs never repeat; a counter hands them out. */
  type Revision = nat

  /** What Admin does next; its operations are queued, so at most one is under way. */
  datatype Admin =
    | Idle
    | WriteAcl(acl: Acl, policy: string, defer: bool)
    | WritePolicy(policy: string, defer: bool)
    | WritePending
    | WriteRevision(revision: Revision)
    | RemovePending

  /** Where the supervisor's loop stands; `seen` is its shell variable `revision`. */
  datatype Broker =
    | Down
    | Launching(seen: Revision)   // revision read, mosquitto about to read the ACL
    | Loaded(seen: Revision)      // mosquitto alive after its grace second
    | Running(seen: Revision)     // acknowledged, polling

  datatype State = State(
    admin: Admin, broker: Broker,
    acl: Acl, policy: string, pending: Option<Revision>, revision: Revision, applied: Revision,
    loaded: Acl,     // the ACL mosquitto last read
    next: Revision   // revisions below this one have been handed out
  )

  datatype Step =
    | BeginSync(acl: Acl, policy: string, force: bool, defer: bool)
    | BeginApply
    | AdminWrites
    | AdminCrashes
    | CertificateRenewed
    | SupervisorReads | MosquittoLoads | SupervisorAcknowledges | SupervisorRestarts

  /** `syncBroker` writes only when forced or when the compiled policy differs from the files. */
  predicate Changed(s: State, acl: Acl, policy: string, force: bool) {
    force || acl != s.acl || policy != s.policy
  }

  /** One file operation of the operation under way. */
  function AdminWrite(s: State): State
    requires !s.admin.Idle?
  {
    match s.admin
    case WriteAcl(acl, policy, defer) =>
      s.(acl := acl, admin := WritePolicy(policy, defer))
    case WritePolicy(policy, defer) =>
      if defer then s.(policy := policy, admin := WritePending)
      else s.(policy := policy, admin := WriteRevision(s.next), next := s.next + 1)
    case WritePending =>
      s.(pending := Some(s.next), next := s.next + 1, admin := Idle)
    case WriteRevision(revision) =>
      s.(revision := revision, admin := RemovePending)
    case RemovePending =>
      s.(pending := None, admin := Idle)
  }

  predicate Enabled(s: State, step: Step) {
    match step
    case BeginSync(_, _, _, _) => s.admin.Idle?
    case BeginApply => s.admin.Idle?
    case AdminWrites => !s.admin.Idle?
    case AdminCrashes => true
    case CertificateRenewed => true
    case SupervisorReads => s.broker.Down?
    case MosquittoLoads => s.broker.Launching?
    case SupervisorAcknowledges => s.broker.Loaded?
    case SupervisorRestarts => !s.broker.Down?
  }

  function Apply(s: State, step: Step): State
    requires Enabled(s, step)
  {
    match step
    case BeginSync(acl, policy, force, defer) =>
      if Changed(s, acl, policy, force) then s.(admin := WriteAcl(acl, policy, defer)) else s
    case BeginApply =>
      if s.pending.Some? then s.(admin := WriteRevision(s.pending.value)) else s
    case AdminWrites => AdminWrite(s)
    case AdminCrashes => s.(admin := Idle)
    case CertificateRenewed => s.(revision := s.next, next := s.next + 1)
    case SupervisorReads => s.(broker := Launching(s.revision))
    case MosquittoLoads => s.(broker := Loaded(s.broker.seen), loaded := s.acl)
    case SupervisorAcknowledges => s.(broker := Running(s.broker.seen), applied := s.broker.seen)
    // A new revision, a changed gate, a dead broker or a restarted container: back to the top.
    case SupervisorRestarts => s.(broker := Down)
  }

  /** A broker that has acknowledged `r`, or is about to, enforces the ACL file as it is. */
  predicate Faithful(s: State, r: Revision) {
    && (s.applied == r ==> s.loaded == s.acl)
    && ((s.broker.Loaded? || s.broker.Running?) && s.broker.seen == r ==> s.loaded == s.acl)
  }

  /** The revision the files point to: the pending one, or else the submitted one. */
  function Head(s: State): Revision {
    if s.pending.Some? then s.pending.value else s.revision
  }

  /** The ACL file has changed, but the revision the files point to already stands for an older one. */
  predicate Torn(s: State) {
    !Faithful(s, Head(s))
  }

  /** What Admin promises whenever nothing is pending: the acknowledged policy is the one in force. */
  predicate InForce(s: State) {
    s.admin.Idle? && s.pending.None? && s.applied == s.revision ==> s.loaded == s.acl
  }

  // ----- the invariant

  predicate Bounded(s: State) {
    && s.revision < s.next && s.applied < s.next && (!s.broker.Down? ==> s.broker.seen < s.next)
    && (s.pending.Some? ==> s.pending.value < s.next)
    && (s.admin.WriteRevision? ==> s.admin.revision < s.next)
    && (s.broker.Running? ==> s.applied == s.broker.seen)
  }

  predicate Inv(s: State) {
    && Bounded(s)
    && (s.admin.Idle? ==> !Torn(s))
    && (s.admin.WriteRevision? ==> Faithful(s, s.admin.revision))
    && (s.admin.RemovePending? ==> Faithful(s, s.revision))
  }

  lemma BeginKeepsInv(s: State, step: Step)
    requires Inv(s) && Enabled(s, step) && (step.BeginSync? || step.BeginApply?)
    ensures Inv(Apply(s, step))
  {
  }

  lemma FileWriteKeepsInv(s: State)
    requires Inv(s) && (s.admin.WriteAcl? || s.admin.WritePolicy? || s.admin.WritePending?)
    ensures Inv(AdminWrite(s))
  {
  }

  lemma SubmissionKeepsInv(s: State)
    requires Inv(s) && (s.admin.WriteRevision? || s.admin.RemovePending?)
    ensures Inv(AdminWrite(s))
  {
  }

  lemma CrashKeepsInv(s: State)
    requires Inv(s) && !Torn(s)
    ensures Inv(Apply(s, AdminCrashes))
  {
  }

  lemma RenewalKeepsInv(s: State)
    requires Inv(s)
    ensures Inv(Apply(s, CertificateRenewed))
  {
  }

  lemma SupervisorKeepsInv(s: State, step: Step)
    requires Inv(s) && Enabled(s, step)
    requires step.SupervisorReads? || step.MosquittoLoads? || step.SupervisorAcknowledges? || step.SupervisorRestarts?
    ensures Inv(Apply(s, step))
  {
    match step
    case SupervisorReads =>
    case MosquittoLoads => assert forall r :: Faithful(Apply(s, step), r);
    case SupervisorAcknowledges =>
    case SupervisorRestarts =>
  }

  lemma StepKeepsInv(s: State, step: Step)
    requires Inv(s) && Enabled(s, step)
    requires step.AdminCrashes? ==> !Torn(s)
    ensures Inv(Apply(s, step))
  {
    match step {
      case BeginSync(_, _, _, _) => BeginKeepsInv(s, step);
      case BeginApply => BeginKeepsInv(s, step);
      case AdminWrites =>
        if s.admin.WriteRevision? || s.admin.RemovePending? {
          SubmissionKeepsInv(s);
        } else {
          FileWriteKeepsInv(s);
        }
      case AdminCrashes => CrashKeepsInv(s);
      case CertificateRenewed => RenewalKeepsInv(s);
      case _ => SupervisorKeepsInv(s, step);
    }
  }

  // ----- runs

  /** As `prepareGateway` leaves the files before the broker first starts. */
  ghost predicate Init(s: State) {
    s.admin.Idle? && s.broker.Down? && s.pending.None?
    && s.revision < s.next && s.applied < s.next && s.applied != s.revision
  }

  ghost predicate Run(states: seq<State>, steps: seq<Step>) {
    && |states| == |steps| + 1
    && Init(states[0])
    && forall i | 0 <= i < |steps| ::
         Enabled(states[i], steps[i]) && states[i + 1] == Apply(states[i], steps[i])
  }

  /** No crash of Admin falls into the torn stretch of an operation. */
  ghost predicate CleanCrashes(states: seq<State>, steps: seq<Step>)
    requires |states| == |steps| + 1
  {
    forall i | 0 <= i < |steps| && steps[i].AdminCrashes? :: !Torn(states[i])
  }

  lemma {:induction false} RunKeepsInv(states: seq<State>, steps: seq<Step>, n: nat)
    requires Run(states, steps) && CleanCrashes(states, steps) && n < |states|
    ensures Inv(states[n])
  {
    if n > 0 {
      RunKeepsInv(states, steps, n - 1);
      StepKeepsInv(states[n - 1], steps[n - 1]);
    }
  }

  /**
   * Under every interleaving of staging, immediate synchronisation, apply, certificate renewal and
   * broker restarts: whenever Admin is between operations with nothing pending and the current
   * revision is acknowledged, the broker enforces the ACL file.
   */
  lemma PolicyInForce(states: seq<State>, steps: seq<Step>, n: nat)
    requires Run(states, steps) && CleanCrashes(states, steps) && n < |states|
    ensures InForce(states[n])
  {
    RunKeepsInv(states, steps, n);
  }

  // ----- exactly which crashes are harmless

  /** The steps can be taken one after the other, and no second crash is among them. */
  predicate Possible(s: State, steps: seq<Step>)
    decreases |steps|
  {
    steps == [] || (!steps[0].AdminCrashes? && Enabled(s, steps[0]) && Possible(Apply(s, steps[0]), steps[1..]))
  }

  function After(s: State, steps: seq<Step>): State
    requires Possible(s, steps)
    decreases |steps|
  {
    if steps == [] then s else After(Apply(s, steps[0]), steps[1..])
  }

  lemma {:induction false} ContinuationKeepsInv(s: State, steps: seq<Step>)
    requires Inv(s) && Possible(s, steps)
    ensures Inv(After(s, steps))
    decreases |steps|
  {
    if steps != [] {
      StepKeepsInv(s, steps[0]);
      ContinuationKeepsInv(Apply(s, steps[0]), steps[1..]);
    }
  }

  lemma AfterOne(s: State, step: Step)
    requires Enabled(s, step) && !step.AdminCrashes?
    ensures Possible(s, [step]) && After(s, [step]) == Apply(s, step)
  {
    assert [step][1..] == [];
  }

  lemma AfterMore(s: State, step: Step, steps: seq<Step>)
    requires Enabled(s, step) && !step.AdminCrashes? && Possible(Apply(s, step), steps)
    ensures Possible(s, [step] + steps) && After(s, [step] + steps) == After(Apply(s, step), steps)
  {
    assert ([step] + steps)[1..] == steps;
  }

  /** An acknowledgement and the submission of what is pending expose a torn state, in at most four steps. */
  lemma TornIsExposed(s: State) returns (steps: seq<Step>)
    requires Bounded(s) && s.admin.Idle? && Torn(s)
    ensures |steps| <= 4 && Possible(s, steps) && !InForce(After(s, steps))
  {
    if s.broker.Loaded? && s.applied != Head(s) {
      var acknowledged := Apply(s, SupervisorAcknowledges);
      var rest := TornIsSubmitted(acknowledged);
      AfterMore(s, SupervisorAcknowledges, rest);
      steps := [SupervisorAcknowledges] + rest;
    } else {
      steps := TornIsSubmitted(s);
    }
  }

  lemma TornIsSubmitted(s: State) returns (steps: seq<Step>)
    requires s.admin.Idle? && s.applied == Head(s) && s.loaded != s.acl
    ensures |steps| <= 3 && Possible(s, steps) && !InForce(After(s, steps))
  {
    if s.pending.None? {
      steps := [];
    } else {
      var begun := Apply(s, BeginApply);
      var submitted := Apply(begun, AdminWrites);
      AfterOne(submitted, AdminWrites);
      AfterMore(begun, AdminWrites, [AdminWrites]);
      AfterMore(s, BeginApply, [AdminWrites] + [AdminWrites]);
      steps := [BeginApply] + ([AdminWrites] + [AdminWrites]);
    }
  }

  /**
   * Exactly the crashes that tear an operation break the promise: after any other, it holds in every
   * continuation, and after a torn one there is a continuation without further crashes in which it
   * does not.
   */
  lemma CrashIsHarmlessUnlessTorn(s: State)
    requires Inv(s)
    ensures var crashed := Apply(s, AdminCrashes);
            (forall steps | Possible(crashed, steps) :: InForce(After(crashed, steps))) <==> !Torn(s)
  {
    var crashed := Apply(s, AdminCrashes);
    if Torn(s) {
      var steps := TornIsExposed(crashed);
      assert Possible(crashed, steps);
    } else {
      CrashKeepsInv(s);
      forall steps | Possible(crashed, steps) ensures InForce(After(crashed, steps)) {
        ContinuationKeepsInv(crashed, steps);
      }
    }
  }

  /** A crash between the ACL and the pending file: the old policy stays in force and nothing is pending. */
  lemma TornCrashBreaksThePromise(s: State, acl: Acl, policy: string)
    requires Inv(s) && s.admin.Idle? && s.pending.None? && s.applied == s.revision && acl != s.acl
    ensures var torn := Apply(Apply(Apply(s, BeginSync(acl, policy, false, true)), AdminWrites), AdminCrashes);
            && !InForce(torn)
            // The next unforced synchronisation of the same policy files does not repair it.
            && Apply(torn, BeginSync(acl, torn.policy, false, true)) == torn
  {
  }

  // ----- what a completed operation has achieved

  /**
   * Where a synchronisation stands that began when revisions below `n` had been handed out: what it
   * has written, and what it is still going to write. Idle means that it is over.
   */
  predicate Doing(n: Revision, acl: Acl, policy: string, defer: bool, s: State) {
    match s.admin
    case WriteAcl(a, p, d) => a == acl && p == policy && d == defer && s.next >= n
    case WritePolicy(p, d) => s.acl == acl && p == policy && d == defer && s.next >= n
    case WritePending => s.acl == acl && s.policy == policy && defer && s.next >= n
    case WriteRevision(r) => s.acl == acl && s.policy == policy && !defer && n <= r < s.next
    case RemovePending => s.acl == acl && s.policy == policy && !defer && n <= s.revision < s.next
    case Idle =>
      && s.acl == acl && s.policy == policy
      && if defer then s.pending.Some? && n <= s.pending.value < s.next
         else s.pending.None? && n <= s.revision < s.next
  }

  /** The other processes, and Admin itself going on. */
  predicate GoesOn(step: Step) {
    !step.BeginSync? && !step.BeginApply? && !step.AdminCrashes?
  }

  lemma SyncGoesOn(n: Revision, acl: Acl, policy: string, defer: bool, s: State, step: Step)
    requires Doing(n, acl, policy, defer, s) && Enabled(s, step) && GoesOn(step)
    ensures Doing(n, acl, policy, defer, Apply(s, step))
    ensures defer && !step.CertificateRenewed? ==> Apply(s, step).revision == s.revision
  {
  }

  lemma {:induction false} SyncRuns(n: Revision, acl: Acl, policy: string, defer: bool, s: State, steps: seq<Step>)
    requires Doing(n, acl, policy, defer, s) && Possible(s, steps) && forall step | step in steps :: GoesOn(step)
    ensures Doing(n, acl, policy, defer, After(s, steps))
    ensures defer && CertificateRenewed !in steps ==> After(s, steps).revision == s.revision
    decreases |steps|
  {
    if steps != [] {
      assert forall step | step in steps[1..] :: step in steps;
      SyncGoesOn(n, acl, policy, defer, s, steps[0]);
      SyncRuns(n, acl, policy, defer, Apply(s, steps[0]), steps[1..]);
    }
  }

  /**
   * Whatever the supervisor and the renewal do meanwhile: once a synchronisation that finds a change,
   * or is forced, is over, the files are as given. Staged, it leaves the revision alone and a pending
   * one that nobody has seen; immediate, it has submitted such a revision and leaves nothing pending.
   */
  lemma SyncAchieves(s: State, acl: Acl, policy: string, force: bool, defer: bool, steps: seq<Step>)
    requires s.admin.Idle? && Bounded(s)
    requires force || acl != s.acl || policy != s.policy
    requires Possible(s, [BeginSync(acl, policy, force, defer)] + steps) && forall step | step in steps :: GoesOn(step)
    ensures var end := After(s, [BeginSync(acl, policy, force, defer)] + steps);
            end.admin.Idle? ==>
              && end.acl == acl && end.policy == policy
              && (defer ==>
                    && end.pending.Some? && s.next <= end.pending.value < end.next
                    && (CertificateRenewed !in steps ==> end.revision == s.revision))
              && (!defer ==>
                    end.pending.None? && end.revision != s.revision && end.revision != s.applied
                    && s.next <= end.revision < end.next)
  {
    var begin := BeginSync(acl, policy, force, defer);
    assert ([begin] + steps)[1..] == steps;
    SyncRuns(s.next, acl, policy, defer, Apply(s, begin), steps);
  }

  /** Undisturbed, an immediate synchronisation takes four writes and a staged one three. */
  lemma SyncEnds(s: State, acl: Acl, policy: string, force: bool, defer: bool)
    requires s.admin.Idle? && (force || acl != s.acl || policy != s.policy)
    ensures var begun := Apply(s, BeginSync(acl, policy, force, defer));
            !begun.admin.Idle? && !AdminWrite(begun).admin.Idle? && !AdminWrite(AdminWrite(begun)).admin.Idle?
    ensures var third := AdminWrite(AdminWrite(AdminWrite(Apply(s, BeginSync(acl, policy, force, defer)))));
            if defer then third == s.(acl := acl, policy := policy, pending := Some(s.next), next := s.next + 1)
            else !third.admin.Idle?
                 && AdminWrite(third)
                    == s.(acl := acl, policy := policy, pending := None, revision := s.next, next := s.next + 1)
  {
  }

  /** Without a change, an unforced synchronisation does nothing. */
  lemma SyncIsIdle(s: State, defer: bool)
    requires s.admin.Idle?
    ensures Apply(s, BeginSync(s.acl, s.policy, false, defer)) == s
  {
  }

  /** Applying submits the pending revision itself, and does nothing when there is none. */
  lemma ApplyAchieves(s: State)
    requires s.admin.Idle?
    ensures s.pending.None? ==> Apply(s, BeginApply) == s
    ensures s.pending.Some? ==>
              var begun := Apply(s, BeginApply);
              && !begun.admin.Idle? && !AdminWrite(begun).admin.Idle?
              && AdminWrite(AdminWrite(begun)) == s.(revision := s.pending.value, pending := None)
  {
  }

  /** A renewed certificate asks for a restart under a revision that has never been acknowledged. */
  lemma RenewalIsNew(s: State)
    requires Bounded(s)
    ensures var renewed := Apply(s, CertificateRenewed);
            && renewed.revision != s.revision && renewed.revision != s.applied && Bounded(renewed)
            && renewed == s.(revision := renewed.revision, next := renewed.next)
  {
  }

  /** One pass of the supervisor, from wherever its loop stands. */
  function Pass(s: State): State {
    var down := if s.broker.Down? then s else Apply(s, SupervisorRestarts);
    Apply(Apply(Apply(down, SupervisorReads), MosquittoLoads), SupervisorAcknowledges)
  }

  /** It puts the access list of the files in force, and acknowledges the revision they name. */
  lemma PassCatchesUp(s: State)
    ensures Pass(s) == s.(broker := Running(s.revision), loaded := s.acl, applied := s.revision)
    ensures s.admin.Idle? && s.pending.None? ==> Pass(s).loaded == s.acl && InForce(Pass(s))
  {
  }

  /** An immediate synchronisation and one pass of the supervisor put exactly the given list in force. */
  lemma SyncTakesEffect(s: State, acl: Acl, policy: string, force: bool)
    requires s.admin.Idle? && (force || acl != s.acl || policy != s.policy)
    ensures var begun := Apply(s, BeginSync(acl, policy, force, false));
            var synced := AdminWrite(AdminWrite(AdminWrite(AdminWrite(begun))));
            Pass(synced).loaded == acl && Pass(synced).applied == Pass(synced).revision == s.next
  {
    SyncEnds(s, acl, policy, force, false);
    PassCatchesUp(s.(acl := acl, policy := policy, pending := None, revision := s.next, next := s.next + 1));
  }
}
