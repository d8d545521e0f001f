/** What the entries of an acknowledgement's history were asked with, and that an approval can be used. */
module AckExecution {
  import opened Text
  import opened Acknowledgement

  // ----- entries come from calls

  /** A Decide was called with this candidate and these answers, at a clock that truncates to this time. */
  ghost predicate DecideCalled(actions: seq<Action>, c: Candidate, now: int, answers: Answers) {
    exists a :: a in actions && a.Decide? && a.c == c && a.answers == answers && a.clock - a.clock % SECOND == now
  }

  ghost predicate VerifyCalled(actions: seq<Action>, check: Check) {
    exists a :: && a in actions && a.Verify? && a.claim == check.claim && a.answers == check.answers
                && a.clock - a.clock % SECOND == check.now
  }

  ghost predicate CallFrom(actions: seq<Action>, call: Call) {
    match call
    case Deciding(c, _, now, answers) => DecideCalled(actions, c, now, answers)
    case Consuming(check, _) => VerifyCalled(actions, check)
    case ConsumeWriting(check, _) => VerifyCalled(actions, check)
    case ConsumeReading(check, _) => VerifyCalled(actions, check)
    case _ => true
  }

  ghost predicate EntryFrom(actions: seq<Action>, e: Entry) {
    match e
    case WroteDecision(c, now, answers) => DecideCalled(actions, c, now, answers)
    case WroteConsumption(check) => VerifyCalled(actions, check)
    case VerifyReturned(check, _, _) => VerifyCalled(actions, check)
    case _ => true
  }

  ghost predicate AllFrom(actions: seq<Action>, s: State) {
    && (forall call :: call in s.calls ==> CallFrom(actions, s.calls[call]))
    && (forall i :: 0 <= i < |s.log| ==> EntryFrom(actions, s.log[i]))
  }

  lemma MoreCalls(before: seq<Action>, actions: seq<Action>, s: State)
    requires before <= actions && AllFrom(before, s)
    ensures AllFrom(actions, s)
  {
    assert forall a :: a in before ==> a in actions;
    forall call | call in s.calls ensures CallFrom(actions, s.calls[call]) {
      assert CallFrom(before, s.calls[call]);
    }
    forall i | 0 <= i < |s.log| ensures EntryFrom(actions, s.log[i]) {
      assert EntryFrom(before, s.log[i]);
    }
  }

  /** One call changes and at most one entry is added. */
  lemma OneMore(actions: seq<Action>, s: State, s': State)
    requires AllFrom(actions, s)
    requires forall call :: call in s'.calls ==>
      (call in s.calls && s'.calls[call] == s.calls[call]) || CallFrom(actions, s'.calls[call])
    requires s.log <= s'.log && |s'.log| <= |s.log| + 1
    requires |s'.log| == |s.log| + 1 ==> EntryFrom(actions, s'.log[|s.log|])
    ensures AllFrom(actions, s')
  {
    forall call | call in s'.calls ensures CallFrom(actions, s'.calls[call]) {
      assert call in s.calls && s'.calls[call] == s.calls[call] ==> CallFrom(actions, s.calls[call]);
    }
    forall i | 0 <= i < |s'.log| ensures EntryFrom(actions, s'.log[i]) {
      if i < |s.log| {
        assert s'.log[i] == s.log[i] && EntryFrom(actions, s.log[i]);
      }
    }
  }

  lemma WriteFrom(actions: seq<Action>, s: State, call: nat)
    requires AllFrom(actions, s) && call in s.calls
    ensures AllFrom(actions, Written(s, call))
  {
    assert CallFrom(actions, s.calls[call]);
    OneMore(actions, s, Written(s, call));
  }

  lemma ReadBackFrom(actions: seq<Action>, s: State, call: nat)
    requires AllFrom(actions, s) && call in s.calls
    ensures AllFrom(actions, ReadingBack(s, call))
  {
    assert CallFrom(actions, s.calls[call]);
    OneMore(actions, s, ReadingBack(s, call));
  }

  lemma StepFrom(actions: seq<Action>, s: State, a: Action)
    requires AllFrom(actions, s) && a in actions
    ensures AllFrom(actions, Step(s, a))
  {
    match a
    case Write(call) => if call in s.calls { WriteFrom(actions, s, call); }
    case ReadBack(call) => if call in s.calls { ReadBackFrom(actions, s, call); }
    case _ => OneMore(actions, s, Step(s, a));
  }

  /** Every decision, consumption and success in the history is of a call that was made with exactly the recorded
      candidate or claim, clock and answers. */
  lemma {:induction false} EntriesComeFromCalls(state: int, epoch: int, actions: seq<Action>)
    ensures AllFrom(actions, Exec(Start(state, epoch), actions))
  {
    if actions != [] {
      var before, a := actions[..|actions| - 1], actions[|actions| - 1];
      EntriesComeFromCalls(state, epoch, before);
      MoreCalls(before, actions, Exec(Start(state, epoch), before));
      StepFrom(actions, Exec(Start(state, epoch), before), a);
    }
  }

  // ----- an approval can be used

  /** The candidate names the request in every field. */
  predicate Names(c: Candidate, q: Request) {
    c.(human := Principal(q.humanID, Human), decidedAt := 0, expiresAt := 0, action := Approved) ==
    Candidate(Principal(q.humanID, Human), q.authorityID, Approved, q.planID, q.planDigest, q.targetDigest,
              q.reasonDigest, q.nonce, q.stateRevision, q.recoveryEpoch, 0, 0)
  }

  /** The plan as requested, current, and its human allowed on all of at least one target. */
  predicate Good(a: Answers, q: Request) {
    && a.plan == Plan(q.planID, q.planDigest, q.targetDigest, q.reasonDigest, q.stateRevision, q.recoveryEpoch, true,
                      a.plan.baseline, a.plan.auxiliary, a.plan.resources)
    && a.current && AllowedOnAll(q.humanID, a)
  }

  function Decided(s: State, call: nat, c: Candidate, clock: int, answers: Answers): State {
    Step(Step(Step(s, Decide(call, c, clock, answers)), Write(call)), ReadBack(call))
  }

  function Executed(s: State, call: nat, claim: Option<Claim>, clock: int, answers: Answers): State {
    Step(Step(Step(Step(s, Verify(call, claim, clock, answers)), Write(call)), Write(call)), ReadBack(call))
  }

  /** A candidate of the request's human that names it, at a time in which it can be decided. */
  predicate CanDecide(s: State, c: Candidate, clock: int, answers: Answers) {
    && s.repo.row.Some?
    && var q := s.repo.row.value.request;
    && q.stateRevision == s.repo.stateRevision && q.recoveryEpoch == s.repo.recoveryEpoch
    && c.human == Principal(q.humanID, Human) && PathToken(q.humanID) && c.action == Approved && Names(c, q)
    && c.expiresAt - c.expiresAt % SECOND == q.expiresAt && Truncated(clock) < q.expiresAt
    && Truncated(clock) - 5 * SECOND <= c.decidedAt <= Truncated(clock) + 5 * SECOND && Good(answers, q)
  }

  /** A pending request is approved by such a candidate. */
  lemma CandidateApproves(s: State, call: nat, c: Candidate, clock: int, answers: Answers)
    requires RepoInv(s.repo) && call !in s.calls && CanDecide(s, c, clock, answers)
    requires s.repo.row.value.ack.status == Pending
    ensures var s' := Decided(s, call, c, clock, answers);
      && s'.calls == s.calls && s'.repo.row.Some? && s'.repo.row.value.request == s.repo.row.value.request
      && s'.repo.row.value.ack.status == Approved && s'.repo.row.value.consumedAt.None?
      && s'.repo.stateRevision == s.repo.stateRevision && s'.repo.recoveryEpoch == s.repo.recoveryEpoch
      && |s'.log| > |s.log| && s'.log[|s'.log| - 1] == DecideReturned(Approved, s'.repo.row.value.ack)
  {
    TargetsCoverThePlan(s.repo.row.value.request.humanID, answers);
    var q, now := s.repo.row.value.request, Truncated(clock);
    var started := Step(s, Decide(call, c, clock, answers));
    assert started == s.(calls := s.calls[call := Deciding(c, Get(s.repo), now, answers)]);
    var written := Step(started, Write(call));
    var outcome := Outcome(q, s.repo.row.value.ack.id, Approved, now);
    assert written.calls[call] == DecideReading(c, outcome, true) && written.repo.row.value.ack == outcome;
    assert written.calls - {call} == s.calls;
  }

  /** Answers, a clock and a claim, if any, on which the acknowledgement may be used for the first time. */
  predicate CanUse(s: State, claim: Option<Claim>, clock: int, answers: Answers) {
    && s.repo.row.Some?
    && var q := s.repo.row.value.request;
    && q.stateRevision == s.repo.stateRevision && q.recoveryEpoch == s.repo.recoveryEpoch && PathToken(q.humanID)
    && Good(answers, q) && (Truncated(clock) < q.expiresAt || (claim.Some? && claim.value.claimedAt < q.expiresAt))
    && (claim.Some? ==> claim.value.ackID == s.repo.row.value.ack.id && claim.value.verified)
  }

  lemma UseStarts(s: State, call: nat, claim: Option<Claim>, clock: int, answers: Answers)
    requires RepoInv(s.repo) && call !in s.calls && CanUse(s, claim, clock, answers)
    requires s.repo.row.value.ack.status == Approved && s.repo.row.value.consumedAt.None?
    ensures var check := Check(claim, Truncated(clock), answers);
      Step(s, Verify(call, claim, clock, answers)) == s.(calls := s.calls[call := Consuming(check, Get(s.repo))])
  {
    TargetsCoverThePlan(s.repo.row.value.request.humanID, answers);
  }

  lemma UseWrites(s: State, call: nat, check: Check, stored: Stored)
    requires RepoInv(s.repo) && call in s.calls && s.calls[call] == Consuming(check, stored) && s.repo.row.Some?
    requires s.repo.row.value.ack.status == Approved && s.repo.row.value.consumedAt.None?
    requires s.repo.row.value.request.stateRevision == s.repo.stateRevision
    requires s.repo.row.value.request.recoveryEpoch == s.repo.recoveryEpoch
    ensures var s' := Step(Step(s, Write(call)), Write(call));
      && s'.calls == s.calls[call := ConsumeReading(check, true)] && s'.log == s.log + [WroteConsumption(check)]
      && s'.repo.row == Some(s.repo.row.value.(consumedAt := Some(check.now)))
  {
    var read := Step(s, Write(call));
    assert read == s.(calls := s.calls[call := ConsumeWriting(check, Get(s.repo))]);
  }

  /** An approved and unconsumed acknowledgement is consumed by such a check, which succeeds. */
  lemma ApprovedIsUsable(s: State, call: nat, claim: Option<Claim>, clock: int, answers: Answers)
    requires RepoInv(s.repo) && call !in s.calls && CanUse(s, claim, clock, answers)
    requires s.repo.row.value.ack.status == Approved && s.repo.row.value.consumedAt.None?
    ensures var s' := Executed(s, call, claim, clock, answers); var check := Check(claim, Truncated(clock), answers);
      && s'.calls == s.calls && s'.repo.row == Some(s.repo.row.value.(consumedAt := Some(Truncated(clock))))
      && |s'.log| > |s.log| && s'.log[|s'.log| - 1] == VerifyReturned(check, true, s.repo.row.value.ack)
  {
    var check := Check(claim, Truncated(clock), answers);
    UseStarts(s, call, claim, clock, answers);
    var started := Step(s, Verify(call, claim, clock, answers));
    UseWrites(started, call, check, Get(s.repo));
    assert started.calls[call := ConsumeReading(check, true)] - {call} == s.calls;
  }

  /** And once consumed, every check with a verified claim on it and good answers succeeds, without consuming again. */
  lemma ConsumedIsClaimable(s: State, call: nat, claim: Claim, clock: int, answers: Answers)
    requires RepoInv(s.repo) && call !in s.calls && s.repo.row.Some? && s.repo.row.value.consumedAt.Some?
    requires PathToken(s.repo.row.value.request.humanID) && Good(answers, s.repo.row.value.request)
    requires claim.ackID == s.repo.row.value.ack.id && claim.verified
    ensures var check := Check(Some(claim), Truncated(clock), answers);
      Step(s, Verify(call, Some(claim), clock, answers)) ==
      s.(log := s.log + [VerifyReturned(check, false, s.repo.row.value.ack)])
  {
    TargetsCoverThePlan(s.repo.row.value.request.humanID, answers);
  }

  lemma UsableOnceApproved(s: State, decided: State, call: nat, clock: int, answers: Answers)
    requires CanUse(s, None, clock, answers) && RepoInv(decided.repo) && call !in decided.calls
    requires decided.repo.row.Some? && decided.repo.row.value.request == s.repo.row.value.request
    requires decided.repo.row.value.ack.status == Approved && decided.repo.row.value.consumedAt.None?
    requires decided.repo.stateRevision == s.repo.stateRevision && decided.repo.recoveryEpoch == s.repo.recoveryEpoch
    ensures var s' := Executed(decided, call, None, clock, answers);
      s'.log != [] && s'.log[|s'.log| - 1].VerifyReturned? && s'.log[|s'.log| - 1].consumedHere
  {
    assert CanUse(decided, None, clock, answers);
    ApprovedIsUsable(decided, call, None, clock, answers);
  }

  /** From a pending request, a decision and then a check with good answers end in a successful execution check. */
  lemma PendingCanBeExecuted(s: State, call: nat, c: Candidate, clock: int, answers: Answers, later: int,
                             again: Answers)
    requires Inv(s) && call !in s.calls && CanDecide(s, c, clock, answers) && CanUse(s, None, later, again)
    requires s.repo.row.value.ack.status == Pending
    ensures var s' := Executed(Decided(s, call, c, clock, answers), call, None, later, again);
      s'.log != [] && s'.log[|s'.log| - 1].VerifyReturned? && s'.log[|s'.log| - 1].consumedHere
  {
    CandidateApproves(s, call, c, clock, answers);
    DecidedKeeps(s, call, c, clock, answers);
    UsableOnceApproved(s, Decided(s, call, c, clock, answers), call, later, again);
  }

  lemma DecidedKeeps(s: State, call: nat, c: Candidate, clock: int, answers: Answers)
    requires Inv(s)
    ensures RepoInv(Decided(s, call, c, clock, answers).repo)
  {
    StepKeeps(s, Decide(call, c, clock, answers));
    var started := Step(s, Decide(call, c, clock, answers));
    StepKeeps(started, Write(call));
    StepKeeps(Step(started, Write(call)), ReadBack(call));
  }

  // ----- when the row may move

  lemma WrittenAtItsRevision(s: State, call: nat)
    requires RepoInv(s.repo) && call in s.calls && CallInv(s.calls[call], s.repo)
    ensures var r := Written(s, call).repo;
      && r.stateRevision == s.repo.stateRevision && r.recoveryEpoch == s.repo.recoveryEpoch
      && (r.row != s.repo.row ==>
            && s.repo.row.Some? && r.row.Some? && r.row.value.request.stateRevision == s.repo.stateRevision
            && r.row.value.request.recoveryEpoch == s.repo.recoveryEpoch)
  {
    match s.calls[call]
    case Deciding(c, stored, now, answers) => DecideWrites(s.repo, stored.request, stored.ack.id, c.action, now);
    case Expiring(stored, now) => DecideWrites(s.repo, stored.request, stored.ack.id, Expired, now);
    case ConsumeWriting(check, stored) => ConsumeWrites(s.repo, stored, check.now);
    case _ =>
  }

  /** The row moves at the revision and epoch it was requested for, and only by a write once it is there. */
  predicate MovesAtItsRevision(r: Repo, r': Repo, a: Action) {
    r'.row != r.row ==>
      && r'.row.Some? && r'.row.value.request.stateRevision == r.stateRevision
      && r'.row.value.request.recoveryEpoch == r.recoveryEpoch && (r.row.Some? ==> a.Write?)
  }

  /** The row appears exactly when it is requested at the current revision and epoch before it expires. */
  predicate AppearsWhenDue(r: Repo, r': Repo, a: Action) {
    r.row.None? ==>
      if a.Create? && a.request.stateRevision == r.stateRevision && a.request.recoveryEpoch == r.recoveryEpoch
         && a.clock - a.clock % SECOND < a.request.expiresAt
      then
        && r'.row.Some? && r'.row.value.request == a.request && r'.row.value.consumedAt.None?
        && r'.row.value.ack.id == a.id && r'.row.value.ack.status == Pending
      else r'.row.None?
  }

  lemma StepAtItsRevision(s: State, a: Action)
    requires RepoInv(s.repo) && (a.Write? && a.call in s.calls ==> CallInv(s.calls[a.call], s.repo))
    ensures MovesAtItsRevision(s.repo, Step(s, a).repo, a) && AppearsWhenDue(s.repo, Step(s, a).repo, a)
  {
    if a.Write? && a.call in s.calls {
      WrittenAtItsRevision(s, a.call);
    }
  }

  /** Whatever the interleaving, a step that makes, decides, expires or consumes the row finds the repository at the
      very revision and epoch the row was requested for; and the row appears exactly when it is requested at the current
      revision and epoch before it expires, pending, with the id asked for. */
  lemma RowMovesAtItsRevision(state: int, epoch: int, actions: seq<Action>, a: Action)
    ensures var r, r' := Exec(Start(state, epoch), actions).repo, Exec(Start(state, epoch), actions + [a]).repo;
      MovesAtItsRevision(r, r', a) && AppearsWhenDue(r, r', a)
  {
    Invariant(state, epoch, actions);
    var s := Exec(Start(state, epoch), actions);
    assert (actions + [a])[..|actions|] == actions;
    assert a.Write? && a.call in s.calls ==> CallInv(s.calls[a.call], s.repo);
    StepAtItsRevision(s, a);
  }

  // ----- decided and overdue rows

  /** A candidate that names a decided request, whatever its time or answers, is told the decision exactly when it asks
      for it, and nothing else happens. */
  lemma DecidedIsToldAgain(s: State, call: nat, c: Candidate, clock: int, answers: Answers)
    requires call !in s.calls && s.repo.row.Some? && s.repo.row.value.ack.status != Pending
    requires c.action in {Approved, Rejected} && CandidateMatches(c, s.repo.row.value.request)
    ensures var ack := s.repo.row.value.ack;
      Step(s, Decide(call, c, clock, answers)) ==
      if ack.status == c.action then s.(log := s.log + [DecideReturned(c.action, ack)]) else s
  {
  }

  /** Asking for the status starts an expiry exactly when the row is pending and its time has come; written at its
      revision, it expires the row. */
  lemma OverdueExpires(s: State, call: nat, clock: int)
    requires RepoInv(s.repo) && call !in s.calls && s.repo.row.Some?
    requires s.repo.row.value.request.stateRevision == s.repo.stateRevision
    requires s.repo.row.value.request.recoveryEpoch == s.repo.recoveryEpoch
    ensures var s' := Step(Step(s, AskStatus(call, clock)), Write(call));
      var row, now := s.repo.row.value, clock - clock % SECOND;
      if row.ack.status == Pending && row.request.expiresAt <= now
      then s'.repo.row == Some(row.(ack := Outcome(row.request, row.ack.id, Expired, now)))
           && s'.calls == s.calls && s'.log == s.log + [WroteExpiry(now)]
      else s' == s
  {
    var row := s.repo.row.value;
    if row.ack.status == Pending && row.request.expiresAt <= Truncated(clock) {
      assert s.calls[call := Expiring(Get(s.repo), Truncated(clock))] - {call} == s.calls;
    }
  }

  /** So does a candidate that comes too late, instead of deciding. */
  lemma LateCandidateExpires(s: State, call: nat, c: Candidate, clock: int, answers: Answers)
    requires call !in s.calls && s.repo.row.Some? && s.repo.row.value.ack.status == Pending
    requires c.action in {Approved, Rejected} && CandidateMatches(c, s.repo.row.value.request)
    requires s.repo.row.value.request.expiresAt <= clock - clock % SECOND
    ensures Step(s, Decide(call, c, clock, answers)) == Step(s, AskStatus(call, clock)) != s
  {
    assert call in Step(s, AskStatus(call, clock)).calls;
  }
}
