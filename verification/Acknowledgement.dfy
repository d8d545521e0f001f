/** Human acknowledgements of one plan: the service's calls as interleaved steps over the repository, each call keeping
    the row it read while other calls move on. Times are nanoseconds; a digest stands for the value it was computed
    from. */
module Acknowledgement {
  import opened Text

  const SECOND: int := 1_000_000_000
  const SKEW: int := 5 * SECOND

  /** `Truncate(time.Second)`. */
  function Truncated(t: int): int {
    t - t % SECOND
  }

  datatype Status = Pending | Approved | Rejected | Expired

  datatype Kind = Human | Agent | Policy

  datatype Principal = Principal(id: string, kind: Kind)

  datatype Request = Request(
    planID: string, planDigest: string, targetDigest: string, reasonDigest: string,
    humanID: string, authorityID: string, nonce: string,
    stateRevision: int, recoveryEpoch: int, expiresAt: int)

  /** The proof digest, as the fields it is computed from. */
  datatype Proof = Proof(request: Request, status: Status, at: int)

  datatype Ack = Ack(request: Request, id: string, status: Status, receivedAt: int, proof: Proof)

  datatype Stored = Stored(request: Request, ack: Ack, consumed: bool)

  datatype Candidate = Candidate(
    human: Principal, authorityID: string, action: Status,
    planID: string, planDigest: string, targetDigest: string, reasonDigest: string, nonce: string,
    stateRevision: int, recoveryEpoch: int, expiresAt: int, decidedAt: int)

  datatype Plan = Plan(
    planID: string, planDigest: string, targetDigest: string, reasonDigest: string,
    stateRevision: int, recoveryEpoch: int, humanBranch: bool,
    baseline: Option<(string, string)>, auxiliary: seq<string>, resources: seq<seq<string>>)

  /** A run's claim on a proof: the acknowledgement it names, when the run was created, and whether the repository found
      exactly that run, still queued (VerifyRunClaim). */
  datatype Claim = Claim(ackID: string, claimedAt: int, verified: bool)

  // ----- the checks

  function Outcome(request: Request, id: string, status: Status, now: int): Ack {
    Ack(request, id, status, now, Proof(request, status, now))
  }

  predicate CandidateMatches(c: Candidate, r: Request) {
    && c.human.id == r.humanID && c.authorityID == r.authorityID && c.planID == r.planID && c.planDigest == r.planDigest
    && c.targetDigest == r.targetDigest && c.reasonDigest == r.reasonDigest && c.nonce == r.nonce
    && c.stateRevision == r.stateRevision && c.recoveryEpoch == r.recoveryEpoch && Truncated(c.expiresAt) == r.expiresAt
  }

  predicate ProofMatchesPlan(s: Stored, p: Plan) {
    && s.request.planID == p.planID && s.request.planDigest == p.planDigest && s.request.targetDigest == p.targetDigest
    && s.request.reasonDigest == p.reasonDigest && s.request.stateRevision == p.stateRevision
    && s.request.recoveryEpoch == p.recoveryEpoch
    && s.ack.request == s.request && s.ack.proof == Proof(s.request, s.ack.status, s.ack.receivedAt)
  }

  /** The targets a human must be allowed on. */
  function Targets(p: Plan): set<string> {
    (if p.baseline.Some? then {p.baseline.value.0, p.baseline.value.1} else {})
    + (set id | id in p.auxiliary)
    + (set i, j | 0 <= i < |p.resources| && 0 <= j < |p.resources[i]| :: p.resources[i][j])
  }

  /** What the plan reader and the authorizer answered during one check: the plan, whether it is current, and the pairs
      of a human and a target whose decision allowed the acknowledge action of this very plan. */
  datatype Answers = Answers(plan: Plan, current: bool, allowed: set<(string, string)>)

  /** The reader's contract: it returns the plan of the id asked for, or an error. */
  predicate ReadFor(planID: string, a: Answers) {
    a.plan.planID == planID
  }

  predicate HumanMayAcknowledge(human: Principal, a: Answers) {
    && PathToken(human.id) && human.kind == Human && a.plan.humanBranch && a.current
    && Targets(a.plan) != {} && forall target :: target in Targets(a.plan) ==> (human.id, target) in a.allowed
  }

  predicate InSkew(decidedAt: int, now: int) {
    now - SKEW <= decidedAt <= now + SKEW
  }

  // ----- the repository: one row per plan, and the intent keys that make its writes compare-and-set

  datatype Row = Row(request: Request, ack: Ack, consumedAt: Option<int>)

  datatype Repo = Repo(
    row: Option<Row>,
    decisions: map<Proof, Ack>,   // intents of scope "acknowledgement-decision": key, request digest
    consumes: map<Proof, int>,    // intents of scope "acknowledgement-consume": key, request digest
    stateRevision: int, recoveryEpoch: int)

  function Get(r: Repo): Stored
    requires r.row.Some?
  {
    Stored(r.row.value.request, r.row.value.ack, r.row.value.consumedAt.Some?)
  }

  /** The new repository and whether this call created the decision; None when the call fails. */
  function RepoDecide(r: Repo, expected: Request, outcome: Ack): Option<(Repo, bool)> {
    if expected.stateRevision != r.stateRevision || expected.recoveryEpoch != r.recoveryEpoch then None
    else if outcome.proof in r.decisions then
      if r.decisions[outcome.proof] == outcome then Some((r, false)) else None
    else if r.row.None? || r.row.value.ack.id != outcome.id || r.row.value.request != expected
            || r.row.value.ack.status != Pending then None
    else Some((r.(row := Some(r.row.value.(ack := outcome)), decisions := r.decisions[outcome.proof := outcome]), true))
  }

  /** The write of Consume, after its own read of `stored`. */
  function RepoConsume(r: Repo, stored: Stored, at: int): Option<(Repo, bool)> {
    if stored.request.stateRevision != r.stateRevision || stored.request.recoveryEpoch != r.recoveryEpoch then None
    else if stored.ack.proof in r.consumes then
      if r.consumes[stored.ack.proof] == at then Some((r, false)) else None
    else if r.row.None? || r.row.value.ack.status != Approved || r.row.value.consumedAt.Some? then None
    else Some((r.(row := Some(r.row.value.(consumedAt := Some(at))), consumes := r.consumes[stored.ack.proof := at]),
               true))
  }

  // ----- calls in flight

  datatype Call =
    | Deciding(c: Candidate, stored: Stored, now: int, answers: Answers)  // every check passed; about to write
    | Expiring(stored: Stored, now: int)                                  // from Decide or Status
    | DecideReading(c: Candidate, outcome: Ack, created: bool)            // written; the repository reads back
    | Consuming(check: Check, stored: Stored)       // every check passed; about to call Consume
    | ConsumeWriting(check: Check, stored: Stored)  // Consume read an unconsumed row
    | ConsumeReading(check: Check, created: bool)

  /** One call of verifyExecution: its claim, its clock and what it was answered. */
  datatype Check = Check(claim: Option<Claim>, now: int, answers: Answers)

  /** What happened, in order. */
  datatype Entry =
    | WroteDecision(c: Candidate, now: int, answers: Answers)
    | WroteExpiry(now: int)
    | WroteConsumption(check: Check)
    | DecideReturned(action: Status, ack: Ack)
    | VerifyReturned(check: Check, consumedHere: bool, ack: Ack)

  datatype State = State(repo: Repo, calls: map<nat, Call>, log: seq<Entry>)

  datatype Action =
    | Create(request: Request, id: string, clock: int)
    | Decide(call: nat, c: Candidate, clock: int, answers: Answers)
    | AskStatus(call: nat, clock: int)
    | Verify(call: nat, claim: Option<Claim>, clock: int, answers: Answers)
    | Write(call: nat)
    | ReadBack(call: nat)
    | Abandon(call: nat)
    | Advance(stateRevision: int, recoveryEpoch: int)

  function Start(stateRevision: int, recoveryEpoch: int): State {
    State(Repo(None, map[], map[], stateRevision, recoveryEpoch), map[], [])
  }

  /** Request: the first request for the plan inserts a pending row, later ones find it. */
  function Created(s: State, request: Request, id: string, now: int): State {
    if s.repo.row.Some? || now >= request.expiresAt
       || request.stateRevision != s.repo.stateRevision || request.recoveryEpoch != s.repo.recoveryEpoch then s
    else s.(repo := s.repo.(row := Some(Row(request, Outcome(request, id, Pending, now), None))))
  }

  /** Decide up to the point where it writes: read the row, then check. */
  function DecideStarted(s: State, call: nat, c: Candidate, now: int, answers: Answers): State {
    if s.repo.row.None? then s
    else
      var stored := Get(s.repo);
      if !CandidateMatches(c, stored.request) then s
      else if stored.ack.status != Pending then
        if stored.ack.status == c.action then s.(log := s.log + [DecideReturned(c.action, stored.ack)]) else s
      else if now >= stored.request.expiresAt then s.(calls := s.calls[call := Expiring(stored, now)])
      else if !InSkew(c.decidedAt, now) || !ReadFor(c.planID, answers) || !HumanMayAcknowledge(c.human, answers) then s
      else s.(calls := s.calls[call := Deciding(c, stored, now, answers)])
  }

  /** Status up to the point where it expires a pending row. */
  function StatusStarted(s: State, call: nat, now: int): State {
    if s.repo.row.None? then s
    else
      var stored := Get(s.repo);
      if stored.ack.status == Pending && now >= stored.request.expiresAt
      then s.(calls := s.calls[call := Expiring(stored, now)])
      else s
  }

  /** The checks of verifyExecution on what it read. */
  predicate MayExecute(stored: Stored, claim: Option<Claim>, now: int, answers: Answers) {
    && stored.ack.status == Approved
    && (stored.consumed ==> claim.Some?)
    && (claim.Some? ==> stored.ack.id == claim.value.ackID && claim.value.verified)
    && ProofMatchesPlan(stored, answers.plan)
    && HumanMayAcknowledge(Principal(stored.request.humanID, Human), answers)
    && (stored.consumed || now < stored.ack.request.expiresAt ||
        (claim.Some? && claim.value.claimedAt < stored.ack.request.expiresAt))
  }

  function VerifyStarted(s: State, call: nat, claim: Option<Claim>, now: int, answers: Answers): State {
    if s.repo.row.None? then s
    else
      var stored := Get(s.repo);
      if !MayExecute(stored, claim, now, answers) then s
      else if stored.consumed then s.(log := s.log + [VerifyReturned(Check(claim, now, answers), false, stored.ack)])
      else s.(calls := s.calls[call := Consuming(Check(claim, now, answers), stored)])
  }

  function Without(s: State, call: nat): State {
    s.(calls := s.calls - {call})
  }

  /** The write of a call, as one transaction. */
  function Written(s: State, call: nat): State
    requires call in s.calls
  {
    match s.calls[call]
    case Deciding(c, stored, now, answers) =>
      var outcome := Outcome(stored.request, stored.ack.id, c.action, now);
      var done := RepoDecide(s.repo, stored.request, outcome);
      if done.None? then Without(s, call)
      else State(done.value.0, s.calls[call := DecideReading(c, outcome, done.value.1)],
                 if done.value.1 then s.log + [WroteDecision(c, now, answers)] else s.log)
    case Expiring(stored, now) =>
      var outcome := Outcome(stored.request, stored.ack.id, Expired, now);
      var done := RepoDecide(s.repo, stored.request, outcome);
      if done.None? then Without(s, call)
      else State(done.value.0, s.calls - {call}, if done.value.1 then s.log + [WroteExpiry(now)] else s.log)
    case Consuming(check, stored) =>
      if s.repo.row.None? || Get(s.repo).consumed then Without(s, call)
      else s.(calls := s.calls[call := ConsumeWriting(check, Get(s.repo))])
    case ConsumeWriting(check, stored) =>
      var done := RepoConsume(s.repo, stored, check.now);
      if done.None? then Without(s, call)
      else State(done.value.0, s.calls[call := ConsumeReading(check, done.value.1)],
                 if done.value.1 then s.log + [WroteConsumption(check)] else s.log)
    case _ => s
  }

  /** The repository's read after its write, and the service's last check. */
  function ReadingBack(s: State, call: nat): State
    requires call in s.calls
  {
    match s.calls[call]
    case DecideReading(c, outcome, created) =>
      if s.repo.row.None? || (!created && s.repo.row.value.ack.proof != outcome.proof) then Without(s, call)
      else State(s.repo, s.calls - {call}, s.log + [DecideReturned(c.action, s.repo.row.value.ack)])
    case ConsumeReading(check, created) =>
      if s.repo.row.None? || !created || s.repo.row.value.consumedAt.None? then Without(s, call)
      else State(s.repo, s.calls - {call}, s.log + [VerifyReturned(check, true, s.repo.row.value.ack)])
    case _ => s
  }

  function Step(s: State, a: Action): State {
    match a
    case Create(request, id, clock) => Created(s, request, id, Truncated(clock))
    case Decide(call, c, clock, answers) =>
      if call in s.calls || (c.action != Approved && c.action != Rejected) then s
      else DecideStarted(s, call, c, Truncated(clock), answers)
    case AskStatus(call, clock) => if call in s.calls then s else StatusStarted(s, call, Truncated(clock))
    case Verify(call, claim, clock, answers) =>
      if call in s.calls then s else VerifyStarted(s, call, claim, Truncated(clock), answers)
    case Write(call) => if call in s.calls then Written(s, call) else s
    case ReadBack(call) => if call in s.calls then ReadingBack(s, call) else s
    case Abandon(call) => Without(s, call)
    case Advance(state, epoch) => s.(repo := s.repo.(stateRevision := state, recoveryEpoch := epoch))
  }

  /** The state after any finite interleaving. */
  function Exec(s: State, actions: seq<Action>): State {
    if actions == [] then s else Step(Exec(s, actions[..|actions| - 1]), actions[|actions| - 1])
  }

  // ----- what every interleaving keeps

  ghost predicate RepoInv(r: Repo) {
    if r.row.None? then r.decisions == map[] && r.consumes == map[]
    else
      var row := r.row.value;
      && row.ack.request == row.request && row.ack.proof == Proof(row.request, row.ack.status, row.ack.receivedAt)
      && r.decisions == (if row.ack.status == Pending then map[] else map[row.ack.proof := row.ack])
      && r.consumes == (if row.consumedAt.None? then map[] else map[row.ack.proof := row.consumedAt.value])
      && (row.consumedAt.Some? ==> row.ack.status == Approved)
  }

  /** What a call read is what the row was then: the request and id never change, a decided row never changes. */
  ghost predicate ReadFrom(stored: Stored, r: Repo) {
    && r.row.Some? && stored.request == r.row.value.request && stored.ack.id == r.row.value.ack.id
    && (stored.ack.status != Pending ==> stored.ack == r.row.value.ack)
    && (stored.consumed ==> r.row.value.consumedAt.Some?)
  }

  /** The decision rests on a matching candidate, in time, of a human allowed on every target of the requested plan. */
  predicate Justified(c: Candidate, now: int, answers: Answers, request: Request) {
    && CandidateMatches(c, request) && now < request.expiresAt && InSkew(c.decidedAt, now)
    && ReadFor(request.planID, answers) && HumanMayAcknowledge(c.human, answers)
  }

  predicate ClaimOn(claim: Option<Claim>, ack: Ack) {
    claim.Some? ==> claim.value.ackID == ack.id && claim.value.verified
  }

  predicate InTime(claim: Option<Claim>, now: int, request: Request) {
    now < request.expiresAt || (claim.Some? && claim.value.claimedAt < request.expiresAt)
  }

  /** The check read the very plan the request was made for, current and for humans, and found the human of the request
      allowed on every one of its targets. */
  predicate Rechecked(a: Answers, r: Request) {
    && a.plan.planID == r.planID && a.plan.planDigest == r.planDigest && a.plan.targetDigest == r.targetDigest
    && a.plan.reasonDigest == r.reasonDigest && a.plan.stateRevision == r.stateRevision
    && a.plan.recoveryEpoch == r.recoveryEpoch && a.plan.humanBranch && a.current && PathToken(r.humanID)
    && Targets(a.plan) != {} && forall target :: target in Targets(a.plan) ==> (r.humanID, target) in a.allowed
  }

  /** The plan names some target, and the human is allowed on both hosts of its baseline, on every auxiliary host and on
      every resource of every operation. */
  predicate AllowedOnAll(humanID: string, a: Answers) {
    && (|| a.plan.baseline.Some? || a.plan.auxiliary != []
        || exists i :: 0 <= i < |a.plan.resources| && a.plan.resources[i] != [])
    && (a.plan.baseline.Some? ==>
          (humanID, a.plan.baseline.value.0) in a.allowed && (humanID, a.plan.baseline.value.1) in a.allowed)
    && (forall i :: 0 <= i < |a.plan.auxiliary| ==> (humanID, a.plan.auxiliary[i]) in a.allowed)
    && (forall i, j :: 0 <= i < |a.plan.resources| && 0 <= j < |a.plan.resources[i]| ==>
          (humanID, a.plan.resources[i][j]) in a.allowed)
  }

  lemma TargetsCoverThePlan(humanID: string, a: Answers)
    ensures AllowedOnAll(humanID, a) <==>
      Targets(a.plan) != {} && forall target :: target in Targets(a.plan) ==> (humanID, target) in a.allowed
  {
    var p := a.plan;
    assert p.baseline.Some? ==> p.baseline.value.0 in Targets(p) && p.baseline.value.1 in Targets(p);
    assert forall i :: 0 <= i < |p.auxiliary| ==> p.auxiliary[i] in Targets(p);
    assert forall i, j :: 0 <= i < |p.resources| && 0 <= j < |p.resources[i]| ==> p.resources[i][j] in Targets(p);
    assert forall i :: 0 <= i < |p.resources| && p.resources[i] != [] ==> p.resources[i][0] in Targets(p);
    assert p.auxiliary != [] ==> p.auxiliary[0] in Targets(p);
    if Targets(p) != {} {
      var target :| target in Targets(p);
    }
  }

  /** What a check has established of the row. */
  predicate Established(check: Check, request: Request, ack: Ack) {
    Rechecked(check.answers, request) && ClaimOn(check.claim, ack)
  }

  ghost predicate CallInv(call: Call, r: Repo) {
    match call
    case Deciding(c, stored, now, answers) =>
      && ReadFrom(stored, r) && Justified(c, now, answers, stored.request)
      && (c.action == Approved || c.action == Rejected)
    case Expiring(stored, now) => ReadFrom(stored, r) && now >= stored.request.expiresAt
    case DecideReading(c, outcome, created) =>
      && outcome.status == c.action && outcome.proof.status == c.action && c.action != Pending
      && (created ==> r.row.Some? && r.row.value.ack == outcome)
    case Consuming(check, stored) =>
      && ReadFrom(stored, r) && stored.ack.status == Approved && InTime(check.claim, check.now, stored.request)
      && Established(check, stored.request, stored.ack)
    case ConsumeWriting(check, stored) =>
      && ReadFrom(stored, r) && stored.ack.status == Approved && InTime(check.claim, check.now, stored.request)
      && Established(check, stored.request, stored.ack)
    case ConsumeReading(check, created) =>
      created ==>
        && r.row.Some? && r.row.value.consumedAt.Some? && r.row.value.ack.status == Approved
        && Established(check, r.row.value.request, r.row.value.ack)
  }

  /** The entry is true of the row. */
  ghost predicate EntryInv(e: Entry, r: Repo) {
    && r.row.Some?
    && match e
       case WroteDecision(c, now, answers) =>
         && Justified(c, now, answers, r.row.value.request) && (c.action == Approved || c.action == Rejected)
         && r.row.value.ack == Outcome(r.row.value.request, r.row.value.ack.id, c.action, now)
       case WroteExpiry(now) =>
         && now >= r.row.value.request.expiresAt
         && r.row.value.ack == Outcome(r.row.value.request, r.row.value.ack.id, Expired, now)
       case WroteConsumption(check) =>
         && r.row.value.consumedAt == Some(check.now) && InTime(check.claim, check.now, r.row.value.request)
         && Established(check, r.row.value.request, r.row.value.ack)
       case DecideReturned(action, ack) => ack == r.row.value.ack && ack.status == action && action != Pending
       case VerifyReturned(check, consumedHere, ack) =>
         && ack == r.row.value.ack && ack.status == Approved && r.row.value.consumedAt.Some?
         && (!consumedHere ==> check.claim.Some?) && Established(check, r.row.value.request, ack)
  }

  predicate ClaimsConsumption(call: Call) {
    call.ConsumeReading? && call.created
  }

  predicate LeavesPending(e: Entry) {
    e.WroteDecision? || e.WroteExpiry?
  }

  predicate SaysConsumed(e: Entry) {
    e.VerifyReturned? && e.consumedHere
  }

  /** The same kind of one-time entry. */
  predicate Rival(e: Entry, f: Entry) {
    || (LeavesPending(e) && LeavesPending(f))
    || (e.WroteConsumption? && f.WroteConsumption?)
    || (SaysConsumed(e) && SaysConsumed(f))
  }

  ghost predicate NoRivals(log: seq<Entry>) {
    forall i, j :: 0 <= i < j < |log| ==> !Rival(log[i], log[j])
  }

  /** A decided row was decided by an entry, a consumed row consumed by one. */
  ghost predicate Accounted(log: seq<Entry>, r: Repo) {
    && (r.row.Some? && r.row.value.ack.status != Pending ==> exists i :: 0 <= i < |log| && LeavesPending(log[i]))
    && (r.row.Some? && r.row.value.consumedAt.Some? ==> exists i :: 0 <= i < |log| && log[i].WroteConsumption?)
  }

  /** One consumption, one holder of its success: the call that wrote it, or the return it became. */
  ghost predicate OneClaim(calls: map<nat, Call>, log: seq<Entry>) {
    && (forall a, b :: a in calls && b in calls && ClaimsConsumption(calls[a]) && ClaimsConsumption(calls[b]) ==>
          a == b)
    && (forall a, i :: a in calls && ClaimsConsumption(calls[a]) && 0 <= i < |log| ==> !SaysConsumed(log[i]))
  }

  ghost predicate CallsInv(calls: map<nat, Call>, r: Repo) {
    forall call :: call in calls ==> CallInv(calls[call], r)
  }

  ghost predicate EntriesInv(log: seq<Entry>, r: Repo) {
    forall i :: 0 <= i < |log| ==> EntryInv(log[i], r)
  }

  ghost predicate Inv(s: State) {
    && RepoInv(s.repo) && CallsInv(s.calls, s.repo) && EntriesInv(s.log, s.repo)
    && NoRivals(s.log) && Accounted(s.log, s.repo) && OneClaim(s.calls, s.log)
  }

  // ----- how the row may move

  /** Requests and ids never change, a decided acknowledgement never changes, a consumption never changes. */
  predicate Evolves(r: Repo, r': Repo) {
    r.row.Some? ==>
      && r'.row.Some? && r'.row.value.request == r.row.value.request && r'.row.value.ack.id == r.row.value.ack.id
      && (r.row.value.ack.status != Pending ==> r'.row.value.ack == r.row.value.ack)
      && (r.row.value.consumedAt.Some? ==> r'.row.value.consumedAt == r.row.value.consumedAt)
  }

  lemma CallsSurvive(calls: map<nat, Call>, r: Repo, r': Repo)
    requires CallsInv(calls, r) && RepoInv(r) && Evolves(r, r')
    ensures CallsInv(calls, r')
  {
    forall call | call in calls ensures CallInv(calls[call], r') {
      assert CallInv(calls[call], r);
    }
  }

  lemma EntriesSurvive(log: seq<Entry>, r: Repo, r': Repo)
    requires EntriesInv(log, r) && Evolves(r, r')
    ensures EntriesInv(log, r')
  {
    forall i | 0 <= i < |log| ensures EntryInv(log[i], r') {
      assert EntryInv(log[i], r);
    }
  }

  /** The row as a successful decision write leaves it, whether this call created it or found it. */
  ghost predicate DecisionStands(r: Repo, r': Repo, outcome: Ack, created: bool) {
    && RepoInv(r') && Evolves(r, r') && r'.row.Some? && r'.row.value.ack == outcome && r.row.Some?
    && r'.row.value.request == outcome.request && r'.row.value.consumedAt == r.row.value.consumedAt
    && if created then r.row.value.ack.status == Pending else r' == r
  }

  lemma DecideWrites(r: Repo, expected: Request, id: string, status: Status, now: int)
    requires RepoInv(r) && status != Pending
    ensures var outcome := Outcome(expected, id, status, now);
      var done := RepoDecide(r, expected, outcome);
      done.Some? ==> DecisionStands(r, done.value.0, outcome, done.value.1)
  {
  }

  /** The row as a successful consumption write leaves it, whether this call created it or found it. */
  ghost predicate ConsumptionStands(r: Repo, r': Repo, now: int, created: bool) {
    && RepoInv(r') && Evolves(r, r') && r.row.Some? && r'.row.Some? && r'.row.value.ack == r.row.value.ack
    && r'.row.value.request == r.row.value.request && r'.row.value.consumedAt == Some(now)
    && if created then r.row.value.consumedAt.None? else r' == r
  }

  lemma ConsumeWrites(r: Repo, stored: Stored, now: int)
    requires RepoInv(r) && ReadFrom(stored, r) && stored.ack.status == Approved
    ensures var done := RepoConsume(r, stored, now);
      done.Some? ==> ConsumptionStands(r, done.value.0, now, done.value.1)
  {
  }

  // ----- each step keeps the invariant

  /** Taking a call on, or letting one go, when nothing is written. */
  lemma CallChanges(s: State, calls: map<nat, Call>)
    requires Inv(s) && CallsInv(calls, s.repo)
    requires forall a :: a in calls && ClaimsConsumption(calls[a]) ==> a in s.calls && calls[a] == s.calls[a]
    ensures Inv(s.(calls := calls))
  {
  }

  lemma CallsReplaced(calls: map<nat, Call>, call: nat, c: Call, r: Repo)
    requires CallsInv(calls, r) && CallInv(c, r)
    ensures CallsInv(calls[call := c], r)
  {
  }

  lemma CallReplaced(s: State, call: nat, c: Call)
    requires Inv(s) && CallInv(c, s.repo) && !ClaimsConsumption(c)
    ensures Inv(s.(calls := s.calls[call := c]))
  {
    CallsReplaced(s.calls, call, c, s.repo);
    CallChanges(s, s.calls[call := c]);
  }

  lemma LogGrows(log: seq<Entry>, e: Entry, r: Repo)
    requires EntriesInv(log, r) && EntryInv(e, r) && NoRivals(log) && forall i :: 0 <= i < |log| ==> !Rival(log[i], e)
    ensures EntriesInv(log + [e], r) && NoRivals(log + [e])
  {
  }

  lemma StaysAccounted(log: seq<Entry>, e: Entry, r: Repo, r': Repo)
    requires Accounted(log, r)
    requires r'.row.Some? && r'.row.value.ack.status != Pending ==>
      LeavesPending(e) || (r.row.Some? && r.row.value.ack.status != Pending)
    requires r'.row.Some? && r'.row.value.consumedAt.Some? ==>
      e.WroteConsumption? || (r.row.Some? && r.row.value.consumedAt.Some?)
    ensures Accounted(log + [e], r')
  {
    var more := log + [e];
    assert more[|log|] == e && forall i :: 0 <= i < |log| ==> more[i] == log[i];
    assert forall i :: 0 <= i < |log| && LeavesPending(log[i]) ==> LeavesPending(more[i]);
    assert forall i :: 0 <= i < |log| && log[i].WroteConsumption? ==> more[i].WroteConsumption?;
  }

  /** Nothing claims a consumption the row does not have. */
  lemma UnconsumedIsUnclaimed(s: State)
    requires CallsInv(s.calls, s.repo) && EntriesInv(s.log, s.repo) && s.repo.row.Some?
    requires s.repo.row.value.consumedAt.None?
    ensures forall i :: 0 <= i < |s.log| ==> !s.log[i].WroteConsumption? && !SaysConsumed(s.log[i])
    ensures forall a :: a in s.calls ==> !ClaimsConsumption(s.calls[a])
  {
    forall i | 0 <= i < |s.log| ensures !s.log[i].WroteConsumption? && !SaysConsumed(s.log[i]) {
      assert EntryInv(s.log[i], s.repo);
    }
    forall a | a in s.calls ensures !ClaimsConsumption(s.calls[a]) {
      assert CallInv(s.calls[a], s.repo);
    }
  }

  lemma PendingIsUndecided(s: State)
    requires EntriesInv(s.log, s.repo) && s.repo.row.Some? && s.repo.row.value.ack.status == Pending
    ensures forall i :: 0 <= i < |s.log| ==> !LeavesPending(s.log[i])
  {
    forall i | 0 <= i < |s.log| ensures !LeavesPending(s.log[i]) {
      assert EntryInv(s.log[i], s.repo);
    }
  }

  /** A return that reports what the row says. */
  lemma Returns(s: State, calls: map<nat, Call>, e: Entry)
    requires Inv(s) && EntryInv(e, s.repo)
    requires forall a :: a in calls ==> a in s.calls && calls[a] == s.calls[a]
    requires !LeavesPending(e) && !e.WroteConsumption?
    requires SaysConsumed(e) ==> exists a :: a in s.calls && a !in calls && ClaimsConsumption(s.calls[a])
    ensures Inv(State(s.repo, calls, s.log + [e]))
  {
    LogGrows(s.log, e, s.repo);
    StaysAccounted(s.log, e, s.repo, s.repo);
  }

  /** A write that leaves pending. */
  lemma LeavesOnce(s: State, repo: Repo, calls: map<nat, Call>, e: Entry)
    requires Inv(s) && RepoInv(repo) && Evolves(s.repo, repo) && EntryInv(e, repo) && LeavesPending(e)
    requires s.repo.row.Some? && s.repo.row.value.ack.status == Pending
    requires repo.row.value.consumedAt == s.repo.row.value.consumedAt
    requires CallsInv(calls, repo)
    requires forall a :: a in calls && ClaimsConsumption(calls[a]) ==> a in s.calls && calls[a] == s.calls[a]
    ensures Inv(State(repo, calls, s.log + [e]))
  {
    EntriesSurvive(s.log, s.repo, repo);
    PendingIsUndecided(s);
    LogGrows(s.log, e, repo);
    StaysAccounted(s.log, e, s.repo, repo);
  }

  lemma ClaimedByOne(calls: map<nat, Call>, log: seq<Entry>, call: nat, check: Check)
    requires forall i :: 0 <= i < |log| ==> !SaysConsumed(log[i])
    requires forall a :: a in calls ==> !ClaimsConsumption(calls[a])
    ensures OneClaim(calls[call := ConsumeReading(check, true)], log + [WroteConsumption(check)])
  {
  }

  lemma ConsumingCallHolds(calls: map<nat, Call>, r: Repo, call: nat, check: Check)
    requires CallsInv(calls, r) && RepoInv(r) && EntryInv(WroteConsumption(check), r)
    ensures CallsInv(calls[call := ConsumeReading(check, true)], r)
  {
    CallsReplaced(calls, call, ConsumeReading(check, true), r);
  }

  /** The write that consumes. */
  lemma ConsumesOnce(s: State, repo: Repo, call: nat, check: Check)
    requires Inv(s) && RepoInv(repo) && Evolves(s.repo, repo) && EntryInv(WroteConsumption(check), repo)
    requires s.repo.row.Some? && s.repo.row.value.consumedAt.None? && repo.row.value.ack == s.repo.row.value.ack
    ensures Inv(State(repo, s.calls[call := ConsumeReading(check, true)], s.log + [WroteConsumption(check)]))
  {
    EntriesSurvive(s.log, s.repo, repo);
    CallsSurvive(s.calls, s.repo, repo);
    UnconsumedIsUnclaimed(s);
    ConsumingCallHolds(s.calls, repo, call, check);
    ClaimedByOne(s.calls, s.log, call, check);
    LogGrows(s.log, WroteConsumption(check), repo);
    StaysAccounted(s.log, WroteConsumption(check), s.repo, repo);
  }

  lemma CreateKeeps(s: State, request: Request, id: string, now: int)
    requires Inv(s)
    ensures Inv(Created(s, request, id, now))
  {
    var s' := Created(s, request, id, now);
    CallsSurvive(s.calls, s.repo, s'.repo);
    EntriesSurvive(s.log, s.repo, s'.repo);
  }

  lemma DecideStartKeeps(s: State, call: nat, c: Candidate, now: int, answers: Answers)
    requires Inv(s) && call !in s.calls && (c.action == Approved || c.action == Rejected)
    ensures Inv(DecideStarted(s, call, c, now, answers))
  {
    if s.repo.row.Some? && CandidateMatches(c, s.repo.row.value.request) {
      var stored := Get(s.repo);
      if stored.ack.status != Pending {
        if stored.ack.status == c.action {
          Returns(s, s.calls, DecideReturned(c.action, stored.ack));
        }
      } else if now >= stored.request.expiresAt {
        CallReplaced(s, call, Expiring(stored, now));
      } else if InSkew(c.decidedAt, now) && ReadFor(c.planID, answers) && HumanMayAcknowledge(c.human, answers) {
        CallReplaced(s, call, Deciding(c, stored, now, answers));
      }
    }
  }

  lemma VerifyStartKeeps(s: State, call: nat, claim: Option<Claim>, now: int, answers: Answers)
    requires Inv(s) && call !in s.calls
    ensures Inv(VerifyStarted(s, call, claim, now, answers))
  {
    if s.repo.row.Some? && MayExecute(Get(s.repo), claim, now, answers) {
      var stored := Get(s.repo);
      if stored.consumed {
        Returns(s, s.calls, VerifyReturned(Check(claim, now, answers), false, stored.ack));
      } else {
        CallReplaced(s, call, Consuming(Check(claim, now, answers), stored));
      }
    }
  }

  lemma DecisionWritten(s: State, call: nat, repo: Repo, created: bool)
    requires Inv(s) && call in s.calls && s.calls[call].Deciding?
    requires var Deciding(c, stored, now, answers) := s.calls[call];
      DecisionStands(s.repo, repo, Outcome(stored.request, stored.ack.id, c.action, now), created)
    ensures var Deciding(c, stored, now, answers) := s.calls[call];
      var outcome := Outcome(stored.request, stored.ack.id, c.action, now);
      Inv(State(repo, s.calls[call := DecideReading(c, outcome, created)],
                if created then s.log + [WroteDecision(c, now, answers)] else s.log))
  {
    var Deciding(c, stored, now, answers) := s.calls[call];
    assert CallInv(s.calls[call], s.repo);
    var outcome := Outcome(stored.request, stored.ack.id, c.action, now);
    var reading := DecideReading(c, outcome, created);
    if created {
      CallsSurvive(s.calls, s.repo, repo);
      CallsReplaced(s.calls, call, reading, repo);
      LeavesOnce(s, repo, s.calls[call := reading], WroteDecision(c, now, answers));
    } else {
      CallReplaced(s, call, reading);
    }
  }

  lemma DecidingWriteKeeps(s: State, call: nat)
    requires Inv(s) && call in s.calls && s.calls[call].Deciding?
    ensures Inv(Written(s, call))
  {
    var Deciding(c, stored, now, answers) := s.calls[call];
    assert CallInv(s.calls[call], s.repo);
    DecideWrites(s.repo, stored.request, stored.ack.id, c.action, now);
    var done := RepoDecide(s.repo, stored.request, Outcome(stored.request, stored.ack.id, c.action, now));
    if done.Some? {
      DecisionWritten(s, call, done.value.0, done.value.1);
    } else {
      CallChanges(s, s.calls - {call});
    }
  }

  lemma ExpiringWriteKeeps(s: State, call: nat)
    requires Inv(s) && call in s.calls && s.calls[call].Expiring?
    ensures Inv(Written(s, call))
  {
    var Expiring(stored, now) := s.calls[call];
    assert CallInv(s.calls[call], s.repo);
    DecideWrites(s.repo, stored.request, stored.ack.id, Expired, now);
    var done := RepoDecide(s.repo, stored.request, Outcome(stored.request, stored.ack.id, Expired, now));
    CallChanges(s, s.calls - {call});
    if done.Some? && done.value.1 {
      CallsSurvive(s.calls - {call}, s.repo, done.value.0);
      LeavesOnce(s, done.value.0, s.calls - {call}, WroteExpiry(now));
    }
  }

  lemma ConsumptionWritten(s: State, call: nat, repo: Repo, created: bool)
    requires Inv(s) && call in s.calls && s.calls[call].ConsumeWriting?
    requires ConsumptionStands(s.repo, repo, s.calls[call].check.now, created)
    ensures var ConsumeWriting(check, stored) := s.calls[call];
      Inv(State(repo, s.calls[call := ConsumeReading(check, created)],
                if created then s.log + [WroteConsumption(check)] else s.log))
  {
    var ConsumeWriting(check, stored) := s.calls[call];
    assert CallInv(s.calls[call], s.repo);
    if created {
      ConsumesOnce(s, repo, call, check);
    } else {
      CallReplaced(s, call, ConsumeReading(check, false));
    }
  }

  lemma ConsumeWriteKeeps(s: State, call: nat)
    requires Inv(s) && call in s.calls && s.calls[call].ConsumeWriting?
    ensures Inv(Written(s, call))
  {
    var ConsumeWriting(check, stored) := s.calls[call];
    assert CallInv(s.calls[call], s.repo);
    ConsumeWrites(s.repo, stored, check.now);
    var done := RepoConsume(s.repo, stored, check.now);
    if done.Some? {
      ConsumptionWritten(s, call, done.value.0, done.value.1);
    } else {
      CallChanges(s, s.calls - {call});
    }
  }

  lemma WriteKeeps(s: State, call: nat)
    requires Inv(s) && call in s.calls
    ensures Inv(Written(s, call))
  {
    match s.calls[call]
    case Deciding(_, _, _, _) => DecidingWriteKeeps(s, call);
    case Expiring(_, _) => ExpiringWriteKeeps(s, call);
    case ConsumeWriting(_, _) => ConsumeWriteKeeps(s, call);
    case Consuming(_, _) => ConsumingReadKeeps(s, call);
    case _ =>
  }

  lemma ConsumingReadKeeps(s: State, call: nat)
    requires Inv(s) && call in s.calls && s.calls[call].Consuming?
    ensures Inv(Written(s, call))
  {
    var Consuming(check, stored) := s.calls[call];
    assert CallInv(s.calls[call], s.repo);
    if s.repo.row.None? || Get(s.repo).consumed {
      CallChanges(s, s.calls - {call});
    } else {
      CallReplaced(s, call, ConsumeWriting(check, Get(s.repo)));
    }
  }

  lemma ReadBackKeeps(s: State, call: nat)
    requires Inv(s) && call in s.calls
    ensures Inv(ReadingBack(s, call))
  {
    assert CallInv(s.calls[call], s.repo);
    CallChanges(s, s.calls - {call});
    match s.calls[call]
    case DecideReading(c, outcome, created) =>
      if s.repo.row.Some? && (created || s.repo.row.value.ack.proof == outcome.proof) {
        assert s.repo.row.value.ack.status == c.action;
        Returns(s, s.calls - {call}, DecideReturned(c.action, s.repo.row.value.ack));
      }
    case ConsumeReading(check, created) =>
      if s.repo.row.Some? && created && s.repo.row.value.consumedAt.Some? {
        assert ClaimsConsumption(s.calls[call]);
        Returns(s, s.calls - {call}, VerifyReturned(check, true, s.repo.row.value.ack));
      }
    case _ =>
  }

  lemma StepKeeps(s: State, a: Action)
    requires Inv(s)
    ensures Inv(Step(s, a))
  {
    match a
    case Create(request, id, clock) => CreateKeeps(s, request, id, Truncated(clock));
    case Decide(call, c, clock, answers) =>
      if call !in s.calls && (c.action == Approved || c.action == Rejected) {
        DecideStartKeeps(s, call, c, Truncated(clock), answers);
      }
    case AskStatus(call, clock) =>
      if call !in s.calls && s.repo.row.Some? && Truncated(clock) >= s.repo.row.value.request.expiresAt {
        CallReplaced(s, call, Expiring(Get(s.repo), Truncated(clock)));
      }
    case Verify(call, claim, clock, answers) =>
      if call !in s.calls {
        VerifyStartKeeps(s, call, claim, Truncated(clock), answers);
      }
    case Write(call) => if call in s.calls { WriteKeeps(s, call); }
    case ReadBack(call) => if call in s.calls { ReadBackKeeps(s, call); }
    case Abandon(call) => CallChanges(s, s.calls - {call});
    case Advance(state, epoch) =>
      CallsSurvive(s.calls, s.repo, Step(s, a).repo);
      EntriesSurvive(s.log, s.repo, Step(s, a).repo);
  }

  lemma {:induction false} Invariant(stateRevision: int, recoveryEpoch: int, actions: seq<Action>)
    ensures Inv(Exec(Start(stateRevision, recoveryEpoch), actions))
  {
    var s0 := Start(stateRevision, recoveryEpoch);
    if actions != [] {
      Invariant(stateRevision, recoveryEpoch, actions[..|actions| - 1]);
      StepKeeps(Exec(s0, actions[..|actions| - 1]), actions[|actions| - 1]);
    }
  }

  // ----- over every run

  lemma WriteEvolves(s: State, call: nat)
    requires RepoInv(s.repo) && call in s.calls && CallInv(s.calls[call], s.repo)
    ensures Evolves(s.repo, Written(s, call).repo)
  {
    match s.calls[call]
    case Deciding(c, stored, now, answers) => DecideWrites(s.repo, stored.request, stored.ack.id, c.action, now);
    case Expiring(stored, now) => DecideWrites(s.repo, stored.request, stored.ack.id, Expired, now);
    case ConsumeWriting(check, stored) => ConsumeWrites(s.repo, stored, check.now);
    case _ =>
  }

  lemma StepEvolves(s: State, a: Action)
    requires RepoInv(s.repo) && CallsInv(s.calls, s.repo)
    ensures Evolves(s.repo, Step(s, a).repo)
  {
    if a.Write? && a.call in s.calls {
      assert CallInv(s.calls[a.call], s.repo);
      WriteEvolves(s, a.call);
    }
  }

  /** Whatever follows, the request and id of the row stay, a decided acknowledgement stays exactly as it is (so it
      leaves pending at most once), and a consumption stays at its time. */
  lemma {:induction false} DecidedRowNeverChanges(state: int, epoch: int, actions: seq<Action>, n: nat)
    requires n <= |actions|
    ensures Evolves(Exec(Start(state, epoch), actions[..n]).repo, Exec(Start(state, epoch), actions).repo)
  {
    var s0 := Start(state, epoch);
    if n == |actions| {
      assert actions[..n] == actions;
    } else {
      var before := actions[..|actions| - 1];
      DecidedRowNeverChanges(state, epoch, before, n);
      assert before[..n] == actions[..n];
      Invariant(state, epoch, before);
      StepEvolves(Exec(s0, before), actions[|actions| - 1]);
    }
  }

  /** An approved (or rejected) acknowledgement was written by one Decide whose candidate matched every field of the
      request, at a clock before expiry and within five seconds of the candidate's own time, with the human allowed on
      every target of the plan the request is for. */
  lemma ApprovalIsJustified(state: int, epoch: int, actions: seq<Action>) returns (i: int)
    requires var r := Exec(Start(state, epoch), actions).repo;
      r.row.Some? && r.row.value.ack.status in {Approved, Rejected}
    ensures var s := Exec(Start(state, epoch), actions);
      var row := s.repo.row.value;
      && 0 <= i < |s.log| && s.log[i].WroteDecision? && s.log[i].c.action == row.ack.status
      && s.log[i].now == row.ack.receivedAt
      && var c, q := s.log[i].c, row.request;
      && c.human.id == q.humanID && c.authorityID == q.authorityID && c.nonce == q.nonce && c.planID == q.planID
      && c.planDigest == q.planDigest && c.targetDigest == q.targetDigest && c.reasonDigest == q.reasonDigest
      && c.stateRevision == q.stateRevision && c.recoveryEpoch == q.recoveryEpoch
      && c.expiresAt - c.expiresAt % SECOND == q.expiresAt
    ensures var s := Exec(Start(state, epoch), actions);
      var e, q := s.log[i], s.repo.row.value.request;
      && e.now < q.expiresAt && e.now - SKEW <= e.c.decidedAt <= e.now + SKEW
      && e.answers.plan.planID == q.planID && e.c.human.kind == Human && e.answers.current && e.answers.plan.humanBranch
      && AllowedOnAll(q.humanID, e.answers)
  {
    Invariant(state, epoch, actions);
    var s := Exec(Start(state, epoch), actions);
    i :| 0 <= i < |s.log| && LeavesPending(s.log[i]);
    assert EntryInv(s.log[i], s.repo);
    TargetsCoverThePlan(s.repo.row.value.request.humanID, s.log[i].answers);
  }

  /** The acknowledgement leaves pending at most once, is consumed at most once, and at most one execution check reports
      having consumed it. */
  lemma OneTimeSteps(state: int, epoch: int, actions: seq<Action>, i: nat, j: nat)
    requires var log := Exec(Start(state, epoch), actions).log; i < |log| && j < |log| && Rival(log[i], log[j])
    ensures i == j
  {
    Invariant(state, epoch, actions);
    var log := Exec(Start(state, epoch), actions).log;
    assert Rival(log[j], log[i]);
  }

  /** VerifyForExecution (no claim) succeeds at most once. */
  lemma ExecutionProofIsSingleUse(state: int, epoch: int, actions: seq<Action>, i: nat, j: nat)
    requires var log := Exec(Start(state, epoch), actions).log;
      && i < |log| && j < |log| && log[i].VerifyReturned? && log[j].VerifyReturned? && log[i].check.claim.None?
      && log[j].check.claim.None?
    ensures i == j
  {
    Invariant(state, epoch, actions);
    var s := Exec(Start(state, epoch), actions);
    assert EntryInv(s.log[i], s.repo) && EntryInv(s.log[j], s.repo);
    OneTimeSteps(state, epoch, actions, i, j);
  }

  /** Every success is the one that consumed the proof, or comes with a verified run claim on this very acknowledgement;
      and the consuming check saw a clock before expiry or a claim stamped before expiry. */
  lemma SuccessRestsOnConsumption(state: int, epoch: int, actions: seq<Action>, i: nat) returns (k: int)
    requires var log := Exec(Start(state, epoch), actions).log; i < |log| && log[i].VerifyReturned?
    ensures Exec(Start(state, epoch), actions).repo.row.Some?
    ensures var s := Exec(Start(state, epoch), actions);
      var row, claim := s.repo.row.value, s.log[i].check.claim;
      && s.log[i].ack == row.ack && row.ack.status == Approved
      && (s.log[i].consumedHere || claim.Some?)
      && (claim.Some? ==> claim.value.ackID == row.ack.id && claim.value.verified)
      && 0 <= k < |s.log| && s.log[k].WroteConsumption? && row.consumedAt == Some(s.log[k].check.now)
      && (s.log[k].check.now < row.request.expiresAt
          || (s.log[k].check.claim.Some? && s.log[k].check.claim.value.claimedAt < row.request.expiresAt))
  {
    Invariant(state, epoch, actions);
    var s := Exec(Start(state, epoch), actions);
    assert EntryInv(s.log[i], s.repo);
    k :| 0 <= k < |s.log| && s.log[k].WroteConsumption?;
    assert EntryInv(s.log[k], s.repo);
  }

  /** Every success, whether it consumed the proof or not, and the consumption itself come from a check that read the
      plan of the request again, field by field as requested, found it current and for humans, and found the human of
      the request allowed on every one of its targets. */
  lemma SuccessIsRechecked(state: int, epoch: int, actions: seq<Action>, i: nat)
    requires var log := Exec(Start(state, epoch), actions).log;
      i < |log| && (log[i].VerifyReturned? || log[i].WroteConsumption?)
    ensures Exec(Start(state, epoch), actions).repo.row.Some?
    ensures var s := Exec(Start(state, epoch), actions);
      var q, a := s.repo.row.value.request, s.log[i].check.answers;
      && a.plan.planID == q.planID && a.plan.planDigest == q.planDigest && a.plan.targetDigest == q.targetDigest
      && a.plan.reasonDigest == q.reasonDigest && a.plan.stateRevision == q.stateRevision
      && a.plan.recoveryEpoch == q.recoveryEpoch && a.plan.humanBranch && a.current && AllowedOnAll(q.humanID, a)
  {
    Invariant(state, epoch, actions);
    var s := Exec(Start(state, epoch), actions);
    assert EntryInv(s.log[i], s.repo);
    TargetsCoverThePlan(s.repo.row.value.request.humanID, s.log[i].check.answers);
  }

  /** An acknowledgement expires only once its time has come. */
  lemma ExpiryIsDue(state: int, epoch: int, actions: seq<Action>)
    requires var r := Exec(Start(state, epoch), actions).repo; r.row.Some? && r.row.value.ack.status == Expired
    ensures var row := Exec(Start(state, epoch), actions).repo.row.value;
      row.ack.receivedAt >= row.request.expiresAt && row.consumedAt.None?
  {
    Invariant(state, epoch, actions);
    var s := Exec(Start(state, epoch), actions);
    var i :| 0 <= i < |s.log| && LeavesPending(s.log[i]);
    assert EntryInv(s.log[i], s.repo);
  }

  /** A successful Decide always returns the status its candidate asked for, even when another call won the race. */
  lemma DecideReturnsWhatWasAsked(state: int, epoch: int, actions: seq<Action>, i: nat)
    requires var log := Exec(Start(state, epoch), actions).log; i < |log| && log[i].DecideReturned?
    ensures var s := Exec(Start(state, epoch), actions);
      s.repo.row.Some? && s.log[i].ack == s.repo.row.value.ack && s.log[i].ack.status == s.log[i].action
  {
    Invariant(state, epoch, actions);
    var s := Exec(Start(state, epoch), actions);
    assert EntryInv(s.log[i], s.repo);
  }
}
