/** One offsite copy from its credential endpoint to the last-good decision, under every interleaving of calls. */
module OffsiteCopy {
  import opened Text
  import opened Sorting
  import opened InventoryDigests
  import opened OffsitePaths
  import opened OffsiteAdmission
  import opened OffsiteSeal

  // ----- the one-run endpoint

  datatype HttpRequest = HttpRequest(verb: string, path: string, loopback: bool, authorization: string)

  /** `issued` is the history of sessions the issuer handed out through this endpoint, by expiry. */
  datatype EndpointState = EndpointState(
    closed: bool, childExited: bool, childExitedAt: Time, expiries: seq<Time>, bearer: string, issued: seq<Time>)

  datatype EndpointConfig = EndpointConfig(path: string, deadline: Time)

  predicate MayIssue(c: EndpointConfig, e: EndpointState, r: HttpRequest, now: Time) {
    && !e.closed && !e.childExited && r.verb == "GET" && r.path == c.path && r.loopback && now < c.deadline
    && r.authorization == "Bearer " + e.bearer
  }

  /** A request at `now`; `answer` is what the issuer returns if it is asked. */
  function Served(c: EndpointConfig, e: EndpointState, r: HttpRequest, now: Time, answer: Option<Time>): EndpointState {
    if MayIssue(c, e, r, now) && answer.Some?
    then e.(expiries := e.expiries + [answer.value], issued := e.issued + [answer.value]) else e
  }

  function Marked(e: EndpointState, now: Time): EndpointState {
    e.(childExited := true, childExitedAt := if e.childExitedAt == NEVER then now else e.childExitedAt)
  }

  function Shut(e: EndpointState): EndpointState {
    if e.closed then e else e.(closed := true, bearer := "")
  }

  class OneRunEndpoint {
    const config: EndpointConfig
    var closed: bool
    var childExited: bool
    var childExitedAt: Time
    var expiries: seq<Time>
    var bearer: string
    ghost var issued: seq<Time>

    ghost function View(): EndpointState
      reads this
    {
      EndpointState(closed, childExited, childExitedAt, expiries, bearer, issued)
    }

    constructor (c: EndpointConfig, secret: string)
      ensures config == c && View() == EndpointState(false, false, NEVER, [], secret, [])
    {
      config := c;
      closed, childExited, childExitedAt, expiries, bearer := false, false, NEVER, [], secret;
      issued := [];
    }

    /** `granted` is the expiry of the session returned to the caller, if any. */
    method ServeHTTP(r: HttpRequest, now: Time, answer: Option<Time>) returns (granted: Option<Time>)
      modifies this
      ensures View() == Served(config, old(View()), r, now, answer)
      ensures granted == (if MayIssue(config, old(View()), r, now) then answer else None)
    {
      if closed || childExited || r.verb != "GET" || r.path != config.path || !r.loopback || !(now < config.deadline) {
        return None;
      }
      if r.authorization != "Bearer " + bearer {
        return None;
      }
      if answer.None? {
        return None;
      }
      issued := issued + [answer.value];
      expiries := expiries + [answer.value];
      granted := answer;
    }

    method MarkChildExited(now: Time)
      modifies this
      ensures View() == Marked(old(View()), now)
    {
      childExited := true;
      if childExitedAt == NEVER {
        childExitedAt := now;
      }
    }

    method SessionExpiries() returns (copied: seq<Time>)
      ensures copied == View().expiries
    {
      copied := expiries;
    }

    method ChildExitedAt() returns (at: Time)
      ensures at == View().childExitedAt
    {
      at := childExitedAt;
    }

    method Close()
      modifies this
      ensures View() == Shut(old(View()))
    {
      if closed {
        return;
      }
      closed := true;
      bearer := "";
    }
  }

  // ----- the copy

  datatype ResticResult = ResticResult(repositoryID: string, snapshotID: string, objectCount: int, objectBytes: int,
                                       childExited: bool)

  datatype Observation = Observation(inventoryDigest: string, objectCount: int, objectBytes: Int64,
                                     objects: seq<OffsiteObject>)

  /** What parsing a URL yields; `loopbackPort` says that the host is a loopback address with a port. */
  datatype Url = Url(
    scheme: string, hasUser: bool, host: string, path: string, rawPath: string, query: string, fragment: string,
    loopbackPort: bool)

  /** The session request that binds an endpoint to one run. */
  datatype Binding = Binding(runID: string, stepID: string, generationID: string, pointID: string, recoveryEpoch: int)

  /** `portsPresent`: custody, inventory and endpoint are configured. `repository` is what parsing the repository URL
      after its scheme prefix yields, `iam` the same for the credential URI. */
  datatype CopyConfig = CopyConfig(
    portsPresent: bool, passwordBytes: nat, binaryPath: string, architecture: string, repositoryURL: string,
    repository: Option<Url>, bucket: string, snapshotPath: string, passwordFDPath: string, tokenFDPath: string,
    iam: Option<Url>, binding: Binding)

  datatype Job = Job(source: Source, admission: GenerationAdmission, config: CopyConfig)

  predicate RepositoryMatches(g: CopyConfig, prefix: string) {
    && |g.repositoryURL| >= 3 && g.repositoryURL[..3] == "s3:" && g.repository.Some?
    && g.repository.value.scheme == "https" && g.repository.value.host != "" && !g.repository.value.hasUser
    && g.repository.value.query == "" && g.repository.value.fragment == "" && g.repository.value.rawPath == ""
    && g.bucket != "" && '/' !in g.bucket && prefix != ""
    && g.repository.value.path == "/" + g.bucket + "/" + TrimSuffix(prefix, "/")
  }

  predicate LoopbackUri(iam: Option<Url>, path: string) {
    && iam.Some? && iam.value.scheme == "http" && iam.value.path == path && iam.value.query == ""
    && iam.value.fragment == "" && !iam.value.hasUser && iam.value.loopbackPort
  }

  /** The path a run's endpoint serves. */
  function IamPath(b: Binding): string {
    "/v1/credentials/" + b.runID + "/" + b.stepID + "/" + b.generationID + "/" + FormatInt(b.recoveryEpoch)
  }

  predicate Configured(g: CopyConfig) {
    && g.portsPresent && g.passwordBytes > 0 && g.binaryPath != "" && g.architecture != "" && g.snapshotPath != ""
    && g.passwordFDPath != "" && g.tokenFDPath != ""
  }

  predicate Bound(c: EndpointConfig, job: Job) {
    && job.source.pointID != "" && job.source.snapshotID != ""
    && job.admission.generationID == job.config.binding.generationID != ""
    && job.config.binding.pointID == job.source.pointID
    && job.config.binding.recoveryEpoch == job.source.recoveryEpoch && c.path == IamPath(job.config.binding)
  }

  /** The checks before the child is started. */
  ghost predicate InputsHold(c: EndpointConfig, job: Job) {
    && Configured(job.config) && AdmissionValid(job.admission) && RepositoryMatches(job.config, job.admission.prefix)
    && LoopbackUri(job.config.iam, c.path) && Bound(c, job)
  }

  datatype Copy =
    | Idle
    | ChildRunning(job: Job)
    | ChildReturned(job: Job, answer: Option<ResticResult>)
    | Stopped(job: Job, result: ResticResult)
    | Listed(job: Job, result: ResticResult, expiries: seq<Time>)
    | Read(job: Job, result: ResticResult, expiries: seq<Time>, seen: Observation)
    | Done(job: Job, seen: Observation, pending: Pending)
    | Failed

  predicate ResultUsable(r: ResticResult) {
    && r.childExited && ValidObjectName(r.repositoryID) && ValidObjectName(r.snapshotID)
    && r.objectCount >= 1 && r.objectBytes >= 1
  }

  predicate ObservationUsable(h: string -> string, a: GenerationAdmission, o: Observation) {
    && ValidFingerprint(o.inventoryDigest) && o.objectCount >= 1 && o.objectBytes >= 1 && |o.objects| == o.objectCount
    && OffsiteDigest(h, o.objects) == o.inventoryDigest && o.objectBytes <= a.maximumBytes
    && o.objectCount <= a.maximumPUTs
  }

  function Receipt(job: Job, result: ResticResult, expiries: seq<Time>, seen: Observation, stoppedAt: Time): Pending {
    Pending(job.source,
            Stored(job.admission.generationID, result.repositoryID, result.snapshotID, seen.inventoryDigest,
                   job.admission.ruleDigest, seen.objectCount, seen.objectBytes),
            job.admission.protectedRules, SortBy(seen.objects, OffsiteKey), expiries, stoppedAt)
  }

  datatype Action =
    | Serve(request: HttpRequest, now: Time, answer: Option<Time>)
    | MarkExited(now: Time)
    | CloseEndpoint
    | Begin(job: Job)
    | ChildReturns(result: Option<ResticResult>)
    | StopIssuance(now: Time)
    | ListExpiries
    | Observe(seen: Option<Observation>)
    | Finish

  datatype State = State(endpoint: EndpointState, copy: Copy)

  function StepEndpoint(c: EndpointConfig, s: State, a: Action): EndpointState {
    match a
    case Serve(r, now, answer) => Served(c, s.endpoint, r, now, answer)
    case MarkExited(now) => Marked(s.endpoint, now)
    case CloseEndpoint => Shut(s.endpoint)
    case StopIssuance(now) => if s.copy.ChildReturned? then Marked(s.endpoint, now) else s.endpoint
    case _ => s.endpoint
  }

  ghost function StepCopy(h: string -> string, c: EndpointConfig, s: State, a: Action): Copy {
    match (s.copy, a)
    case (Idle, Begin(job)) => if InputsHold(c, job) then ChildRunning(job) else Failed
    case (ChildRunning(job), ChildReturns(result)) => ChildReturned(job, result)
    case (ChildReturned(job, answer), StopIssuance(_)) =>
      if answer.Some? && ResultUsable(answer.value) then Stopped(job, answer.value) else Failed
    case (Stopped(job, result), ListExpiries) =>
      if s.endpoint.expiries == [] then Failed else Listed(job, result, s.endpoint.expiries)
    case (Listed(job, result, expiries), Observe(seen)) =>
      if seen.Some? && ObservationUsable(h, job.admission, seen.value) then Read(job, result, expiries, seen.value)
      else Failed
    case (Read(job, result, expiries, seen), Finish) =>
      Done(job, seen, Receipt(job, result, expiries, seen, s.endpoint.childExitedAt))
    case _ => s.copy
  }

  ghost function Step(h: string -> string, c: EndpointConfig, s: State, a: Action): State {
    State(StepEndpoint(c, s, a), StepCopy(h, c, s, a))
  }

  ghost function Exec(h: string -> string, c: EndpointConfig, s: State, actions: seq<Action>): State {
    if actions == [] then s else Step(h, c, Exec(h, c, s, actions[..|actions| - 1]), actions[|actions| - 1])
  }

  function Start(bearer: string): State {
    State(EndpointState(false, false, NEVER, [], bearer, []), Idle)
  }

  // ----- what every run keeps

  predicate ListedExactly(e: EndpointState, expiries: seq<Time>) {
    e.childExited && expiries == e.expiries && expiries != []
  }

  predicate StoppedThen(e: EndpointState, at: Time) {
    at == NEVER || at == e.childExitedAt
  }

  /** A started copy passed its checks. */
  ghost predicate JobInv(c: EndpointConfig, copy: Copy) {
    copy.Idle? || copy.Failed? || InputsHold(c, copy.job)
  }

  ghost predicate CopyInv(h: string -> string, e: EndpointState, copy: Copy) {
    match copy
    case Stopped(job, result) => ResultUsable(result) && e.childExited
    case Listed(job, result, expiries) => ResultUsable(result) && ListedExactly(e, expiries)
    case Read(job, result, expiries, seen) =>
      ResultUsable(result) && ListedExactly(e, expiries) && ObservationUsable(h, job.admission, seen)
    case Done(job, seen, pending) =>
      && ObservationUsable(h, job.admission, seen) && ListedExactly(e, pending.sessionExpiries)
      && StoppedThen(e, pending.issuanceStoppedAt)
      && exists result ::
           && ResultUsable(result)
           && pending == Receipt(job, result, pending.sessionExpiries, seen, pending.issuanceStoppedAt)
    case _ => true
  }

  ghost predicate Inv(h: string -> string, c: EndpointConfig, s: State) {
    s.endpoint.issued == s.endpoint.expiries && JobInv(c, s.copy) && CopyInv(h, s.endpoint, s.copy)
  }

  lemma JobKeeps(h: string -> string, c: EndpointConfig, s: State, a: Action)
    requires JobInv(c, s.copy)
    ensures JobInv(c, StepCopy(h, c, s, a))
  {
  }

  /** Once the child is marked as exited, no call changes the list or the mark, or issues anything. */
  lemma ExitIsFinal(c: EndpointConfig, s: State, a: Action)
    requires s.endpoint.childExited
    ensures var e := StepEndpoint(c, s, a);
      && e.childExited && e.expiries == s.endpoint.expiries && e.issued == s.endpoint.issued
      && (s.endpoint.childExitedAt != NEVER ==> e.childExitedAt == s.endpoint.childExitedAt)
  {
  }

  lemma CopyStays(h: string -> string, c: EndpointConfig, s: State, a: Action)
    requires CopyInv(h, s.endpoint, s.copy)
    ensures CopyInv(h, StepEndpoint(c, s, a), s.copy)
  {
    if s.endpoint.childExited {
      ExitIsFinal(c, s, a);
    }
  }

  /** Reading the list or the mark at a stopped endpoint records exactly what it holds. */
  lemma CopyAdvances(h: string -> string, c: EndpointConfig, s: State, a: Action)
    requires CopyInv(h, s.endpoint, s.copy) && !a.Finish?
    ensures CopyInv(h, StepEndpoint(c, s, a), StepCopy(h, c, s, a))
  {
    CopyStays(h, c, s, a);
  }

  lemma FinishKeeps(h: string -> string, c: EndpointConfig, s: State)
    requires CopyInv(h, s.endpoint, s.copy)
    ensures CopyInv(h, s.endpoint, StepCopy(h, c, s, Finish))
  {
    if s.copy.Read? {
      var next := StepCopy(h, c, s, Finish);
      assert ResultUsable(s.copy.result)
          && next.pending == Receipt(s.copy.job, s.copy.result, next.pending.sessionExpiries, next.seen,
                                     next.pending.issuanceStoppedAt);
    }
  }

  lemma StepKeeps(h: string -> string, c: EndpointConfig, s: State, a: Action)
    requires Inv(h, c, s)
    ensures Inv(h, c, Step(h, c, s, a))
  {
    JobKeeps(h, c, s, a);
    if a.Finish? {
      FinishKeeps(h, c, s);
    } else {
      CopyAdvances(h, c, s, a);
    }
  }

  lemma {:induction false} Invariant(h: string -> string, c: EndpointConfig, bearer: string, actions: seq<Action>)
    ensures Inv(h, c, Exec(h, c, Start(bearer), actions))
  {
    if actions != [] {
      Invariant(h, c, bearer, actions[..|actions| - 1]);
      StepKeeps(h, c, Exec(h, c, Start(bearer), actions[..|actions| - 1]), actions[|actions| - 1]);
    }
  }

  lemma {:induction false} NothingIssuedAfterExit(h: string -> string, c: EndpointConfig, s: State, later: seq<Action>)
    requires s.endpoint.childExited
    ensures Exec(h, c, s, later).endpoint.childExited
    ensures Exec(h, c, s, later).endpoint.issued == s.endpoint.issued
    ensures Exec(h, c, s, later).endpoint.expiries == s.endpoint.expiries
  {
    if later != [] {
      NothingIssuedAfterExit(h, c, s, later[..|later| - 1]);
      ExitIsFinal(c, Exec(h, c, s, later[..|later| - 1]), later[|later| - 1]);
    }
  }

  /** Whatever calls were interleaved: when a proof may become the last good one for a copied generation, every session
      ever issued has expired by the proof's observation, the receipt lists exactly those sessions, issuance had stopped
      by then, and no continuation of the run issues another. */
  lemma AdvanceMeansWritersAreGone(h: string -> string, digest: OffsiteProof -> string, c: EndpointConfig,
                                   bearer: string, actions: seq<Action>, proof: OffsiteProof, revision: int, epoch: int,
                                   later: seq<Action>)
    requires var s := Exec(h, c, Start(bearer), actions);
      s.copy.Done? && CanAdvance(h, digest, s.copy.pending, proof, revision, epoch)
    ensures var s := Exec(h, c, Start(bearer), actions);
      && s.copy.pending.sessionExpiries == s.endpoint.issued != []
      && (forall i :: 0 <= i < |s.endpoint.issued| ==>
            s.endpoint.issued[i] <= proof.seal.observedAt <= proof.observedAt)
      && s.endpoint.childExited && NEVER != s.endpoint.childExitedAt == proof.seal.issuanceStoppedAt <= proof.observedAt
      && Exec(h, c, s, later).endpoint.issued == s.endpoint.issued
  {
    var s := Exec(h, c, Start(bearer), actions);
    Invariant(h, c, bearer, actions);
    WritersAreGone(h, digest, c, s, proof, revision, epoch);
    NothingIssuedAfterExit(h, c, s, later);
  }

  lemma WritersAreGone(h: string -> string, digest: OffsiteProof -> string, c: EndpointConfig, s: State,
                       proof: OffsiteProof, revision: int, epoch: int)
    requires Inv(h, c, s) && s.copy.Done? && CanAdvance(h, digest, s.copy.pending, proof, revision, epoch)
    ensures s.copy.pending.sessionExpiries == s.endpoint.issued != []
    ensures forall i :: 0 <= i < |s.endpoint.issued| ==>
      s.endpoint.issued[i] <= proof.seal.observedAt <= proof.observedAt
    ensures s.endpoint.childExited
    ensures NEVER != s.endpoint.childExitedAt == proof.seal.issuanceStoppedAt <= proof.observedAt
  {
    ReceiptIsOfItsEndpoint(h, c, s);
    AdvanceIsSealed(h, digest, s.copy.pending, proof, revision, epoch);
    SealCoversSessions(s.endpoint, s.copy.pending, proof.seal, proof.observedAt);
  }

  lemma ReceiptIsOfItsEndpoint(h: string -> string, c: EndpointConfig, s: State)
    requires Inv(h, c, s) && s.copy.Done?
    ensures ListedExactly(s.endpoint, s.copy.pending.sessionExpiries)
    ensures StoppedThen(s.endpoint, s.copy.pending.issuanceStoppedAt)
  {
  }

  lemma AdvanceIsSealed(h: string -> string, digest: OffsiteProof -> string, p: Pending, proof: OffsiteProof,
                        revision: int, epoch: int)
    requires CanAdvance(h, digest, p, proof, revision, epoch)
    ensures SealValid(p, proof.seal, proof.observedAt) && p.issuanceStoppedAt != NEVER
  {
  }

  lemma SealCoversSessions(e: EndpointState, p: Pending, seal: WriterSeal, observedAt: Time)
    requires ListedExactly(e, p.sessionExpiries) && StoppedThen(e, p.issuanceStoppedAt) && e.issued == e.expiries
    requires SealValid(p, seal, observedAt) && p.issuanceStoppedAt != NEVER
    ensures p.sessionExpiries == e.issued != []
    ensures forall i :: 0 <= i < |e.issued| ==> e.issued[i] <= seal.observedAt <= observedAt
    ensures NEVER != e.childExitedAt == seal.issuanceStoppedAt <= observedAt
  {
    assert Latest(seal.lastSessionExpiresAt, p.sessionExpiries);
  }

  // ----- which copies leave a valid receipt

  lemma SortedDigestIsTheSame(h: string -> string, objects: seq<OffsiteObject>)
    requires DistinctObjects(objects)
    ensures OffsiteDigest(h, SortBy(objects, OffsiteKey)) == OffsiteDigest(h, objects)
  {
    var sorted := SortBy(objects, OffsiteKey);
    SortSorts(objects, OffsiteKey);
    SortSorts(sorted, OffsiteKey);
    SameSortIffPermutation(objects, sorted, sorted, SortBy(sorted, OffsiteKey), OffsiteKey);
  }

  lemma {:induction false} TotalPermutes(a: seq<OffsiteObject>, b: seq<OffsiteObject>)
    requires multiset(a) == multiset(b)
    ensures TotalBytes(a) == TotalBytes(b)
  {
    assert |a| == |multiset(a)| == |multiset(b)| == |b|;
    if a != [] {
      var n := |a| - 1;
      assert a[n] in multiset(b);
      var k :| 0 <= k < |b| && b[k] == a[n];
      RemoveAt(a, n);
      RemoveAt(b, k);
      CancelOne(multiset(Without(a, n)), multiset(Without(b, k)), a[n]);
      TotalPermutes(Without(a, n), Without(b, k));
      assert Without(a, n) == a[..n];
      TotalWithout(b, k);
    }
  }

  lemma {:induction false} TotalWithout(s: seq<OffsiteObject>, k: nat)
    requires k < |s|
    ensures TotalBytes(s) == TotalBytes(Without(s, k)) + s[k].bytes
  {
    var n := |s| - 1;
    if k == n {
      assert Without(s, k) == s[..n];
    } else {
      TotalWithout(s[..n], k);
      assert Without(s, k)[..n - 1] == Without(s[..n], k);
    }
  }

  lemma AddingUpIgnoresOrder(objects: seq<OffsiteObject>, bytes: int)
    ensures ObjectsAddUp(SortBy(objects, OffsiteKey), bytes, ValidOffsiteObject) <==>
      ObjectsAddUp(objects, bytes, ValidOffsiteObject)
  {
    var sorted := SortBy(objects, OffsiteKey);
    SortSorts(objects, OffsiteKey);
    TotalPermutes(objects, sorted);
    DistinctPermutes(objects, sorted);
    DistinctPermutes(sorted, objects);
    ValidPermutes(objects, sorted, ValidOffsiteObject);
    ValidPermutes(sorted, objects, ValidOffsiteObject);
  }

  lemma DistinctPermutes(a: seq<OffsiteObject>, b: seq<OffsiteObject>)
    requires multiset(a) == multiset(b)
    ensures DistinctObjects(a) ==> DistinctObjects(b)
  {
    if DistinctObjects(a) {
      assert DistinctKeys(a, OffsiteKey);
      DistinctKeysPermute(a, b, OffsiteKey);
      assert forall i, j :: 0 <= i < j < |b| ==> OffsiteKey(b[i]) != OffsiteKey(b[j]);
    }
  }

  lemma ValidPermutes(a: seq<OffsiteObject>, b: seq<OffsiteObject>, valid: OffsiteObject -> bool)
    requires multiset(a) == multiset(b)
    ensures AllValid(a, valid) ==> AllValid(b, valid)
  {
    SameElements(b, a);
    forall i | 0 <= i < |b| && AllValid(a, valid) ensures valid(b[i]) {
      assert b[i] in a;
    }
  }

  /** A finished copy's receipt is valid exactly when the point is well formed, the generation's rules pass their check,
      the observed objects are valid, distinct and add up, and no recorded time is the zero time. */
  lemma ReceiptValidExactly(h: string -> string, c: EndpointConfig, bearer: string, actions: seq<Action>)
    requires Exec(h, c, Start(bearer), actions).copy.Done?
    ensures var copy := Exec(h, c, Start(bearer), actions).copy;
      PendingValid(h, copy.pending) <==>
        && SourceShaped(copy.job.source)
        && |copy.job.admission.prefix| <= 503 && !HasSuffix(copy.job.admission.generationID, "..")
        && ObjectsAddUp(copy.seen.objects, copy.seen.objectBytes, ValidOffsiteObject)
        && copy.pending.issuanceStoppedAt != NEVER && NEVER !in copy.pending.sessionExpiries
  {
    Invariant(h, c, bearer, actions);
    var s := Exec(h, c, Start(bearer), actions);
    ReceiptChecks(h, s.endpoint, s.copy);
  }

  lemma ReceiptChecks(h: string -> string, e: EndpointState, copy: Copy)
    requires copy.Done? && AdmissionValid(copy.job.admission) && CopyInv(h, e, copy)
    ensures PendingValid(h, copy.pending) <==>
        && SourceShaped(copy.job.source)
        && |copy.job.admission.prefix| <= 503 && !HasSuffix(copy.job.admission.generationID, "..")
        && ObjectsAddUp(copy.seen.objects, copy.seen.objectBytes, ValidOffsiteObject)
        && copy.pending.issuanceStoppedAt != NEVER && NEVER !in copy.pending.sessionExpiries
  {
    AdmissionMeetsReceiptCheck(copy.job.admission);
    AddingUpIgnoresOrder(copy.seen.objects, copy.seen.objectBytes);
    SortSorts(copy.seen.objects, OffsiteKey);
    var sorted := SortBy(copy.seen.objects, OffsiteKey);
    assert |sorted| == |multiset(sorted)| == |multiset(copy.seen.objects)| == |copy.seen.objects|;
    if DistinctObjects(copy.seen.objects) {
      SortedDigestIsTheSame(h, copy.seen.objects);
    }
    assert StoredShaped(copy.pending.stored);
  }

  // ----- a run to the end

  lemma ThenStep(h: string -> string, c: EndpointConfig, s: State, actions: seq<Action>, a: Action)
    ensures Exec(h, c, s, actions + [a]) == Step(h, c, Exec(h, c, s, actions), a)
  {
    assert (actions + [a])[..|actions|] == actions;
  }

  /** One copy with one session, nothing else interleaved: until the child returns, and until the sessions are
      listed. */
  function OneSession(job: Job, request: HttpRequest, at: Time, expiry: Time, result: ResticResult): seq<Action> {
    [Begin(job)] + [Serve(request, at, Some(expiry))] + [ChildReturns(Some(result))]
  }

  lemma ReturnedNext(h: string -> string, c: EndpointConfig, s: State, job: Job, request: HttpRequest, at: Time,
                     expiry: Time, result: ResticResult)
    requires s.copy == Idle && InputsHold(c, job) && MayIssue(c, s.endpoint, request, at)
    ensures var next := Step(h, c, Step(h, c, Step(h, c, s, Begin(job)), Serve(request, at, Some(expiry))),
                             ChildReturns(Some(result)));
      && next.copy == ChildReturned(job, Some(result)) && next.endpoint.expiries == s.endpoint.expiries + [expiry]
      && next.endpoint.childExitedAt == s.endpoint.childExitedAt
  {
  }

  lemma OneSessionReturns(h: string -> string, c: EndpointConfig, s: State, job: Job, request: HttpRequest, at: Time,
                          expiry: Time, result: ResticResult)
    requires s.copy == Idle && InputsHold(c, job) && MayIssue(c, s.endpoint, request, at)
    ensures var next := Exec(h, c, s, OneSession(job, request, at, expiry, result));
      && next.copy == ChildReturned(job, Some(result)) && next.endpoint.expiries == s.endpoint.expiries + [expiry]
      && next.endpoint.childExitedAt == s.endpoint.childExitedAt
  {
    var none: seq<Action> := [];
    assert none + [Begin(job)] == [Begin(job)];
    ThenStep(h, c, s, none, Begin(job));
    ThenStep(h, c, s, [Begin(job)], Serve(request, at, Some(expiry)));
    ThenStep(h, c, s, [Begin(job)] + [Serve(request, at, Some(expiry))], ChildReturns(Some(result)));
    ReturnedNext(h, c, s, job, request, at, expiry, result);
  }

  lemma ListedNext(h: string -> string, c: EndpointConfig, s: State, job: Job, result: ResticResult,
                   expiries: seq<Time>, stop: Time)
    requires s.copy == ChildReturned(job, Some(result)) && s.endpoint.expiries == expiries != [] && ResultUsable(result)
    requires s.endpoint.childExitedAt == NEVER
    ensures var next := Step(h, c, Step(h, c, s, StopIssuance(stop)), ListExpiries);
      next.copy == Listed(job, result, expiries) && next.endpoint.childExitedAt == stop
  {
  }

  lemma FinishedNext(h: string -> string, c: EndpointConfig, s: State, seen: Observation)
    requires s.copy.Listed? && ObservationUsable(h, s.copy.job.admission, seen)
    ensures Step(h, c, Step(h, c, s, Observe(Some(seen))), Finish).copy ==
            Done(s.copy.job, seen, Receipt(s.copy.job, s.copy.result, s.copy.expiries, seen, s.endpoint.childExitedAt))
  {
  }

  /** The whole run. */
  function OneCopy(job: Job, request: HttpRequest, at: Time, expiry: Time, result: ResticResult, stop: Time,
                   seen: Observation)
    : seq<Action>
  {
    OneSession(job, request, at, expiry, result) + [StopIssuance(stop)] + [ListExpiries] + [Observe(Some(seen))] +
      [Finish]
  }

  lemma OneCopyFinishes(h: string -> string, c: EndpointConfig, bearer: string, job: Job, request: HttpRequest,
                        at: Time, expiry: Time, result: ResticResult, stop: Time, seen: Observation)
    requires InputsHold(c, job) && MayIssue(c, Start(bearer).endpoint, request, at) && ResultUsable(result)
    requires ObservationUsable(h, job.admission, seen)
    ensures Exec(h, c, Start(bearer), OneCopy(job, request, at, expiry, result, stop, seen)).copy ==
            Done(job, seen, Receipt(job, result, [expiry], seen, stop))
  {
    var s, a := Start(bearer), OneSession(job, request, at, expiry, result);
    OneSessionReturns(h, c, s, job, request, at, expiry, result);
    ThenStep(h, c, s, a, StopIssuance(stop));
    ThenStep(h, c, s, a + [StopIssuance(stop)], ListExpiries);
    ListedNext(h, c, Exec(h, c, s, a), job, result, [expiry], stop);
    a := a + [StopIssuance(stop)] + [ListExpiries];
    ThenStep(h, c, s, a, Observe(Some(seen)));
    ThenStep(h, c, s, a + [Observe(Some(seen))], Finish);
    FinishedNext(h, c, Exec(h, c, s, a), seen);
  }

  /** A finished copy can become the last good one once its point, rules, objects and times are in order. */
  lemma FinishedCopyAdvances(h: string -> string, digest: OffsiteProof -> string, c: EndpointConfig, bearer: string,
                        actions: seq<Action>) returns (proof: OffsiteProof)
    requires var copy := Exec(h, c, Start(bearer), actions).copy;
      && copy.Done? && SourceShaped(copy.job.source)
      && |copy.job.admission.prefix| <= 503 && !HasSuffix(copy.job.admission.generationID, "..")
      && ObjectsAddUp(copy.seen.objects, copy.seen.objectBytes, ValidOffsiteObject)
      && copy.pending.issuanceStoppedAt != NEVER && NEVER !in copy.pending.sessionExpiries
    ensures var copy := Exec(h, c, Start(bearer), actions).copy;
      CanAdvance(h, digest, copy.pending, proof, copy.pending.source.stateRevision, copy.pending.source.recoveryEpoch)
  {
    ReceiptValidExactly(h, c, bearer, actions);
    proof := ValidReceiptCanAdvance(h, digest, Exec(h, c, Start(bearer), actions).copy.pending);
  }

  /** Every job that passes its checks and whose objects are observed has a run to its end, at every endpoint. */
  lemma JobFinishes(h: string -> string, c: EndpointConfig, bearer: string, job: Job, seen: Observation)
      returns (actions: seq<Action>)
    requires InputsHold(c, job) && ObservationUsable(h, job.admission, seen)
    ensures var copy := Exec(h, c, Start(bearer), actions).copy;
      && copy.Done? && copy.job == job && copy.seen == seen && copy.pending.issuanceStoppedAt == 3
      && copy.pending.sessionExpiries == [2]
  {
    var request := HttpRequest("GET", c.path, true, "Bearer " + bearer);
    var result := ResticResult(Repeated('a', 64), Repeated('a', 64), 1, 1, true);
    actions := OneCopy(job, request, c.deadline - 1, 2, result, 3, seen);
    OneCopyFinishes(h, c, bearer, job, request, c.deadline - 1, 2, result, 3, seen);
  }

  /** So every job that passes its checks, on a well-formed point and a receivable admission, with objects that add up,
      can become the last good one. */
  lemma JobAdvances(h: string -> string, digest: OffsiteProof -> string, c: EndpointConfig, bearer: string, job: Job,
                    seen: Observation)
      returns (actions: seq<Action>, proof: OffsiteProof)
    requires InputsHold(c, job) && SourceShaped(job.source) && ObservationUsable(h, job.admission, seen)
    requires |job.admission.prefix| <= 503 && !HasSuffix(job.admission.generationID, "..")
    requires ObjectsAddUp(seen.objects, seen.objectBytes, ValidOffsiteObject)
    ensures var s := Exec(h, c, Start(bearer), actions);
      && s.copy.Done?
      && CanAdvance(h, digest, s.copy.pending, proof, job.source.stateRevision, job.source.recoveryEpoch)
  {
    actions := JobFinishes(h, c, bearer, job, seen);
    proof := FinishedCopyAdvances(h, digest, c, bearer, actions);
    SourceIsTheJobs(h, c, bearer, actions);
  }

  lemma SourceIsTheJobs(h: string -> string, c: EndpointConfig, bearer: string, actions: seq<Action>)
    requires Exec(h, c, Start(bearer), actions).copy.Done?
    ensures var copy := Exec(h, c, Start(bearer), actions).copy; copy.pending.source == copy.job.source
  {
    Invariant(h, c, bearer, actions);
  }

  // ----- a job that passes

  lemma SampleSource(digest: string, name: string) returns (source: Source)
    requires ValidFingerprint(digest) && ValidObjectName(name)
    ensures SourceShaped(source)
  {
    source := Source("x", name, digest, digest, digest, digest, digest, "x", 0, 0, 0);
  }

  /** Every admitted generation and named point can be configured for. */
  lemma SampleConfig(source: Source, admission: GenerationAdmission) returns (c: EndpointConfig, job: Job)
    requires AdmissionValid(admission) && source.pointID != "" && source.snapshotID != ""
    ensures InputsHold(c, job) && job.source == source && job.admission == admission
  {
    var binding := Binding("r", "s", admission.generationID, source.pointID, source.recoveryEpoch);
    c := EndpointConfig(IamPath(binding), 10);
    var repository := Url("https", false, "h", "/" + "b" + "/" + TrimSuffix(admission.prefix, "/"), "", "", "", false);
    var iam := Url("http", false, "h", c.path, "", "", "", true);
    job := Job(source, admission,
               CopyConfig(true, 1, "x", "x", "s3:x", Some(repository), "b", "x", "x", "x", Some(iam), binding));
  }

  lemma SampleObservation(h: string -> string, a: GenerationAdmission) returns (seen: Observation)
    requires YieldsFingerprints(h) && a.maximumBytes == a.maximumPUTs == 1
    ensures ObservationUsable(h, a, seen) && ObjectsAddUp(seen.objects, seen.objectBytes, ValidOffsiteObject)
  {
    LettersArePrefix(1);
    var objects := [OffsiteObject(Repeated('p', 1), h(""), 1)];
    assert objects[..0] == [] && TotalBytes(objects) == 1;
    seen := Observation(OffsiteDigest(h, objects), 1, 1, objects);
  }

  /** Under every hash there is such a job. */
  lemma SomeCopyAdvances(h: string -> string, digest: OffsiteProof -> string)
      returns (c: EndpointConfig, bearer: string, actions: seq<Action>, proof: OffsiteProof, revision: int, epoch: int)
    requires YieldsFingerprints(h)
    ensures var s := Exec(h, c, Start(bearer), actions);
      s.copy.Done? && CanAdvance(h, digest, s.copy.pending, proof, revision, epoch)
  {
    var admission := SmallestAdmission(h);
    var source := SampleSource(h(""), Repeated('a', 64));
    var seen := SampleObservation(h, admission);
    var job;
    c, job := SampleConfig(source, admission);
    bearer, revision, epoch := "b", source.stateRevision, source.recoveryEpoch;
    actions, proof := JobAdvances(h, digest, c, bearer, job, seen);
  }
}
