/** What an authorization decision guarantees. */
module AuthorizationGuarantees {
  import opened Text
  import opened Sorting
  import opened AuthorizationRisk
  import opened AuthorizationPolicy

  lemma {:induction false} FirstMatchMatches(grants: seq<Grant>, r: Request, branch: Option<Branch>)
    ensures FirstMatch(grants, r, branch).Some? ==>
      FirstMatch(grants, r, branch).value in grants && Matches(FirstMatch(grants, r, branch).value, r, branch)
    ensures FirstMatch(grants, r, branch).None? ==> forall g :: g in grants ==> !Matches(g, r, branch)
  {
    if grants != [] {
      FirstMatchMatches(grants[1..], r, branch);
      assert grants == [grants[0]] + grants[1..];
    }
  }

  /** The granted role is one that covers the action at the decided risk, and the request got past every check. */
  lemma AllowedMeansGranted(h: Hash, p: Principal, r: Request, s: Snapshot, branch: Option<Branch>, risk: Risk)
    requires Fault(h, p, r, s, branch, risk).None?
    ensures var g := FirstMatch(s.grants, r, branch);
      && g.Some? && g.value in s.grants && Matches(g.value, r, branch) && RoleAllows(g.value.role, r.action, risk)
      && BindScope(h, s, g.value, r.target).Some?
  {
    FirstMatchMatches(s.grants, r, branch);
  }

  /** The greatest risk rank a role may take on. */
  function Ceiling(role: Role): int {
    match role
    case PreauthorizedExecutor => 1
    case Maintainer => 2
    case InfrastructureAdmin => 4
    case ControlPlaneAdmin => 5
    case _ => 0
  }

  /** Roles are ordered by what they may run: a plan action is covered exactly up to the role's ceiling, and only the
      preauthorized executor is confined to executing. */
  lemma RoleCoversUpToItsCeiling(role: Role, action: Action, risk: Risk)
    requires NeedsPlan(action)
    ensures RoleAllows(role, action, risk) <==>
      Rank(risk) <= Ceiling(role) && (role == PreauthorizedExecutor ==> action == Execute)
  {
  }

  ghost predicate PlanCovered(p: Principal, r: Request, d: Decision) {
    && r.plan.Some? && d.risk.Some? && d.scope.Some?
    && ClassifiedAs(PlanRisk(r.plan.value), r.plan.value.operations, r.plan.value.risk, d.risk.value)
    && RoleAllows(d.scope.value.role, r.action, d.risk.value)
    && d.branch == Some(r.plan.value.branch) && ValidBranch(r.plan.value.branch)
    && (d.branch == Some(PreauthorizedBranch) ==> MayPreauthorize(p, r, d.risk.value))
  }

  lemma AllowedPlanIsCovered(h: Hash, p: Principal, r: Request, snapshot: Option<Snapshot>)
    requires Decide(h, p, r, snapshot).allowed && NeedsPlan(r.action)
    ensures PlanCovered(p, r, Decide(h, p, r, snapshot))
  {
    var s := snapshot.value;
    var branch := RequestedBranch(r, p).value;
    AllowedMeansGranted(h, p, r, s, branch, ClassOf(r.plan.value).value);
  }

  /** An allowed acknowledgement or execution: the plan's steps are numbered 1 to n, its declared risk is the greatest
      of its operations in whatever order they are listed, and any control-plane step needs a control-plane admin. */
  lemma AllowedPlanAction(h: Hash, p: Principal, r: Request, snapshot: Option<Snapshot>)
    requires Decide(h, p, r, snapshot).allowed && NeedsPlan(r.action)
    ensures r.plan.Some? && NumberedOnce(r.plan.value.operations)
    ensures var d := Decide(h, p, r, snapshot); var plan := r.plan.value;
      && d.risk.Some? && d.scope.Some? && IsGreatest(PlanRisk(plan), plan.operations, d.risk.value)
      && plan.risk == RiskName(d.risk.value)
      && (forall op :: op in plan.operations && RiskIn(plan.controlDatabase, op) == Some(ControlPlane) ==>
            d.scope.value.role == ControlPlaneAdmin)
    ensures var d := Decide(h, p, r, snapshot); forall op :: op in r.plan.value.operations ==>
      var risk := RiskIn(r.plan.value.controlDatabase, op);
      risk.Some? && Rank(risk.value) <= Ceiling(d.scope.value.role)
    ensures r.action == Acknowledge ==> p.kind == Human
  {
    AllowedPlanIsCovered(h, p, r, snapshot);
    RoleCoversUpToItsCeiling(Decide(h, p, r, snapshot).scope.value.role, r.action,
                             Decide(h, p, r, snapshot).risk.value);
    var d, plan := Decide(h, p, r, snapshot), r.plan.value;
    forall op | op in plan.operations && RiskIn(plan.controlDatabase, op) == Some(ControlPlane)
      ensures d.scope.value.role == ControlPlaneAdmin
    {
      assert PlanRisk(plan)(op) == Some(ControlPlane);
      assert Rank(d.risk.value) >= 5;
    }
  }

  /** An allow without a human: a policy principal, and only listed routine operations on the requested target. */
  lemma PreauthorizedMeansRoutine(h: Hash, p: Principal, r: Request, snapshot: Option<Snapshot>)
    requires Decide(h, p, r, snapshot).allowed && Decide(h, p, r, snapshot).branch == Some(PreauthorizedBranch)
    ensures p.kind == Policy && r.action == Execute && r.plan.Some?
    ensures forall i :: 0 <= i < |r.plan.value.operations| ==>
      var op := r.plan.value.operations[i];
      && op.operationType in PREAUTHORIZED && op.targetID == r.target.resourceID
      && RiskIn(r.plan.value.controlDatabase, op) == Some(Routine)
  {
    assert NeedsPlan(r.action);
    AllowedPlanIsCovered(h, p, r, snapshot);
    var plan := r.plan.value;
    forall i | 0 <= i < |plan.operations| ensures RiskIn(plan.controlDatabase, plan.operations[i]) == Some(Routine) {
      PreauthorizedIsRoutine(plan.controlDatabase, plan.operations[i]);
    }
  }

  /** Everything on the preauthorized list is routine in the table. */
  lemma PreauthorizedIsRoutine(controlDatabase: bool, op: Operation)
    requires op.operationType in PREAUTHORIZED
    ensures RiskIn(controlDatabase, op) == Some(Routine)
  {
  }

  /** An allowed plan is bound to the current revision and epoch, or is the one cutover step that continues a recovery
      into the next epoch. */
  lemma AllowedPlanIsCurrent(h: Hash, p: Principal, r: Request, s: Snapshot)
    requires Decide(h, p, r, Some(s)).allowed && NeedsPlan(r.action)
    ensures r.plan.Some?
    ensures
      || (r.plan.value.recoveryEpoch == s.recoveryEpoch && r.plan.value.stateRevision == s.stateRevision)
      || Continues(r, s)
    ensures r.expected.Some? ==>
      r.expected.value.stateRevision == s.stateRevision && r.expected.value.recoveryEpoch == s.recoveryEpoch
  {
  }

  // ----- every decision can be recorded

  /** The checks ValidDecisionRecord makes of the decision it carries. */
  predicate Recordable(d: Decision) {
    && PathToken(d.principalID) && ValidAction(d.action) && ValidTarget(d.target)
    && d.grantRevision >= 0 && d.stateRevision >= 0 && d.recoveryEpoch >= 0
    && (d.planDigest != "" ==> ValidFingerprint(d.planDigest))
    && (d.scope.Some? ==> ValidFingerprint(d.scope.value.digest))
    && (if d.allowed then
          && d.reason == Allowed && d.scope.Some? && d.scope.value.principalID == d.principalID
          && d.scope.value.action == d.action
          && d.scope.value.target == d.target && d.scope.value.grantRevision == d.grantRevision
          && d.scope.value.stateRevision == d.stateRevision && d.scope.value.recoveryEpoch == d.recoveryEpoch
          && (if NeedsPlan(d.action) then d.branch.Some? && ValidBranch(d.branch.value) else d.branch.None?)
        else d.reason != Allowed && d.branch.None?)
  }

  predicate WellFormed(p: Principal, r: Request) {
    && PathToken(p.id) && ValidAction(r.action) && ValidTarget(r.target)
    && (r.plan.Some? && r.plan.value.planDigest != "" ==> ValidFingerprint(r.plan.value.planDigest))
  }

  predicate NaturalRevisions(s: Snapshot) {
    s.grantRevision >= 0 && s.stateRevision >= 0 && s.recoveryEpoch >= 0
  }

  lemma AllowedIsRecordable(h: Hash, p: Principal, r: Request, s: Snapshot)
    requires YieldsDigests(h) && WellFormed(p, r) && NaturalRevisions(s) && Decide(h, p, r, Some(s)).allowed
    ensures Recordable(Decide(h, p, r, Some(s)))
  {
    var branch := RequestedBranch(r, p).value;
    var risk := if NeedsPlan(r.action) then ClassOf(r.plan.value).value else Routine;
    AllowedMeansGranted(h, p, r, s, branch, risk);
    var g := FirstMatch(s.grants, r, branch).value;
    assert ValidFingerprint(ScopeDigest(h, s, g, r.target));
  }

  /** Whatever is decided, allow or deny, the decision passes the recorder's checks. */
  lemma DecisionsAreRecordable(h: Hash, p: Principal, r: Request, snapshot: Option<Snapshot>)
    requires YieldsDigests(h) && WellFormed(p, r) && (snapshot.Some? ==> NaturalRevisions(snapshot.value))
    ensures Recordable(Decide(h, p, r, snapshot))
  {
    var d := Decide(h, p, r, snapshot);
    if d.allowed {
      AllowedIsRecordable(h, p, r, snapshot.value);
    } else {
      DenialsHaveNoScope(h, p, r, snapshot);
    }
  }

  lemma DenialsHaveNoScope(h: Hash, p: Principal, r: Request, snapshot: Option<Snapshot>)
    requires !Decide(h, p, r, snapshot).allowed
    ensures var d := Decide(h, p, r, snapshot);
      && d.reason != Allowed && d.branch.None? && d.scope.None? && d.principalID == p.id && d.action == r.action
      && d.target == r.target
      && d.planDigest == (if r.plan.Some? then r.plan.value.planDigest else "")
  {
    if snapshot.Some? && RequestedBranch(r, p).Some? {
      var s, branch := snapshot.value, RequestedBranch(r, p).value;
      if NeedsPlan(r.action) && r.plan.Some? && ClassOf(r.plan.value).Some? {
        FaultIsNotAllowed(h, p, r, s, branch, ClassOf(r.plan.value).value);
      }
      FaultIsNotAllowed(h, p, r, s, branch, Routine);
    }
  }

  lemma FaultIsNotAllowed(h: Hash, p: Principal, r: Request, s: Snapshot, branch: Option<Branch>, risk: Risk)
    ensures Fault(h, p, r, s, branch, risk) != Some(Allowed)
  {
  }

  // ----- the order of grants

  /** Everything but the grants is in order. */
  predicate OtherwiseFine(p: Principal, r: Request, s: Snapshot, branch: Option<Branch>, risk: Risk) {
    && PlanFault(r, s).None? && (r.action == Acknowledge ==> p.kind == Human)
    && (branch == Some(PreauthorizedBranch) ==> MayPreauthorize(p, r, risk))
    && (r.plan.Some? ==> PlanContains(r.plan.value, r.target.resourceID))
    && s.active && s.grantRevision > 0 && s.stateRevision >= 0 && s.recoveryEpoch >= 0 && PathToken(s.principalID)
    && !s.principalKind.UnknownKind? && ValidTarget(r.target)
  }

  ghost predicate AllMatchesSuffice(grants: seq<Grant>, r: Request, branch: Option<Branch>, risk: Risk) {
    && (exists g :: g in grants && Matches(g, r, branch))
    && (forall g :: g in grants && Matches(g, r, branch) ==> RoleAllows(g.role, r.action, risk))
  }

  lemma FaultOfGrants(h: Hash, p: Principal, r: Request, s: Snapshot, branch: Option<Branch>, risk: Risk)
    requires OtherwiseFine(p, r, s, branch, risk)
    ensures var g := FirstMatch(s.grants, r, branch);
      && (Fault(h, p, r, s, branch, risk).None? <==> g.Some? && RoleAllows(g.value.role, r.action, risk))
      && (g.Some? && !RoleAllows(g.value.role, r.action, risk) ==>
            Fault(h, p, r, s, branch, risk) == Some(RoleInsufficient))
  {
    FirstMatchMatches(s.grants, r, branch);
  }

  /** Of the evaluator alone, whatever lists the grants: only the first matching grant counts. An allow survives every
      reordering of the grants exactly when all matching grants have a sufficient role; otherwise putting an
      insufficient one first refuses. */
  lemma GrantOrderMattersExactly(h: Hash, p: Principal, r: Request, s: Snapshot, branch: Option<Branch>, risk: Risk)
    requires OtherwiseFine(p, r, s, branch, risk)
    ensures AllMatchesSuffice(s.grants, r, branch, risk) <==>
      forall grants :: multiset(grants) == multiset(s.grants) ==>
        Fault(h, p, r, s.(grants := grants), branch, risk).None?
  {
    if AllMatchesSuffice(s.grants, r, branch, risk) {
      forall grants | multiset(grants) == multiset(s.grants)
        ensures Fault(h, p, r, s.(grants := grants), branch, risk).None?
      {
        SufficientInAnyOrder(h, p, r, s, branch, risk, grants);
      }
    } else {
      var grants := RefusedInSomeOrder(h, p, r, s, branch, risk);
      assert multiset(grants) == multiset(s.grants);
    }
  }

  lemma SufficientInAnyOrder(h: Hash, p: Principal, r: Request, s: Snapshot, branch: Option<Branch>, risk: Risk,
                             grants: seq<Grant>)
    requires OtherwiseFine(p, r, s, branch, risk) && AllMatchesSuffice(s.grants, r, branch, risk)
    requires multiset(grants) == multiset(s.grants)
    ensures Fault(h, p, r, s.(grants := grants), branch, risk).None?
  {
    SameElements(grants, s.grants);
    FirstMatchMatches(grants, r, branch);
    FaultOfGrants(h, p, r, s.(grants := grants), branch, risk);
  }

  lemma RefusedInSomeOrder(h: Hash, p: Principal, r: Request, s: Snapshot, branch: Option<Branch>, risk: Risk)
      returns (grants: seq<Grant>)
    requires OtherwiseFine(p, r, s, branch, risk) && !AllMatchesSuffice(s.grants, r, branch, risk)
    ensures multiset(grants) == multiset(s.grants) && Fault(h, p, r, s.(grants := grants), branch, risk).Some?
  {
    grants := InsufficientFirst(s.grants, r, branch, risk);
    FaultOfGrants(h, p, r, s.(grants := grants), branch, risk);
  }

  lemma InsufficientFirst(grants: seq<Grant>, r: Request, branch: Option<Branch>, risk: Risk)
      returns (reordered: seq<Grant>)
    requires !AllMatchesSuffice(grants, r, branch, risk)
    ensures multiset(reordered) == multiset(grants)
    ensures var g := FirstMatch(reordered, r, branch); g.Some? ==> !RoleAllows(g.value.role, r.action, risk)
  {
    if g :| g in grants && Matches(g, r, branch) && !RoleAllows(g.role, r.action, risk) {
      var k :| 0 <= k < |grants| && grants[k] == g;
      reordered := [g] + Without(grants, k);
      RemoveAt(grants, k);
    } else {
      reordered := grants;
      FirstMatchMatches(grants, r, branch);
    }
  }

  // ----- one-step plans

  /** Executing a plan of one step on the target. */
  function OneStep(t: Target, operationType: string, risk: Risk, branch: Branch): Request {
    var op := Operation(1, operationType, "core", t.resourceID, []);
    Request(Execute, t, Some(Plan("", RiskName(risk), branch, 0, 0, [op], false, {})), [branch], None, false)
  }

  function GrantOn(t: Target, role: Role, branch: Branch): Grant {
    Grant(role, Execute, t.capability, t.resourceKind, t.resourceID, branch)
  }

  function Holding(p: Principal, grants: seq<Grant>): Snapshot {
    Snapshot(p.id, p.kind, true, 1, 0, 0, grants)
  }

  lemma OneStepClass(t: Target, operationType: string, risk: Risk, branch: Branch)
    requires OperationRisk(operationType) == Some(risk)
    ensures ClassOf(OneStep(t, operationType, risk, branch).plan.value) == Some(risk)
  {
    var plan := OneStep(t, operationType, risk, branch).plan.value;
    var op := plan.operations[0];
    assert Sequences(plan.operations) == UpTo(1);
    assert PlanRisk(plan)(op) == Some(risk) && op in plan.operations;
    assert ClassifiedAs(PlanRisk(plan), plan.operations, plan.risk, risk);
    GreatestIsUnique(PlanRisk(plan), plan.operations, risk, ClassOf(plan).value);
  }

  /** Past the checks of the principal, the snapshot, the branch and the class, the first fault decides. */
  lemma FaultDecides(h: Hash, p: Principal, r: Request, s: Snapshot, branch: Option<Branch>, risk: Risk)
    requires ValidPrincipal(p) && ValidTarget(r.target) && r.action == Execute && r.plan.Some? && SnapshotUsable(p, s)
    requires StaleBinding(r, s).None? && RequestedBranch(r, p) == Some(branch) && ClassOf(r.plan.value) == Some(risk)
    ensures var fault := Fault(h, p, r, s, branch, risk); var d := Decide(h, p, r, Some(s));
      && d.allowed == fault.None? && d.branch == (if fault.None? then branch else None)
      && d.reason == (if fault.Some? then fault.value else Allowed)
  {
  }

  predicate MayRun(p: Principal, operationType: string, branch: Branch) {
    || (branch == HumanBranch && p.kind != Policy)
    || (branch == PreauthorizedBranch && p.kind == Policy && operationType in PREAUTHORIZED)
  }

  lemma OneStepIsFine(p: Principal, t: Target, operationType: string, risk: Risk, branch: Branch, grants: seq<Grant>)
    requires ValidPrincipal(p) && ValidTarget(t) && OperationRisk(operationType) == Some(risk)
    requires MayRun(p, operationType, branch)
    ensures var r, s := OneStep(t, operationType, risk, branch), Holding(p, grants);
      && SnapshotUsable(p, s) && StaleBinding(r, s).None? && RequestedBranch(r, p) == Some(Some(branch))
      && ClassOf(r.plan.value) == Some(risk) && OtherwiseFine(p, r, s, Some(branch), risk)
  {
    var r := OneStep(t, operationType, risk, branch);
    OneStepClass(t, operationType, risk, branch);
    assert r.plan.value.operations[0].targetID == t.resourceID;
  }

  /** A one-step execution is allowed exactly when the first grant for it has a sufficient role. */
  lemma OneStepDecided(h: Hash, p: Principal, t: Target, operationType: string, risk: Risk, branch: Branch,
                       grants: seq<Grant>)
    requires ValidPrincipal(p) && ValidTarget(t) && OperationRisk(operationType) == Some(risk)
    requires MayRun(p, operationType, branch)
    ensures var r := OneStep(t, operationType, risk, branch); var d := Decide(h, p, r, Some(Holding(p, grants)));
      var first := FirstMatch(grants, r, Some(branch));
      && (d.allowed <==> first.Some? && RoleAllows(first.value.role, Execute, risk))
      && (d.allowed ==> d.branch == Some(branch)) && (first.Some? && !d.allowed ==> d.reason == RoleInsufficient)
  {
    var r, s := OneStep(t, operationType, risk, branch), Holding(p, grants);
    OneStepIsFine(p, t, operationType, risk, branch, grants);
    FaultDecides(h, p, r, s, Some(branch), risk);
    FaultOfGrants(h, p, r, s, Some(branch), risk);
  }

  /** With a grant for the target listed first, its role alone decides. */
  lemma FirstGrantDecides(h: Hash, p: Principal, t: Target, operationType: string, risk: Risk, branch: Branch,
                          role: Role, rest: seq<Grant>)
    requires ValidPrincipal(p) && ValidTarget(t) && OperationRisk(operationType) == Some(risk)
    requires MayRun(p, operationType, branch)
    requires !role.UnknownRole? && (role == PreauthorizedExecutor <==> branch == PreauthorizedBranch)
    ensures var d := Decide(h, p, OneStep(t, operationType, risk, branch),
                            Some(Holding(p, [GrantOn(t, role, branch)] + rest)));
      if RoleAllows(role, Execute, risk) then d.allowed && d.branch == Some(branch)
      else !d.allowed && d.reason == RoleInsufficient
  {
    var g, r := GrantOn(t, role, branch), OneStep(t, operationType, risk, branch);
    OneStepDecided(h, p, t, operationType, risk, branch, [g] + rest);
    assert Matches(g, r, Some(branch)) && ([g] + rest)[0] == g;
  }

  /** A schedule runs every listed operation without a human, on the grant made for it. */
  lemma ScheduledIsAllowed(h: Hash, p: Principal, t: Target, operationType: string, rest: seq<Grant>)
    requires ValidPrincipal(p) && p.kind == Policy && ValidTarget(t) && operationType in PREAUTHORIZED
    ensures var d := Decide(h, p, OneStep(t, operationType, Routine, PreauthorizedBranch),
                            Some(Holding(p, [GrantOn(t, PreauthorizedExecutor, PreauthorizedBranch)] + rest)));
      d.allowed && d.branch == Some(PreauthorizedBranch)
  {
    PreauthorizedIsRoutine(false, Operation(1, operationType, "", "", []));
    FirstGrantDecides(h, p, t, operationType, Routine, PreauthorizedBranch, PreauthorizedExecutor, rest);
  }

  /** Such principals, targets and operations exist. */
  lemma SampleIsValid(kind: Kind)
    requires !kind.UnknownKind?
    ensures ValidPrincipal(Principal("p", kind, true)) && ValidTarget(Target("c", "k", "h"))
    ensures "health.check" in PREAUTHORIZED && OperationRisk("control-plane.change") == Some(ControlPlane)
  {
  }
}
