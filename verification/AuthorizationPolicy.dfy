/** The policy evaluator: who may read, author, acknowledge or execute what. */
module AuthorizationPolicy {
  import opened Text
  import opened AuthorizationRisk

  datatype Action = Read | Author | Acknowledge | Execute | UnknownAction(text: string)

  datatype Role =
    | Reader | AuthorRole | Maintainer | InfrastructureAdmin | ControlPlaneAdmin | PreauthorizedExecutor
    | UnknownRole(text: string)

  /** The empty branch is `NoBranch`. */
  datatype Branch = NoBranch | HumanBranch | PreauthorizedBranch | UnknownBranch(text: string)

  datatype Kind = Human | Agent | Policy | UnknownKind(text: string)

  /** `kind` is the effective kind; `methodAccepted` the check of the login method and device. */
  datatype Principal = Principal(id: string, kind: Kind, methodAccepted: bool)

  datatype Target = Target(capability: string, resourceKind: string, resourceID: string)

  datatype Grant = Grant(role: Role, action: Action, capability: string, resourceKind: string, resourceID: string,
                         branch: Branch)

  datatype Snapshot = Snapshot(
    principalID: string, principalKind: Kind, active: bool, grantRevision: int, stateRevision: int, recoveryEpoch: int,
    grants: seq<Grant>)

  /** `otherTargets` are the hosts of the baseline scope, the auxiliary hosts and the frozen source of a receive
      action. */
  datatype Plan = Plan(
    planDigest: string, risk: string, branch: Branch, stateRevision: int, recoveryEpoch: int,
    operations: seq<Operation>, controlDatabase: bool, otherTargets: set<string>)

  datatype RevisionBinding = RevisionBinding(grantRevision: int, stateRevision: int, recoveryEpoch: int)

  datatype Request = Request(
    action: Action, target: Target, plan: Option<Plan>, branches: seq<Branch>, expected: Option<RevisionBinding>,
    recoveryContinuation: bool)

  datatype Reason =
    | Allowed | AuthenticationRequired | PolicyUnavailable | PolicyInactive | GrantRevisionStale | StateRevisionStale
    | RecoveryEpochMismatch | GrantMissing | RoleInsufficient | AgentCannotAcknowledge | AuthorizationBranch
    | RiskUnknown | PreauthorizationDenied | TargetMismatch

  datatype Scope = Scope(
    principalID: string, action: Action, target: Target, role: Role, grantRevision: int, stateRevision: int,
    recoveryEpoch: int, digest: string)

  datatype Decision = Decision(
    principalID: string, action: Action, target: Target, allowed: bool, branch: Option<Branch>, reason: Reason,
    grantRevision: int, stateRevision: int, recoveryEpoch: int, planDigest: string, risk: Option<Risk>,
    scope: Option<Scope>)

  const MAX_INT64: int := 0x7fff_ffff_ffff_ffff

  predicate ValidPrincipal(p: Principal) { PathToken(p.id) && !p.kind.UnknownKind? && p.methodAccepted }

  predicate ValidAction(a: Action) { !a.UnknownAction? }

  predicate ValidBranch(b: Branch) { b == HumanBranch || b == PreauthorizedBranch }

  predicate ValidTarget(t: Target) { PathToken(t.capability) && PathToken(t.resourceKind) && PathToken(t.resourceID) }

  predicate NeedsPlan(a: Action) { a == Acknowledge || a == Execute }

  // ----- plans

  function PlanRisk(plan: Plan): RiskOf {
    (op: Operation) => RiskIn(plan.controlDatabase, op)
  }

  ghost function ClassOf(plan: Plan): Option<Risk> {
    if exists r :: ClassifiedAs(PlanRisk(plan), plan.operations, plan.risk, r)
    then
      var r :| ClassifiedAs(PlanRisk(plan), plan.operations, plan.risk, r);
      Some(r)
    else None
  }

  method Classify(plan: Plan) returns (r: Option<Risk>)
    ensures r == ClassOf(plan)
  {
    r := ClassifyPlan(PlanRisk(plan), plan.operations, plan.risk);
    if r.Some? && ClassOf(plan).Some? {
      GreatestIsUnique(PlanRisk(plan), plan.operations, r.value, ClassOf(plan).value);
    }
  }

  predicate PlanContains(plan: Plan, id: string) {
    || id in plan.otherTargets
    || exists i ::
         0 <= i < |plan.operations| && (id in plan.operations[i].resourceIDs || id == plan.operations[i].targetID)
  }

  predicate Continues(r: Request, s: Snapshot) {
    && r.recoveryContinuation && r.action == Execute && r.plan.Some? && r.expected.Some?
    && r.expected.value.stateRevision == s.stateRevision && r.expected.value.recoveryEpoch == s.recoveryEpoch
    && r.plan.value.risk == RiskName(ControlPlane) && r.plan.value.branch == HumanBranch
    && |r.plan.value.operations| == 1
    && r.plan.value.recoveryEpoch < MAX_INT64 && r.plan.value.recoveryEpoch + 1 == s.recoveryEpoch
    && r.plan.value.operations[0].operationType == "recovery.restore.cutover"
    && r.plan.value.operations[0].adapterID == "core.recovery"
    && r.plan.value.operations[0].targetID == r.target.resourceID
  }

  predicate MayPreauthorize(p: Principal, r: Request, risk: Risk) {
    && p.kind == Policy && risk == Routine && r.plan.Some?
    && (forall i :: 0 <= i < |r.plan.value.operations| ==>
          && r.plan.value.operations[i].operationType in PREAUTHORIZED
          && r.plan.value.operations[i].targetID == r.target.resourceID)
    && PlanContains(r.plan.value, r.target.resourceID)
  }

  // ----- grants

  predicate ValidGrant(g: Grant) {
    && !g.role.UnknownRole? && ValidAction(g.action) && PathToken(g.capability) && PathToken(g.resourceKind)
    && PathToken(g.resourceID)
    && (if g.action == Read || g.action == Author then g.branch == NoBranch && g.role != PreauthorizedExecutor
        else && ValidBranch(g.branch)
             && if g.role == PreauthorizedExecutor then g.action == Execute && g.branch == PreauthorizedBranch
                else g.branch != PreauthorizedBranch)
  }

  predicate Relevant(g: Grant, r: Request) {
    && ValidGrant(g) && g.action == r.action && g.capability == r.target.capability
    && g.resourceKind == r.target.resourceKind
  }

  predicate Matches(g: Grant, r: Request, branch: Option<Branch>) {
    && Relevant(g, r) && g.resourceID == r.target.resourceID
    && (if branch.Some? then g.branch == branch.value else g.branch == NoBranch)
  }

  function FirstMatch(grants: seq<Grant>, r: Request, branch: Option<Branch>): Option<Grant> {
    if grants == [] then None
    else if Matches(grants[0], r, branch) then Some(grants[0])
    else FirstMatch(grants[1..], r, branch)
  }

  predicate MatchesElsewhere(grants: seq<Grant>, r: Request) {
    exists i :: 0 <= i < |grants| && Relevant(grants[i], r) && grants[i].resourceID != r.target.resourceID
  }

  method MatchingGrant(grants: seq<Grant>, r: Request, branch: Option<Branch>)
      returns (found: Option<Grant>, elsewhere: bool)
    ensures found == FirstMatch(grants, r, branch)
    ensures found.None? ==> elsewhere == MatchesElsewhere(grants, r)
  {
    elsewhere := false;
    for i := 0 to |grants|
      invariant FirstMatch(grants, r, branch) == FirstMatch(grants[i..], r, branch)
      invariant elsewhere == MatchesElsewhere(grants[..i], r)
    {
      var g := grants[i];
      assert grants[i..][1..] == grants[i + 1..] && grants[..i + 1] == grants[..i] + [g];
      ElsewhereGrows(grants, i, r);
      if !Relevant(g, r) {
        continue;
      }
      if g.resourceID != r.target.resourceID {
        elsewhere := true;
        continue;
      }
      if branch.Some? && g.branch != branch.value {
        continue;
      }
      if branch.None? && g.branch != NoBranch {
        continue;
      }
      return Some(g), false;
    }
    assert grants[..|grants|] == grants;
    found := None;
  }

  lemma ElsewhereGrows(grants: seq<Grant>, i: nat, r: Request)
    requires i < |grants|
    ensures MatchesElsewhere(grants[..i + 1], r) <==>
      MatchesElsewhere(grants[..i], r) || (Relevant(grants[i], r) && grants[i].resourceID != r.target.resourceID)
  {
    var more := grants[..i + 1];
    assert forall k :: 0 <= k < i ==> more[k] == grants[..i][k];
    assert more[i] == grants[i];
  }

  predicate RoleAllows(role: Role, action: Action, risk: Risk) {
    match role
    case Reader => action == Read
    case AuthorRole => action == Read || action == Author
    case Maintainer =>
      action == Read || action == Author || (NeedsPlan(action) && (risk == Routine || risk == ProductionLike))
    case InfrastructureAdmin => ValidAction(action) && risk != ControlPlane
    case ControlPlaneAdmin => ValidAction(action)
    case PreauthorizedExecutor => action == Execute && risk == Routine
    case UnknownRole(_) => false
  }

  // ----- scopes

  function KindText(k: Kind): string {
    match k case Human => "human" case Agent => "agent" case Policy => "policy" case UnknownKind(t) => t
  }

  function RoleText(r: Role): string {
    match r
    case Reader => "reader"
    case AuthorRole => "author"
    case Maintainer => "maintainer"
    case InfrastructureAdmin => "infrastructure-admin"
    case ControlPlaneAdmin => "control-plane-admin"
    case PreauthorizedExecutor => "preauthorized-executor"
    case UnknownRole(t) => t
  }

  function ActionText(a: Action): string {
    match a
    case Read => "read"
    case Author => "author"
    case Acknowledge => "acknowledge"
    case Execute => "execute"
    case UnknownAction(t) => t
  }

  type Hash = string -> string

  ghost predicate YieldsDigests(h: Hash) {
    forall text :: ValidFingerprint(h(text))
  }

  function ScopeParts(s: Snapshot, g: Grant, t: Target): seq<string> {
    ["effective-scope-v1", s.principalID, KindText(s.principalKind), RoleText(g.role), ActionText(g.action),
     t.capability, t.resourceKind, t.resourceID, FormatInt(s.grantRevision), FormatInt(s.stateRevision),
     FormatInt(s.recoveryEpoch)]
  }

  function ScopeDigest(h: Hash, s: Snapshot, g: Grant, t: Target): string {
    h(JoinWith(ScopeParts(s, g, t), NUL))
  }

  function BindScope(h: Hash, s: Snapshot, g: Grant, t: Target): Option<Scope> {
    if !s.active || s.grantRevision <= 0 || s.stateRevision < 0 || s.recoveryEpoch < 0 || !PathToken(s.principalID)
       || s.principalKind.UnknownKind? || !ValidGrant(g) || !ValidTarget(t) || g.capability != t.capability
       || g.resourceKind != t.resourceKind || g.resourceID != t.resourceID then None
    else Some(Scope(s.principalID, g.action, t, g.role, s.grantRevision, s.stateRevision, s.recoveryEpoch,
                    ScopeDigest(h, s, g, t)))
  }

  // ----- the decision

  function Blank(p: Principal, r: Request): Decision {
    Decision(p.id, r.action, r.target, false, None, AuthenticationRequired, 0, 0, 0,
             if r.plan.Some? then r.plan.value.planDigest else "", None, None)
  }

  function StaleBinding(r: Request, s: Snapshot): Option<Reason> {
    if r.expected.None? then None
    else if r.expected.value.grantRevision != s.grantRevision
            && !(r.recoveryContinuation && r.expected.value.grantRevision == 0)
    then Some(GrantRevisionStale)
    else if r.expected.value.recoveryEpoch != s.recoveryEpoch then Some(RecoveryEpochMismatch)
    else if r.expected.value.stateRevision != s.stateRevision then Some(StateRevisionStale)
    else None
  }

  predicate SnapshotUsable(p: Principal, s: Snapshot) {
    s.principalID == p.id && s.principalKind == p.kind && s.active && s.grantRevision > 0
  }

  /** The branch the request runs under; None is a refusal, Some(None) an action without branches. */
  function RequestedBranch(r: Request, p: Principal): Option<Option<Branch>> {
    if r.action == Read || r.action == Author then (if r.branches != [] then None else Some(None))
    else if |r.branches| != 1 || !ValidBranch(r.branches[0]) then None
    else if r.plan.None? || r.plan.value.branch != r.branches[0] then None
    else if r.branches[0] == HumanBranch && p.kind == Policy then None
    else Some(Some(r.branches[0]))
  }

  function PlanFault(r: Request, s: Snapshot): Option<Reason> {
    if !NeedsPlan(r.action) || r.plan.None? || Continues(r, s) then None
    else if r.plan.value.recoveryEpoch != s.recoveryEpoch then Some(RecoveryEpochMismatch)
    else if r.plan.value.stateRevision != s.stateRevision then Some(StateRevisionStale)
    else None
  }

  function GrantFault(h: Hash, r: Request, s: Snapshot, branch: Option<Branch>, risk: Risk): Option<Reason> {
    var found := FirstMatch(s.grants, r, branch);
    if found.None? then Some(if MatchesElsewhere(s.grants, r) then TargetMismatch else GrantMissing)
    else if !RoleAllows(found.value.role, r.action, risk) then Some(RoleInsufficient)
    else if BindScope(h, s, found.value, r.target).None? then Some(PolicyUnavailable)
    else None
  }

  /** The first reason to refuse, once the risk is known. */
  function Fault(h: Hash, p: Principal, r: Request, s: Snapshot, branch: Option<Branch>, risk: Risk): Option<Reason> {
    if PlanFault(r, s).Some? then PlanFault(r, s)
    else if r.action == Acknowledge && p.kind != Human then Some(AgentCannotAcknowledge)
    else if branch == Some(PreauthorizedBranch) && !MayPreauthorize(p, r, risk) then Some(PreauthorizationDenied)
    else if r.plan.Some? && !PlanContains(r.plan.value, r.target.resourceID) then Some(TargetMismatch)
    else GrantFault(h, r, s, branch, risk)
  }

  ghost function Decide(h: Hash, p: Principal, r: Request, snapshot: Option<Snapshot>): Decision {
    var blank := Blank(p, r);
    if !ValidPrincipal(p) || !ValidAction(r.action) || !ValidTarget(r.target) then blank
    else if snapshot.None? then blank.(reason := PolicyUnavailable)
    else
      var s := snapshot.value;
      var d := blank.(grantRevision := s.grantRevision, stateRevision := s.stateRevision,
                      recoveryEpoch := s.recoveryEpoch);
      var branch := RequestedBranch(r, p);
      if !SnapshotUsable(p, s) then d.(reason := PolicyInactive)
      else if StaleBinding(r, s).Some? then d.(reason := StaleBinding(r, s).value)
      else if branch.None? then d.(reason := AuthorizationBranch)
      else if NeedsPlan(r.action) && (r.plan.None? || ClassOf(r.plan.value).None?) then d.(reason := RiskUnknown)
      else
        var risk := if NeedsPlan(r.action) then ClassOf(r.plan.value).value else Routine;
        var known := d.(risk := if NeedsPlan(r.action) then Some(risk) else None);
        var fault := Fault(h, p, r, s, branch.value, risk);
        if fault.Some? then known.(reason := fault.value)
        else known.(allowed := true, reason := Allowed, branch := branch.value,
                    scope := BindScope(h, s, FirstMatch(s.grants, r, branch.value).value, r.target))
  }

  method Authorize(h: Hash, p: Principal, r: Request, snapshot: Option<Snapshot>) returns (decision: Decision)
    ensures decision == Decide(h, p, r, snapshot)
  {
    decision := Blank(p, r);
    if !ValidPrincipal(p) || !ValidAction(r.action) || !ValidTarget(r.target) {
      return;
    }
    if snapshot.None? {
      decision := decision.(reason := PolicyUnavailable);
      return;
    }
    var s := snapshot.value;
    decision := decision.(grantRevision := s.grantRevision, stateRevision := s.stateRevision,
                          recoveryEpoch := s.recoveryEpoch);
    if !SnapshotUsable(p, s) {
      decision := decision.(reason := PolicyInactive);
      return;
    }
    var stale := StaleBinding(r, s);
    if stale.Some? {
      decision := decision.(reason := stale.value);
      return;
    }
    var branch := RequestedBranch(r, p);
    if branch.None? {
      decision := decision.(reason := AuthorizationBranch);
      return;
    }
    var risk := Routine;
    if NeedsPlan(r.action) {
      if r.plan.None? {
        decision := decision.(reason := RiskUnknown);
        return;
      }
      var classified := Classify(r.plan.value);
      if classified.None? {
        decision := decision.(reason := RiskUnknown);
        return;
      }
      risk := classified.value;
      decision := decision.(risk := Some(risk));
    }
    decision := Finish(h, p, r, s, branch.value, risk, decision);
  }

  method Finish(h: Hash, p: Principal, r: Request, s: Snapshot, branch: Option<Branch>, risk: Risk, known: Decision)
      returns (decision: Decision)
    ensures var fault := Fault(h, p, r, s, branch, risk);
      decision == if fault.Some? then known.(reason := fault.value)
                  else known.(allowed := true, reason := Allowed, branch := branch,
                              scope := BindScope(h, s, FirstMatch(s.grants, r, branch).value, r.target))
  {
    var stale := PlanFault(r, s);
    if stale.Some? {
      return known.(reason := stale.value);
    }
    if r.action == Acknowledge && p.kind != Human {
      return known.(reason := AgentCannotAcknowledge);
    }
    if branch == Some(PreauthorizedBranch) && !MayPreauthorize(p, r, risk) {
      return known.(reason := PreauthorizationDenied);
    }
    if r.plan.Some? && !PlanContains(r.plan.value, r.target.resourceID) {
      return known.(reason := TargetMismatch);
    }
    var found, elsewhere := MatchingGrant(s.grants, r, branch);
    if found.None? {
      return known.(reason := if elsewhere then TargetMismatch else GrantMissing);
    }
    if !RoleAllows(found.value.role, r.action, risk) {
      return known.(reason := RoleInsufficient);
    }
    var scope := BindScope(h, s, found.value, r.target);
    if scope.None? {
      return known.(reason := PolicyUnavailable);
    }
    decision := known.(allowed := true, reason := Allowed, branch := branch, scope := scope);
  }
}
