/** What an allow of the policy evaluator says, field by field, and the role table for requests without a plan. */
module AuthorizationAllows {
  import opened Text
  import opened AuthorizationRisk
  import opened AuthorizationPolicy
  import opened AuthorizationGuarantees

  // ----- requests without a plan

  /** Reading is for every known role but the preauthorized executor, authoring for all of these but readers, and no
      role covers an unknown action. */
  lemma RolesWithoutAPlan(role: Role, text: string, risk: Risk)
    ensures RoleAllows(role, Read, Routine) <==>
      role in {Reader, AuthorRole, Maintainer, InfrastructureAdmin, ControlPlaneAdmin}
    ensures RoleAllows(role, Author, Routine) <==>
      role in {AuthorRole, Maintainer, InfrastructureAdmin, ControlPlaneAdmin}
    ensures !RoleAllows(role, UnknownAction(text), risk)
  {
  }

  /** Reading or authoring a target, perhaps of a plan. */
  function Plain(action: Action, t: Target, plan: Option<Plan>): Request {
    Request(action, t, plan, [], None, false)
  }

  /** With a grant for it listed first, reading or authoring is decided by the role of that grant alone, whatever the
      revisions of the plan it may belong to. */
  lemma FirstGrantDecidesPlain(h: Hash, p: Principal, t: Target, plan: Option<Plan>, action: Action, role: Role,
                               rest: seq<Grant>)
    requires ValidPrincipal(p) && ValidTarget(t) && (action == Read || action == Author)
    requires plan.Some? ==> t.resourceID in plan.value.otherTargets
    requires !role.UnknownRole? && role != PreauthorizedExecutor
    ensures var g := Grant(role, action, t.capability, t.resourceKind, t.resourceID, NoBranch);
      var d := Decide(h, p, Plain(action, t, plan), Some(Holding(p, [g] + rest)));
      if action == Author && role == Reader then !d.allowed && d.reason == RoleInsufficient
      else d.allowed && d.branch.None? && d.risk.None? && d.scope.Some? && d.scope.value.role == role
  {
    var g := Grant(role, action, t.capability, t.resourceKind, t.resourceID, NoBranch);
    var r, s := Plain(action, t, plan), Holding(p, [g] + rest);
    assert Matches(g, r, None) && s.grants[0] == g;
    PlainFault(h, p, r, s, g);
  }

  lemma PlainFault(h: Hash, p: Principal, r: Request, s: Snapshot, g: Grant)
    requires r == Plain(r.action, r.target, r.plan)
    requires r.plan.Some? ==> r.target.resourceID in r.plan.value.otherTargets
    requires (r.action == Read || r.action == Author) && ValidTarget(r.target)
    requires FirstMatch(s.grants, r, None) == Some(g) && Matches(g, r, None) && s == Holding(p, s.grants)
    requires ValidPrincipal(p) && !g.role.UnknownRole?
    ensures Fault(h, p, r, s, None, Routine) ==
            if r.action == Author && g.role == Reader then Some(RoleInsufficient) else None
    ensures Fault(h, p, r, s, None, Routine).None? ==>
      BindScope(h, s, g, r.target).Some? && BindScope(h, s, g, r.target).value.role == g.role
  {
    RolesWithoutAPlan(g.role, "", Routine);
  }

  // ----- every allow

  /** Every allow is of an accepted principal with an active snapshot of its own, at the revisions it was asked with, if
      any; a recovery continuation may leave the grant revision open. */
  lemma AllowIsCurrent(h: Hash, p: Principal, r: Request, s: Snapshot)
    requires Decide(h, p, r, Some(s)).allowed
    ensures PathToken(p.id) && !p.kind.UnknownKind? && p.methodAccepted && ValidTarget(r.target)
    ensures s.principalID == p.id && s.principalKind == p.kind && s.active && s.grantRevision > 0
    ensures s.stateRevision >= 0 && s.recoveryEpoch >= 0
    ensures r.expected.Some? ==>
      var e := r.expected.value;
      && e.stateRevision == s.stateRevision && e.recoveryEpoch == s.recoveryEpoch
      && (e.grantRevision == s.grantRevision || (r.recoveryContinuation && e.grantRevision == 0))
  {
  }

  /** No policy principal is allowed on the human branch, a request without a plan action names no branch, and one with
      a plan action names exactly the branch of its plan. */
  lemma AllowIsOnItsBranch(h: Hash, p: Principal, r: Request, s: Snapshot)
    requires Decide(h, p, r, Some(s)).allowed
    ensures r.action in {Read, Author, Acknowledge, Execute}
    ensures r.action in {Read, Author} ==> r.branches == [] && Decide(h, p, r, Some(s)).branch.None?
    ensures r.action in {Acknowledge, Execute} ==>
      && r.plan.Some? && r.branches == [r.plan.value.branch]
      && r.plan.value.branch in {HumanBranch, PreauthorizedBranch}
      && Decide(h, p, r, Some(s)).branch == Some(r.plan.value.branch)
      && (r.plan.value.branch == HumanBranch ==> p.kind != Policy)
  {
    assert |r.branches| == 1 ==> r.branches == [r.branches[0]];
  }

  /** When a plan is given, the target is one of its own: another target of the plan, or the target or a resource of one
      of its operations. */
  lemma AllowIsOnThePlan(h: Hash, p: Principal, r: Request, s: Snapshot)
    requires Decide(h, p, r, Some(s)).allowed && r.plan.Some?
    ensures
      || r.target.resourceID in r.plan.value.otherTargets
      || exists op :: && op in r.plan.value.operations
                      && (op.targetID == r.target.resourceID || r.target.resourceID in op.resourceIDs)
  {
    var plan := r.plan.value;
    assert PlanContains(plan, r.target.resourceID);
    if r.target.resourceID !in plan.otherTargets {
      var i :| 0 <= i < |plan.operations| &&
        (r.target.resourceID in plan.operations[i].resourceIDs || r.target.resourceID == plan.operations[i].targetID);
      assert plan.operations[i] in plan.operations;
    }
  }

  /** An allowed plan that is not at the current revision and epoch is the execution, by a human, of the one cutover
      step of a recovery from the epoch before. */
  lemma StalePlanIsACutover(h: Hash, p: Principal, r: Request, s: Snapshot)
    requires Decide(h, p, r, Some(s)).allowed && r.action in {Acknowledge, Execute}
    ensures r.plan.Some?
    ensures var plan := r.plan.value;
      plan.recoveryEpoch != s.recoveryEpoch || plan.stateRevision != s.stateRevision ==>
      && r.action == Execute && r.recoveryContinuation && r.expected.Some? && plan.branch == HumanBranch
      && plan.risk == "control-plane" && plan.recoveryEpoch + 1 == s.recoveryEpoch <= 0x7fff_ffff_ffff_ffff
      && |plan.operations| == 1 && plan.operations[0].operationType == "recovery.restore.cutover"
      && plan.operations[0].adapterID == "core.recovery" && plan.operations[0].targetID == r.target.resourceID
  {
  }

  /** And such a cutover is allowed to a human on a control-plane admin grant listed first. */
  lemma CutoverIsAllowed(h: Hash, p: Principal, t: Target, plan: Plan, s: Snapshot, rest: seq<Grant>)
    requires ValidPrincipal(p) && p.kind != Policy && ValidTarget(t) && s.stateRevision >= 0
    requires s == Snapshot(p.id, p.kind, true, s.grantRevision, s.stateRevision, s.recoveryEpoch,
                           [GrantOn(t, ControlPlaneAdmin, HumanBranch)] + rest) && s.grantRevision > 0
    requires 0 <= plan.recoveryEpoch < 0x7fff_ffff_ffff_ffff && plan.recoveryEpoch + 1 == s.recoveryEpoch
    requires plan.risk == "control-plane" && plan.branch == HumanBranch
    requires plan.operations == [Operation(1, "recovery.restore.cutover", "core.recovery", t.resourceID, [])]
    ensures var expected := RevisionBinding(0, s.stateRevision, s.recoveryEpoch);
      Decide(h, p, Request(Execute, t, Some(plan), [HumanBranch], Some(expected), true), Some(s)).allowed
  {
    var expected := RevisionBinding(0, s.stateRevision, s.recoveryEpoch);
    var r := Request(Execute, t, Some(plan), [HumanBranch], Some(expected), true);
    CutoverClass(plan, t.resourceID);
    var g := GrantOn(t, ControlPlaneAdmin, HumanBranch);
    assert Matches(g, r, Some(HumanBranch)) && s.grants[0] == g;
    assert plan.operations[0].targetID == t.resourceID;
    FaultOfGrants(h, p, r, s, Some(HumanBranch), ControlPlane);
    FaultDecides(h, p, r, s, Some(HumanBranch), ControlPlane);
  }

  lemma CutoverClass(plan: Plan, id: string)
    requires plan.operations == [Operation(1, "recovery.restore.cutover", "core.recovery", id, [])]
    requires plan.risk == "control-plane"
    ensures ClassOf(plan) == Some(ControlPlane)
  {
    var op := plan.operations[0];
    assert Sequences(plan.operations) == UpTo(1);
    assert PlanRisk(plan)(op) == Some(ControlPlane) && op in plan.operations;
    assert ClassifiedAs(PlanRisk(plan), plan.operations, plan.risk, ControlPlane);
    GreatestIsUnique(PlanRisk(plan), plan.operations, ControlPlane, ClassOf(plan).value);
  }

  /** The scope of an allow is that of a listed grant for exactly this action and target, whose role fits its branch. */
  lemma AllowIsOfAGrant(h: Hash, p: Principal, r: Request, s: Snapshot) returns (g: Grant)
    requires Decide(h, p, r, Some(s)).allowed
    ensures g in s.grants && g.action == r.action && !g.role.UnknownRole?
    ensures r.target == Target(g.capability, g.resourceKind, g.resourceID)
    ensures g.branch == (if r.action in {Acknowledge, Execute} && r.plan.Some? then r.plan.value.branch else NoBranch)
    ensures g.role == PreauthorizedExecutor <==> g.branch == PreauthorizedBranch
    ensures g.role == PreauthorizedExecutor ==> r.action == Execute
    ensures Decide(h, p, r, Some(s)).scope ==
      Some(Scope(p.id, r.action, r.target, g.role, s.grantRevision, s.stateRevision, s.recoveryEpoch,
                 h(JoinWith(ScopeParts(s, g, r.target), NUL))))
  {
    AllowIsOnItsBranch(h, p, r, s);
    g := GrantOfAllow(h, p, r, s);
  }

  lemma GrantOfAllow(h: Hash, p: Principal, r: Request, s: Snapshot) returns (g: Grant)
    requires Decide(h, p, r, Some(s)).allowed
    ensures RequestedBranch(r, p).Some? && g in s.grants && Matches(g, r, RequestedBranch(r, p).value)
    ensures BindScope(h, s, g, r.target).Some? && SnapshotUsable(p, s)
    ensures Decide(h, p, r, Some(s)).scope == BindScope(h, s, g, r.target)
  {
    var branch := RequestedBranch(r, p).value;
    var risk := if NeedsPlan(r.action) then ClassOf(r.plan.value).value else Routine;
    AllowedMeansGranted(h, p, r, s, branch, risk);
    g := FirstMatch(s.grants, r, branch).value;
  }

  // ----- denials before the plan is looked at

  /** The reasons that do not depend on plan or grants, in the order in which they are found. */
  lemma EarlyDenials(h: Hash, p: Principal, r: Request, snapshot: Option<Snapshot>)
    ensures var d := Decide(h, p, r, snapshot);
      && (d.reason == AuthenticationRequired <==>
            || !PathToken(p.id) || p.kind.UnknownKind? || !p.methodAccepted || r.action.UnknownAction?
            || !PathToken(r.target.capability) || !PathToken(r.target.resourceKind) || !PathToken(r.target.resourceID))
      && (d.reason != AuthenticationRequired && snapshot.None? ==> d.reason == PolicyUnavailable)
    ensures var d := Decide(h, p, r, snapshot);
      d.reason != AuthenticationRequired && snapshot.Some? ==>
        var s := snapshot.value;
        && (d.reason == PolicyInactive <==>
              s.principalID != p.id || s.principalKind != p.kind || !s.active || s.grantRevision <= 0)
        && (d.reason == GrantRevisionStale <==>
              && d.reason != PolicyInactive && r.expected.Some? && r.expected.value.grantRevision != s.grantRevision
              && !(r.recoveryContinuation && r.expected.value.grantRevision == 0))
  {
  }

  // ----- the digest of a scope

  lemma RoleTextInjective(a: Role, b: Role)
    requires !a.UnknownRole? && !b.UnknownRole? && RoleText(a) == RoleText(b)
    ensures a == b
  {
    assert RoleText(a)[0] == RoleText(b)[0];
  }

  lemma KindTextInjective(a: Kind, b: Kind)
    requires !a.UnknownKind? && !b.UnknownKind? && KindText(a) == KindText(b)
    ensures a == b
  {
    assert KindText(a)[0] == KindText(b)[0];
  }

  lemma ActionTextInjective(a: Action, b: Action)
    requires ValidAction(a) && ValidAction(b) && ActionText(a) == ActionText(b)
    ensures a == b
  {
    assert ActionText(a)[1] == ActionText(b)[1];
  }

  lemma RoleHasNoNul(role: Role)
    requires !role.UnknownRole?
    ensures NoNul(RoleText(role))
  {
  }

  lemma KindHasNoNul(k: Kind)
    requires !k.UnknownKind?
    ensures NoNul(KindText(k))
  {
  }

  lemma ActionHasNoNul(a: Action)
    requires ValidAction(a)
    ensures NoNul(ActionText(a)) && NoNul("effective-scope-v1")
  {
  }

  lemma PartsHaveNoNul(h: Hash, s: Snapshot, g: Grant, t: Target)
    requires BindScope(h, s, g, t).Some?
    ensures forall i :: 0 <= i < |ScopeParts(s, g, t)| ==> NoNul(ScopeParts(s, g, t)[i])
  {
    KindHasNoNul(s.principalKind);
    RoleHasNoNul(g.role);
    ActionHasNoNul(g.action);
    PathTokenHasNoNul(s.principalID);
    PathTokenHasNoNul(t.capability);
    PathTokenHasNoNul(t.resourceKind);
    PathTokenHasNoNul(t.resourceID);
    FormatIntHasNoNul(s.grantRevision);
    FormatIntHasNoNul(s.stateRevision);
    FormatIntHasNoNul(s.recoveryEpoch);
  }

  /** The text behind a scope's digest determines the principal and its kind, role, action, target and all three
      revisions. */
  lemma ScopeTextDeterminesScope(h: Hash, s: Snapshot, g: Grant, t: Target, s': Snapshot, g': Grant, t': Target)
    requires BindScope(h, s, g, t).Some? && BindScope(h, s', g', t').Some?
    requires JoinWith(ScopeParts(s, g, t), NUL) == JoinWith(ScopeParts(s', g', t'), NUL)
    ensures s.principalID == s'.principalID && s.principalKind == s'.principalKind && g.role == g'.role
    ensures g.action == g'.action && t == t' && s.grantRevision == s'.grantRevision
    ensures s.stateRevision == s'.stateRevision && s.recoveryEpoch == s'.recoveryEpoch
  {
    PartsHaveNoNul(h, s, g, t);
    PartsHaveNoNul(h, s', g', t');
    JoinNulInjective(ScopeParts(s, g, t), ScopeParts(s', g', t'));
    PartsDetermine(s, g, t, s', g', t');
  }

  lemma PartsDetermine(s: Snapshot, g: Grant, t: Target, s': Snapshot, g': Grant, t': Target)
    requires ScopeParts(s, g, t) == ScopeParts(s', g', t')
    requires !s.principalKind.UnknownKind? && !s'.principalKind.UnknownKind? && ValidGrant(g) && ValidGrant(g')
    ensures s.principalID == s'.principalID && s.principalKind == s'.principalKind && g.role == g'.role
    ensures g.action == g'.action && t == t' && s.grantRevision == s'.grantRevision
    ensures s.stateRevision == s'.stateRevision && s.recoveryEpoch == s'.recoveryEpoch
  {
    var a, b := ScopeParts(s, g, t), ScopeParts(s', g', t');
    assert a[1] == b[1] && a[2] == b[2] && a[3] == b[3] && a[4] == b[4] && a[5] == b[5] && a[6] == b[6] && a[7] == b[7];
    assert a[8] == b[8] && a[9] == b[9] && a[10] == b[10];
    KindTextInjective(s.principalKind, s'.principalKind);
    RoleTextInjective(g.role, g'.role);
    ActionTextInjective(g.action, g'.action);
    FormatIntInjective(s.grantRevision, s'.grantRevision);
    FormatIntInjective(s.stateRevision, s'.stateRevision);
    FormatIntInjective(s.recoveryEpoch, s'.recoveryEpoch);
  }
}
