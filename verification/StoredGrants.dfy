/** Decisions on grants in the order the store lists them, which is the byte order of the role's name. */
module StoredGrants {
  import opened Text
  import opened AuthorizationRisk
  import opened AuthorizationPolicy
  import opened AuthorizationGuarantees

  predicate Listed(grants: seq<Grant>) {
    forall i, j :: 0 <= i < j < |grants| ==> !Before(RoleText(grants[j].role), RoleText(grants[i].role))
  }

  /** Where a role's grants come in the list. */
  function Position(role: Role): int {
    match role
    case AuthorRole => 0
    case ControlPlaneAdmin => 1
    case InfrastructureAdmin => 2
    case Maintainer => 3
    case PreauthorizedExecutor => 4
    case Reader => 5
    case UnknownRole(_) => 6
  }

  lemma NamesInOrder(a: Role, b: Role)
    requires !a.UnknownRole? && !b.UnknownRole?
    ensures Before(RoleText(a), RoleText(b)) <==> Position(a) < Position(b)
  {
    assert |RoleText(a)| > 0 && |RoleText(b)| > 0;
    assert RoleText(a)[0] == RoleText(b)[0] ==> a == b;
    BeforeIsTotal(RoleText(a), RoleText(b));
  }

  lemma {:induction false} FirstMatchComesFirst(grants: seq<Grant>, r: Request, branch: Option<Branch>, g: Grant)
    requires Listed(grants) && g in grants && Matches(g, r, branch)
    ensures var first := FirstMatch(grants, r, branch);
      first.Some? && Matches(first.value, r, branch) && Position(first.value.role) <= Position(g.role)
  {
    var k :| 0 <= k < |grants| && grants[k] == g;
    if Matches(grants[0], r, branch) {
      if k > 0 {
        NamesInOrder(g.role, grants[0].role);
      }
    } else {
      assert grants[1..][k - 1] == g;
      FirstMatchComesFirst(grants[1..], r, branch, g);
    }
  }

  /** Apart from the author role, which comes first and covers no plan action, earlier roles cover what later ones
      do. */
  lemma EarlierRolesSuffice(a: Grant, b: Grant, r: Request, branch: Option<Branch>, risk: Risk)
    requires Matches(a, r, branch) && Matches(b, r, branch) && Position(a.role) <= Position(b.role)
    requires RoleAllows(b.role, r.action, risk)
    requires if NeedsPlan(r.action) then a.role != AuthorRole else risk == Routine
    ensures RoleAllows(a.role, r.action, risk)
  {
  }

  ghost predicate SomeSuffices(grants: seq<Grant>, r: Request, branch: Option<Branch>, risk: Risk) {
    exists g :: g in grants && Matches(g, r, branch) && RoleAllows(g.role, r.action, risk)
  }

  ghost predicate AuthorMatches(grants: seq<Grant>, r: Request, branch: Option<Branch>) {
    exists g :: g in grants && Matches(g, r, branch) && g.role == AuthorRole
  }

  lemma FirstMatchSuffices(grants: seq<Grant>, r: Request, branch: Option<Branch>, risk: Risk)
    requires Listed(grants) && (!NeedsPlan(r.action) ==> risk == Routine)
    ensures var first := FirstMatch(grants, r, branch);
      first.Some? && RoleAllows(first.value.role, r.action, risk) <==>
        SomeSuffices(grants, r, branch, risk) && (NeedsPlan(r.action) ==> !AuthorMatches(grants, r, branch))
  {
    FirstMatchMatches(grants, r, branch);
    var first := FirstMatch(grants, r, branch);
    if NeedsPlan(r.action) && AuthorMatches(grants, r, branch) {
      var g :| g in grants && Matches(g, r, branch) && g.role == AuthorRole;
      FirstMatchComesFirst(grants, r, branch, g);
    } else if SomeSuffices(grants, r, branch, risk) {
      var g :| g in grants && Matches(g, r, branch) && RoleAllows(g.role, r.action, risk);
      FirstMatchComesFirst(grants, r, branch, g);
      EarlierRolesSuffice(first.value, g, r, branch, risk);
    }
  }

  /** On grants as the store lists them, a request that is otherwise fine passes exactly when some matching grant has a
      sufficient role and, for a plan action, no matching grant has the author role. */
  lemma StoredGrantsDecideExactly(h: Hash, p: Principal, r: Request, s: Snapshot, branch: Option<Branch>, risk: Risk)
    requires OtherwiseFine(p, r, s, branch, risk) && Listed(s.grants) && (!NeedsPlan(r.action) ==> risk == Routine)
    ensures Fault(h, p, r, s, branch, risk).None? <==>
      && SomeSuffices(s.grants, r, branch, risk)
      && (NeedsPlan(r.action) ==> !AuthorMatches(s.grants, r, branch))
  {
    FaultOfGrants(h, p, r, s, branch, risk);
    FirstMatchSuffices(s.grants, r, branch, risk);
  }

  /** The check of a granted role in a batch of grants. */
  predicate BatchAccepts(g: Grant) {
    && !g.role.UnknownRole? && ValidAction(g.action) && g.role != PreauthorizedExecutor
    && g.branch == (if NeedsPlan(g.action) then HumanBranch else NoBranch)
  }

  /** An author grant for execution, which a batch may carry, is listed first and refuses what the control-plane admin
      grant on the same target allows by itself. */
  lemma TwoGrantsDisagree(h: Hash, p: Principal, t: Target, operationType: string, risk: Risk)
    requires ValidPrincipal(p) && p.kind != Policy && ValidTarget(t) && OperationRisk(operationType) == Some(risk)
    ensures var a, b := GrantOn(t, AuthorRole, HumanBranch), GrantOn(t, ControlPlaneAdmin, HumanBranch);
      var r := OneStep(t, operationType, risk, HumanBranch);
      var d := Decide(h, p, r, Some(Holding(p, [a] + [b])));
      && BatchAccepts(a) && BatchAccepts(b) && Listed([a] + [b])
      && !d.allowed && d.reason == RoleInsufficient && Decide(h, p, r, Some(Holding(p, [b] + []))).allowed
  {
    var a, b := GrantOn(t, AuthorRole, HumanBranch), GrantOn(t, ControlPlaneAdmin, HumanBranch);
    NamesInOrder(ControlPlaneAdmin, AuthorRole);
    FirstGrantDecides(h, p, t, operationType, risk, HumanBranch, AuthorRole, [b]);
    FirstGrantDecides(h, p, t, operationType, risk, HumanBranch, ControlPlaneAdmin, []);
  }
}
