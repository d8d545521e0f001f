/** Authorization that falls back to the owners of a workflow object, and records what it rests on. */
module OwnerFanOut {
  import opened Text
  import opened AuthorizationPolicy
  import opened AuthorizationGuarantees

  /** Inert workflow access that may be answered by the object's owners. */
  predicate WorkflowNavigation(a: Action, t: Target) {
    match t.resourceKind
    case "recovery-point" => a == Author && t.capability == "recovery.restore.author"
    case "declaration" =>
      (a == Author && t.capability == "plan.author") || (a == Read && t.capability == "declaration.read")
    case "plan" =>
      || (a == Author && t.capability == "plan.acknowledgement.request")
      || (a == Read && t.capability in {"plan.read", "plan.acknowledgement.read", "run.read"})
    case "run" => a == Read && t.capability == "run.read"
    case _ => false
  }

  /** Navigation is reading or authoring, and only these: never executing or acknowledging. */
  lemma NavigationIsInert(a: Action, t: Target)
    ensures WorkflowNavigation(a, t) <==> (a, t.capability, t.resourceKind) in {
      (Author, "recovery.restore.author", "recovery-point"), (Author, "plan.author", "declaration"),
      (Read, "declaration.read", "declaration"), (Author, "plan.acknowledgement.request", "plan"),
      (Read, "plan.read", "plan"), (Read, "plan.acknowledgement.read", "plan"), (Read, "run.read", "plan"),
      (Read, "run.read", "run")}
  {
  }

  function OwnerAction(requested: Action, owner: Target): Action {
    if owner.capability == "host.read" && owner.resourceKind == "host" then Read else requested
  }

  predicate WorkflowObject(t: Target) {
    t.resourceKind in {"declaration", "plan", "run"}
  }

  datatype Evaluation = Evaluation(decision: Decision, failed: bool)

  /** The evaluator, the owner resolver and the recorder, as they answer at the n-th step of the run; nothing ties one
      answer to the next. */
  datatype World = World(
    evaluate: (nat, Request) -> Evaluation, owners: (nat, Request) -> Option<seq<Target>>,
    records: (nat, Decision) -> bool)

  /** How deep the owners of a recovery point may go on; other objects are never asked twice. */
  function Depth(rank: Target -> nat, t: Target): nat {
    if t.resourceKind == "recovery-point" then 1 + rank(t) else 0
  }

  predicate RanksFall(rank: Target -> nat, t: Target, owners: seq<Target>) {
    forall owner :: owner in owners && owner.resourceKind == "recovery-point" ==> rank(owner) < rank(t)
  }

  ghost predicate WellFounded(w: World, rank: Target -> nat) {
    forall n, r | w.owners(n, r).Some? && r.target.resourceKind == "recovery-point" ::
      RanksFall(rank, r.target, w.owners(n, r).value)
  }

  function ForOwner(r: Request, owner: Target): Request {
    r.(target := owner, action := OwnerAction(r.action, owner))
  }

  // ----- what a success rests on

  datatype Ground = Direct(decision: Decision) | Owners(targets: seq<Target>, grounds: seq<Ground>)

  /** The scope a ground yields: its own, or that of the first owner. */
  function ScopeOf(g: Ground): Option<Scope> {
    match g
    case Direct(d) => d.scope
    case Owners(_, grounds) => if grounds == [] then None else ScopeOf(grounds[0])
  }

  predicate SameRevisions(a: Option<Scope>, b: Option<Scope>) {
    && a.Some? && b.Some? && a.value.stateRevision == b.value.stateRevision
    && a.value.recoveryEpoch == b.value.recoveryEpoch
    && a.value.grantRevision == b.value.grantRevision
  }

  /** An allow for exactly this principal and request, valid and already recorded. */
  predicate Supports(recorded: seq<Decision>, p: Principal, r: Request, d: Decision) {
    d in recorded && d.allowed && Recordable(d) && d.principalID == p.id && d.action == r.action && d.target == r.target
  }

  /** A direct allow, or 1 to 64 owners each grounded in turn at one state, epoch and grant revision. */
  predicate Grounded(recorded: seq<Decision>, p: Principal, r: Request, g: Ground)
    decreases g
  {
    match g
    case Direct(d) => Supports(recorded, p, r, d)
    case Owners(targets, grounds) =>
      && 1 <= |targets| <= 64 && |grounds| == |targets| && WorkflowNavigation(r.action, r.target) && r.plan.None?
      && r.branches == []
      && (forall i :: 0 <= i < |targets| ==> targets[i] != r.target && !WorkflowObject(targets[i]))
      && (forall i :: 0 <= i < |grounds| ==> Grounded(recorded, p, ForOwner(r, targets[i]), grounds[i]))
      && (forall i :: 0 <= i < |grounds| ==> SameRevisions(ScopeOf(grounds[i]), ScopeOf(g)))
  }

  /** The decisions at the bottom of a ground. */
  function Leaves(g: Ground): set<Decision> {
    match g
    case Direct(d) => {d}
    case Owners(_, grounds) => set i, d | 0 <= i < |grounds| && d in Leaves(grounds[i]) :: d
  }

  /** Everything a success rests on is a recorded allow for this principal, all at one state, epoch and grant
      revision. */
  lemma {:induction false} LeavesAgree(recorded: seq<Decision>, p: Principal, r: Request, g: Ground)
    requires Grounded(recorded, p, r, g)
    ensures forall d :: d in Leaves(g) ==>
      && d in recorded && d.allowed && d.principalID == p.id && d.scope.Some? && ScopeOf(g).Some?
      && d.scope.value.stateRevision == ScopeOf(g).value.stateRevision
      && d.scope.value.recoveryEpoch == ScopeOf(g).value.recoveryEpoch
      && d.scope.value.grantRevision == ScopeOf(g).value.grantRevision
    decreases g
  {
    match g
    case Direct(d) =>
    case Owners(targets, grounds) =>
      forall i | 0 <= i < |grounds|
        ensures forall d :: d in Leaves(grounds[i]) ==>
          d in recorded && d.allowed && d.principalID == p.id && SameRevisions(d.scope, ScopeOf(grounds[i]))
      {
        LeavesAgree(recorded, p, ForOwner(r, targets[i]), grounds[i]);
      }
  }

  /** A recorded allow carries a scope of its own principal, action, target and revisions, with a digest. */
  predicate ScopedToItself(d: Decision) {
    && d.allowed && d.scope.Some? && ValidFingerprint(d.scope.value.digest)
    && d.scope.value.principalID == d.principalID && d.scope.value.action == d.action
    && d.scope.value.target == d.target && d.scope.value.grantRevision == d.grantRevision
    && d.scope.value.stateRevision == d.stateRevision && d.scope.value.recoveryEpoch == d.recoveryEpoch
  }

  /** A direct success is a decision on exactly what was requested. One that rests on owners rests on decisions for the
      requested action, except that reading is enough on a host whose owner capability is to read it. */
  lemma {:induction false} LeavesAreForTheAction(recorded: seq<Decision>, p: Principal, r: Request, g: Ground)
    requires Grounded(recorded, p, r, g)
    ensures g.Direct? ==> Leaves(g) == {g.decision} && g.decision.action == r.action && g.decision.target == r.target
    ensures g.Owners? ==>
      && r.action in {Read, Author} && r.plan.None? && r.branches == [] && 1 <= |g.targets| <= 64
      && (forall t :: t in g.targets ==> t != r.target && t.resourceKind !in {"declaration", "plan", "run"})
      && forall d :: d in Leaves(g) ==>
           d.action == if d.target.capability == "host.read" && d.target.resourceKind == "host" then Read else r.action
    ensures forall d :: d in Leaves(g) ==> ScopedToItself(d)
    decreases g
  {
    match g
    case Direct(d) =>
    case Owners(targets, grounds) =>
      forall i, d | 0 <= i < |grounds| && d in Leaves(grounds[i])
        ensures ScopedToItself(d)
        ensures d.action ==
          if d.target.capability == "host.read" && d.target.resourceKind == "host" then Read else r.action
      {
        LeavesAreForTheAction(recorded, p, ForOwner(r, targets[i]), grounds[i]);
      }
  }

  /** Recording more decisions takes no ground away. */
  lemma {:induction false} GroundedStays(a: seq<Decision>, b: seq<Decision>, p: Principal, r: Request, g: Ground)
    requires a <= b && Grounded(a, p, r, g)
    ensures Grounded(b, p, r, g)
    decreases g
  {
    match g
    case Direct(d) =>
    case Owners(targets, grounds) =>
      forall i | 0 <= i < |grounds| ensures Grounded(b, p, ForOwner(r, targets[i]), grounds[i]) {
        GroundedStays(a, b, p, ForOwner(r, targets[i]), grounds[i]);
      }
  }

  lemma AllStay(a: seq<Decision>, b: seq<Decision>, p: Principal, r: Request, targets: seq<Target>,
                grounds: seq<Ground>)
    requires a <= b && |grounds| <= |targets|
    requires forall i :: 0 <= i < |grounds| ==> Grounded(a, p, ForOwner(r, targets[i]), grounds[i])
    ensures forall i :: 0 <= i < |grounds| ==> Grounded(b, p, ForOwner(r, targets[i]), grounds[i])
  {
    forall i | 0 <= i < |grounds| ensures Grounded(b, p, ForOwner(r, targets[i]), grounds[i]) {
      GroundedStays(a, b, p, ForOwner(r, targets[i]), grounds[i]);
    }
  }

  /** The first owners have been granted, all at the revisions of the first. */
  ghost predicate SoFar(recorded: seq<Decision>, p: Principal, r: Request, owners: seq<Target>, grounds: seq<Ground>,
                        first: Option<Scope>) {
    && |grounds| <= |owners|
    && (forall k :: 0 <= k < |grounds| ==> owners[k] != r.target && !WorkflowObject(owners[k]))
    && (forall k :: 0 <= k < |grounds| ==> Grounded(recorded, p, ForOwner(r, owners[k]), grounds[k]))
    && (forall k :: 0 <= k < |grounds| ==> SameRevisions(ScopeOf(grounds[k]), first))
    && (grounds != [] ==> ScopeOf(grounds[0]) == first)
  }

  lemma OneMore(a: seq<Decision>, b: seq<Decision>, p: Principal, r: Request, owners: seq<Target>, grounds: seq<Ground>,
                first: Option<Scope>, child: Ground)
    requires a <= b && SoFar(a, p, r, owners, grounds, first) && |grounds| < |owners|
    requires owners[|grounds|] != r.target && !WorkflowObject(owners[|grounds|])
    requires Grounded(b, p, ForOwner(r, owners[|grounds|]), child) && SameRevisions(ScopeOf(child), first)
    requires grounds == [] ==> ScopeOf(child) == first
    ensures SoFar(b, p, r, owners, grounds + [child], first)
  {
    AllStay(a, b, p, r, owners, grounds);
  }

  lemma AllGranted(recorded: seq<Decision>, p: Principal, r: Request, owners: seq<Target>, grounds: seq<Ground>,
                   first: Option<Scope>)
    requires SoFar(recorded, p, r, owners, grounds, first) && |grounds| == |owners| && 1 <= |owners| <= 64
    requires WorkflowNavigation(r.action, r.target) && r.plan.None? && r.branches == []
    ensures Grounded(recorded, p, r, Owners(owners, grounds)) && ScopeOf(Owners(owners, grounds)) == first
  {
  }

  /** Asking an owner is a smaller question. */
  lemma OwnerIsSmaller(w: World, rank: Target -> nat, n: nat, r: Request, owner: Target)
    requires WellFounded(w, rank) && w.owners(n, r).Some? && owner in w.owners(n, r).value
    requires WorkflowNavigation(r.action, r.target) && !WorkflowObject(owner)
    ensures WorkflowObject(r.target) || Depth(rank, owner) < Depth(rank, r.target)
  {
    if r.target.resourceKind == "recovery-point" {
      assert RanksFall(rank, r.target, w.owners(n, r).value);
    }
  }

  // ----- what makes a check succeed

  /** At the n-th step the evaluator allows exactly this request, and the recorder then takes the decision. */
  predicate AllowedAt(w: World, p: Principal, r: Request, n: nat) {
    var d := w.evaluate(n, r).decision;
    && !w.evaluate(n, r).failed && d.allowed && d.principalID == p.id && d.action == r.action && d.target == r.target
    && Recordable(d) && w.records(n + 1, d)
  }

  predicate DeniedAt(w: World, p: Principal, r: Request, n: nat) {
    var d := w.evaluate(n, r).decision;
    !w.evaluate(n, r).failed && (!d.allowed || d.principalID != p.id || d.action != r.action || d.target != r.target)
  }

  /** The request as it goes to an owner: reading on a host that is owned by its reading, else the same action. */
  function AskedOf(r: Request, owner: Target): Request {
    r.(target := owner,
       action := if owner.capability == "host.read" && owner.resourceKind == "host" then Read else r.action)
  }

  function ScopeAt(w: World, r: Request, n: nat): Option<Scope> {
    w.evaluate(n, r).decision.scope
  }

  /** The k-th owner is not the object itself nor a workflow object, is allowed when asked in turn, and at the revisions
      of the first. */
  predicate OwnerAllows(w: World, p: Principal, r: Request, owners: seq<Target>, n: nat, k: nat)
    requires k < |owners|
  {
    && owners[k] != r.target && owners[k].resourceKind !in {"declaration", "plan", "run"}
    && AllowedAt(w, p, AskedOf(r, owners[k]), n + 2 * k)
    && SameRevisions(ScopeAt(w, AskedOf(r, owners[k]), n + 2 * k), ScopeAt(w, AskedOf(r, owners[0]), n))
  }

  predicate OwnersAllow(w: World, p: Principal, r: Request, owners: seq<Target>, n: nat) {
    1 <= |owners| <= 64 && forall k: nat :: k < |owners| ==> OwnerAllows(w, p, r, owners, n, k)
  }

  // ----- the recursive check

  function Unavailable(p: Principal, r: Request, previous: Decision): Decision {
    Blank(p, r).(reason := PolicyUnavailable, grantRevision := previous.grantRevision,
                 stateRevision := previous.stateRevision, recoveryEpoch := previous.recoveryEpoch)
  }

  class Application {
    var recorded: seq<Decision>
    var steps: nat

    constructor ()
      ensures recorded == [] && steps == 0
    {
      recorded, steps := [], 0;
    }

    /** Records a decision unless it is malformed or the recorder refuses. */
    method RecordDecision(w: World, d: Decision) returns (ok: bool)
      modifies this
      ensures recorded == if ok then old(recorded) + [d] else old(recorded)
      ensures ok <==> Recordable(d) && w.records(old(steps), d)
      ensures steps == old(steps) + 1
    {
      ok := Recordable(d) && w.records(steps, d);
      if ok {
        recorded := recorded + [d];
      }
      steps := steps + 1;
    }

    /** Succeeds only on grounds; what was recorded before stays. */
    method AuthorizePrincipal(w: World, rank: Target -> nat, p: Principal, r: Request)
        returns (scope: Option<Scope>, ghost ground: Ground)
      requires WellFounded(w, rank)
      modifies this
      ensures old(recorded) <= recorded
      ensures scope.Some? ==> Grounded(recorded, p, r, ground) && ScopeOf(ground) == scope
      ensures p.id == "" ==> scope.None? && recorded == old(recorded)
      ensures p.id != "" && w.evaluate(old(steps), r).failed ==> scope.None?
      ensures p.id != "" && DeniedAt(w, p, r, old(steps)) && !WorkflowNavigation(r.action, r.target) ==>
        && scope.None?
        && var d := w.evaluate(old(steps), r).decision;
        var own := d.principalID == p.id && d.action == r.action && d.target == r.target;
        own && Recordable(d) && w.records(old(steps) + 1, d) ==> recorded == old(recorded) + [d]
      ensures p.id != "" && AllowedAt(w, p, r, old(steps)) ==>
        && scope == ScopeAt(w, r, old(steps)) && scope.Some? && steps == old(steps) + 2
        && recorded == old(recorded) + [w.evaluate(old(steps), r).decision]
      ensures p.id != "" && DeniedAt(w, p, r, old(steps)) && WorkflowNavigation(r.action, r.target) && r.plan.None?
              && r.branches == [] && w.owners(old(steps) + 1, r).Some?
              && OwnersAllow(w, p, r, w.owners(old(steps) + 1, r).value, old(steps) + 1) ==>
        && scope.Some?
        && scope == ScopeAt(w, AskedOf(r, w.owners(old(steps) + 1, r).value[0]), old(steps) + 1)
      decreases if WorkflowObject(r.target) then 1 else 0, Depth(rank, r.target), 2
    {
      scope, ground := None, Direct(Blank(p, r));
      if p.id == "" {
        return;
      }
      var evaluation := w.evaluate(steps, r);
      steps := steps + 1;
      var d := evaluation.decision;
      if evaluation.failed || d.principalID != p.id || d.action != r.action || d.target != r.target {
        d := Unavailable(p, r, d);
      }
      if !evaluation.failed && !d.allowed && WorkflowNavigation(r.action, r.target) && r.plan.None?
         && r.branches == [] {
        var owners := w.owners(steps, r);
        if owners.Some? && 0 < |owners.value| <= 64 {
          scope, ground := AskOwners(w, rank, p, r, owners.value, steps);
          return;
        }
      }
      var ok := RecordDecision(w, d);
      if !ok || evaluation.failed || !d.allowed {
        return;
      }
      scope, ground := d.scope, Direct(d);
    }

    /** One owner: not the object itself nor a workflow object, and granted the mapped request. */
    method AskOwner(w: World, rank: Target -> nat, p: Principal, r: Request, owner: Target, ghost owners: seq<Target>,
                    ghost asked: nat)
        returns (scope: Option<Scope>, ghost ground: Ground)
      requires WellFounded(w, rank) && w.owners(asked, r) == Some(owners) && owner in owners && p.id != ""
      requires WorkflowNavigation(r.action, r.target)
      modifies this
      ensures old(recorded) <= recorded
      ensures scope.Some? ==>
        && owner != r.target && !WorkflowObject(owner)
        && Grounded(recorded, p, ForOwner(r, owner), ground) && ScopeOf(ground) == scope
      ensures owner != r.target && !WorkflowObject(owner) && AllowedAt(w, p, AskedOf(r, owner), old(steps)) ==>
        scope == ScopeAt(w, AskedOf(r, owner), old(steps)) && scope.Some? && steps == old(steps) + 2
      decreases if WorkflowObject(r.target) then 1 else 0, Depth(rank, r.target), 0
    {
      scope, ground := None, Direct(Blank(p, r));
      if owner == r.target || WorkflowObject(owner) {
        return;
      }
      OwnerIsSmaller(w, rank, asked, r, owner);
      scope, ground := AuthorizePrincipal(w, rank, p, ForOwner(r, owner));
    }

    /** Every owner must be granted in turn, at the revisions of the first. */
    method AskOwners(w: World, rank: Target -> nat, p: Principal, r: Request, owners: seq<Target>, ghost asked: nat)
        returns (scope: Option<Scope>, ghost ground: Ground)
      requires WellFounded(w, rank) && 0 < |owners| <= 64 && w.owners(asked, r) == Some(owners)
      requires WorkflowNavigation(r.action, r.target) && r.plan.None? && r.branches == []
      requires p.id != ""
      modifies this
      ensures old(recorded) <= recorded
      ensures scope.Some? ==> Grounded(recorded, p, r, ground) && ScopeOf(ground) == scope
      ensures OwnersAllow(w, p, r, owners, old(steps)) ==>
        scope.Some? && scope == ScopeAt(w, AskedOf(r, owners[0]), old(steps))
      decreases if WorkflowObject(r.target) then 1 else 0, Depth(rank, r.target), 1
    {
      ground := Direct(Blank(p, r));
      var first: Option<Scope> := None;
      ghost var grounds: seq<Ground> := [];
      for i := 0 to |owners|
        invariant old(recorded) <= recorded && |grounds| == i && SoFar(recorded, p, r, owners, grounds, first)
        invariant i > 0 ==> first.Some?
        invariant OwnersAllow(w, p, r, owners, old(steps)) ==>
          steps == old(steps) + 2 * i && (i > 0 ==> first == ScopeAt(w, AskedOf(r, owners[0]), old(steps)))
      {
        var owner := owners[i];
        assert OwnersAllow(w, p, r, owners, old(steps)) ==> OwnerAllows(w, p, r, owners, old(steps), i);
        ghost var before := recorded;
        var next, child := AskOwner(w, rank, p, r, owner, owners, asked);
        if next.None? {
          return None, ground;
        }
        if i == 0 {
          first := next;
        } else if next.value.stateRevision != first.value.stateRevision
               || next.value.recoveryEpoch != first.value.recoveryEpoch
               || next.value.grantRevision != first.value.grantRevision {
          return None, ground;
        }
        OneMore(before, recorded, p, r, owners, grounds, first, child);
        grounds := grounds + [child];
      }
      AllGranted(recorded, p, r, owners, grounds, first);
      scope, ground := first, Owners(owners, grounds);
    }
  }
}
