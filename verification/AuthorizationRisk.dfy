/** The closed table of operation risks, and the classification of a whole plan. */
module AuthorizationRisk {
  import opened Text
  import opened Sorting

  datatype Risk = Routine | ProductionLike | Infrastructure | Destructive | ControlPlane

  datatype Operation = Operation(sequence: int, operationType: string, adapterID: string, targetID: string,
                                 resourceIDs: seq<string>)

  function Rank(r: Risk): int {
    match r
    case Routine => 1
    case ProductionLike => 2
    case Infrastructure => 3
    case Destructive => 4
    case ControlPlane => 5
  }

  function RiskName(r: Risk): string {
    match r
    case Routine => "routine"
    case ProductionLike => "production-like"
    case Infrastructure => "infrastructure"
    case Destructive => "destructive"
    case ControlPlane => "control-plane"
  }

  const ROUTINE: set<string> := {
    "application.deploy.low-risk", "audit.checkpoint", "audit.checkpoint.anchor", "backup.snapshot", "backup.verify",
    "backup.local.create", "backup.local.verify", "drift.scan", "health.check", "schedule.gate.check",
    "schedule.observation.refresh"}

  const PRODUCTION_LIKE: set<string> := {"service.recover", "application.deploy.production-like", "service.deploy"}

  const INFRASTRUCTURE: set<string> := {
    "network.ingress.bootstrap-tunnel", "network.ingress.bootstrap-group", "network.ingress.bootstrap-app",
    "network.ingress.bootstrap-policy", "network.ingress.bootstrap-seed", "network.ingress.bootstrap-cutover",
    "network.ingress.import", "network.ingress.tunnel-config-update", "network.ingress.access-policy-update",
    "network.ingress.dns-record-update", "network.ingress.connector-disconnect", "network.ingress.token-rotate",
    "network.mesh.import", "network.mesh.profile-routing-update", "network.mesh.gateway-rule-update",
    "network.mesh.registration-delete", "host.alias.claim", "host.replacement.freeze", "host.replacement.commit",
    "host.access.probe.local", "host.action.execute", "backup.offsite.copy", "node.add", "node.remove", "shell.grant",
    "shell.revoke", "public-exposure.change", "backup-policy.change", "ci.job.execute"}

  const DESTRUCTIVE: set<string> := {
    "gate.profile.bind", "gate.evidence.apply", "gate.evidence.supersede", "gate.evidence.revoke", "backup.restore",
    "resource.delete", "backup.retention.change", "backup.retention-locks.activate", "backup.local.retire",
    "backup.retire.offsite"}

  const CONTROL_PLANE: set<string> := {
    "operations.notification-readiness.test", "artifact.publish.manual", "ci.artifact.publish",
    "hosting.lifecycle.apply", "controller.setup.bootstrap", "host.adopt", "host.discovery-target.activate",
    "host.discovery-target.revoke", "network.change", "ci.enrollment.register", "service.import",
    "network.endpoint.change", "identity.change", "secret-provider.change", "control-plane.change",
    "control-plane.recover", "recovery.restore.cutover", "recovery.canary.noop", "credential.stage",
    "credential.activate", "credential.rotate", "credential.revoke", "credential.recover", "schedule.policy.activate"}

  function OperationRisk(operationType: string): Option<Risk> {
    if operationType in ROUTINE then Some(Routine)
    else if operationType in PRODUCTION_LIKE then Some(ProductionLike)
    else if operationType in INFRASTRUCTURE then Some(Infrastructure)
    else if operationType in DESTRUCTIVE then Some(Destructive)
    else if operationType in CONTROL_PLANE then Some(ControlPlane)
    else None
  }

  /** The operations a schedule may run without a human. */
  const PREAUTHORIZED: set<string> := {
    "application.deploy.low-risk", "audit.checkpoint", "audit.checkpoint.anchor", "backup.snapshot", "backup.verify",
    "backup.local.create", "backup.local.verify", "drift.scan", "health.check", "schedule.gate.check",
    "schedule.observation.refresh"}

  predicate IsReplacement(operationType: string) {
    operationType == "host.replacement.freeze" || operationType == "host.replacement.commit"
  }

  /** An operation's risk inside a plan; replacing the host of the control database is control-plane work. */
  function RiskIn(controlDatabase: bool, op: Operation): Option<Risk> {
    var risk := OperationRisk(op.operationType);
    if risk.Some? && IsReplacement(op.operationType) && controlDatabase then Some(ControlPlane) else risk
  }

  // ----- the classification, independent of order

  function Sequences(ops: seq<Operation>): seq<int> {
    Mapped(ops, (op: Operation) => op.sequence)
  }

  function UpTo(n: nat): seq<int> {
    seq(n, i => i + 1)
  }

  /** The sequence numbers are 1, 2, ... n, in some order. */
  ghost predicate NumberedOnce(ops: seq<Operation>) {
    multiset(Sequences(ops)) == multiset(UpTo(|ops|))
  }

  type RiskOf = Operation -> Option<Risk>

  ghost predicate AllKnown(risk: RiskOf, ops: seq<Operation>) {
    forall op :: op in ops ==> risk(op).Some?
  }

  /** No operation is riskier, and some operation is this risky. */
  ghost predicate IsGreatest(risk: RiskOf, ops: seq<Operation>, r: Risk) {
    && (forall op :: op in ops && risk(op).Some? ==> Rank(risk(op).value) <= Rank(r))
    && (exists op :: op in ops && risk(op) == Some(r))
  }

  lemma GreatestIsUnique(risk: RiskOf, ops: seq<Operation>, r: Risk, r': Risk)
    requires IsGreatest(risk, ops, r) && IsGreatest(risk, ops, r')
    ensures r == r'
  {
    var op :| op in ops && risk(op) == Some(r);
    var op' :| op' in ops && risk(op') == Some(r');
    assert Rank(r) == Rank(r');
  }

  // ----- the stable sort by sequence number

  predicate Earlier(a: Operation, b: Operation) {
    a.sequence < b.sequence
  }

  predicate Smaller(a: int, b: int) {
    a < b
  }

  /** Once sorted, the k-th operation is numbered k exactly when the numbers are 1 to n. */
  lemma SortedNumbering(ops: seq<Operation>, sorted: seq<Operation>)
    requires Ordered(sorted, Earlier) && multiset(sorted) == multiset(ops)
    ensures Consecutive(sorted) <==> NumberedOnce(ops)
  {
    assert |sorted| == |multiset(sorted)| == |multiset(ops)| == |ops|;
    MappedPermutes(ops, sorted, (op: Operation) => op.sequence);
    assert multiset(Sequences(sorted)) == multiset(Sequences(ops));
    if NumberedOnce(ops) {
      OrderedIsUnique(Sequences(sorted), UpTo(|ops|), Smaller);
      assert forall i :: 0 <= i < |sorted| ==> sorted[i].sequence == Sequences(sorted)[i] == UpTo(|ops|)[i];
    }
    if Consecutive(sorted) {
      assert Sequences(sorted) == UpTo(|ops|);
    }
  }

  // ----- the plan

  /** The classification the plan carries, and the one its operations have. */
  ghost predicate ClassifiedAs(risk: RiskOf, ops: seq<Operation>, declared: string, r: Risk) {
    && 1 <= |ops| <= 256 && NumberedOnce(ops) && AllKnown(risk, ops) && IsGreatest(risk, ops, r)
    && declared == RiskName(r)
  }

  predicate Consecutive(ops: seq<Operation>) {
    forall i :: 0 <= i < |ops| ==> ops[i].sequence == i + 1
  }

  /** One pass over the sorted operations with a running maximum. */
  method ScanSorted(risk: RiskOf, sorted: seq<Operation>) returns (r: Option<Risk>)
    requires sorted != []
    ensures r.Some? <==> Consecutive(sorted) && AllKnown(risk, sorted)
    ensures r.Some? ==> IsGreatest(risk, sorted, r.value)
  {
    var result := Routine;
    for i := 0 to |sorted|
      invariant Consecutive(sorted[..i]) && AllKnown(risk, sorted[..i])
      invariant if i > 0 then IsGreatest(risk, sorted[..i], result) else result == Routine
    {
      if sorted[i].sequence != i + 1 {
        return None;
      }
      var found := risk(sorted[i]);
      if found.None? {
        return None;
      }
      GreatestGrows(risk, sorted, i, result, found.value);
      if Rank(found.value) > Rank(result) {
        result := found.value;
      }
    }
    assert sorted[..|sorted|] == sorted;
    r := Some(result);
  }

  /** Sorted or not, the plan classifies the same; a plan is refused exactly when no class fits. */
  method ClassifyPlan(risk: RiskOf, ops: seq<Operation>, declared: string) returns (r: Option<Risk>)
    ensures r.Some? ==> ClassifiedAs(risk, ops, declared, r.value)
    ensures r.None? ==> forall x :: !ClassifiedAs(risk, ops, declared, x)
  {
    if |ops| == 0 || |ops| > 256 {
      return None;
    }
    var sorted := SortIn(ops, Earlier);
    SortInSorts(ops, Earlier);
    SortedNumbering(ops, sorted);
    SameElements(ops, sorted);
    assert |sorted| == |multiset(sorted)| == |multiset(ops)| == |ops|;
    var result := ScanSorted(risk, sorted);
    if result.None? {
      return None;
    }
    GreatestOfBoth(risk, ops, sorted, result.value);
    if declared != RiskName(result.value) {
      OnlyClass(risk, ops, declared, result.value);
      return None;
    }
    r := result;
  }

  lemma OnlyClass(risk: RiskOf, ops: seq<Operation>, declared: string, r: Risk)
    requires IsGreatest(risk, ops, r) && declared != RiskName(r)
    ensures forall x :: !ClassifiedAs(risk, ops, declared, x)
  {
    forall x ensures !ClassifiedAs(risk, ops, declared, x) {
      if IsGreatest(risk, ops, x) {
        GreatestIsUnique(risk, ops, x, r);
      }
    }
  }

  lemma GreatestGrows(risk: RiskOf, ops: seq<Operation>, i: nat, result: Risk, found: Risk)
    requires i < |ops| && risk(ops[i]) == Some(found) && AllKnown(risk, ops[..i])
    requires if i > 0 then IsGreatest(risk, ops[..i], result) else result == Routine
    ensures AllKnown(risk, ops[..i + 1])
    ensures IsGreatest(risk, ops[..i + 1], if Rank(found) > Rank(result) then found else result)
  {
    var more := ops[..i + 1];
    assert more == ops[..i] + [ops[i]];
    assert ops[i] in more;
    if i > 0 {
      var op :| op in ops[..i] && risk(op) == Some(result);
      assert op in more;
    }
  }

  lemma GreatestOfBoth(risk: RiskOf, ops: seq<Operation>, sorted: seq<Operation>, r: Risk)
    requires multiset(ops) == multiset(sorted) && AllKnown(risk, sorted) && IsGreatest(risk, sorted, r)
    ensures AllKnown(risk, ops) && IsGreatest(risk, ops, r)
  {
    SameElements(ops, sorted);
    var op :| op in sorted && risk(op) == Some(r);
    assert op in ops;
  }

  /** Reordering a plan's operations does not change its class. */
  lemma ClassIgnoresOrder(risk: RiskOf, a: seq<Operation>, b: seq<Operation>, declared: string, r: Risk)
    requires multiset(a) == multiset(b) && ClassifiedAs(risk, a, declared, r)
    ensures ClassifiedAs(risk, b, declared, r)
  {
    assert |a| == |multiset(a)| == |multiset(b)| == |b|;
    MappedPermutes(a, b, (op: Operation) => op.sequence);
    GreatestOfBoth(risk, b, a, r);
  }
}
