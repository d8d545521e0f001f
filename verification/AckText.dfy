/** The texts and target lists the acknowledgement service computes. */
module AckText {
  import opened Text
  import opened Sorting
  import opened Acknowledgement

  const INT64_LIMIT: int := 0x8000_0000_0000_0000

  function Pow10(n: nat): nat {
    if n == 0 then 1 else 10 * Pow10(n - 1)
  }

  function Leading(n: nat): string {
    if n == 0 then "" else Digits(n)
  }

  lemma {:induction false} DigitsFit(n: nat, places: nat)
    requires n < Pow10(places)
    ensures |Leading(n)| <= places
  {
    if n >= 10 {
      DigitsFit(n / 10, places - 1);
    }
  }

  lemma TwentyDigitsAreEnough(n: nat)
    requires n < INT64_LIMIT
    ensures |Leading(n)| <= 20
  {
    assert Pow10(4) == 10_000;
    assert Pow10(8) == 100_000_000;
    assert Pow10(12) == 1_000_000_000_000;
    assert Pow10(16) == 10_000_000_000_000_000;
    assert Pow10(20) == 100_000_000_000_000_000_000;
    DigitsFit(n, 20);
  }

  /** One turn of the loop: the last digit goes to the buffer. */
  lemma LastDigit(whole: string, n: nat, tail: string)
    requires 0 < n && whole == Leading(n) + tail
    ensures whole == Leading(n / 10) + ([DigitChar(n % 10)] + tail)
  {
    LeadingStep(n, n / 10);
  }

  lemma LeadingStep(n: nat, next: nat)
    requires 0 < n && next == n / 10
    ensures Leading(n) == Leading(next) + [DigitChar(n % 10)]
  {
    if n < 10 {
      assert next == 0 && Leading(next) == "";
    } else {
      assert next > 0;
    }
  }

  /** Decimal digits; nothing at all for a negative number. */
  function IntText(value: int): string {
    if value < 0 then "" else FormatInt(value)
  }

  /** The loop over the 20-byte buffer, from the back. */
  method FillDigits(value: nat) returns (text: string)
    requires value < INT64_LIMIT
    ensures text == Leading(value)
  {
    var buffer := new char[20];
    var position, rest := 20, value;
    TwentyDigitsAreEnough(value);
    ghost var whole := Leading(value);
    while rest > 0
      invariant 0 <= position <= 20 && 0 <= rest
      invariant whole == Leading(rest) + buffer[position..]
      decreases rest
    {
      ghost var tail := buffer[position..];
      LastDigit(whole, rest, tail);
      var next, digit := rest / 10, DigitChar(rest % 10);
      position := position - 1;
      buffer[position] := digit;
      assert buffer[position..] == [digit] + tail;
      rest := next;
    }
    text := buffer[position..];
  }

  /** Decimal text of a non-negative int64; for a negative one the loop never runs and no byte of the buffer is used. */
  method IntString(value: int) returns (text: string)
    requires -INT64_LIMIT <= value < INT64_LIMIT
    ensures text == IntText(value)
  {
    if value == 0 {
      return "0";
    }
    text := "";
    if value > 0 {
      text := FillDigits(value);
    }
  }

  function ByText(s: string): Key {
    Key(s, "")
  }

  function Flat(resources: seq<seq<string>>): set<string> {
    set i, j | 0 <= i < |resources| && 0 <= j < |resources[i]| :: resources[i][j]
  }

  method CollectTargets(plan: Plan) returns (seen: set<string>)
    ensures seen == Targets(plan)
  {
    seen := {};
    if plan.baseline.Some? {
      seen := seen + {plan.baseline.value.0, plan.baseline.value.1};
    }
    ghost var base := seen;
    for i := 0 to |plan.auxiliary|
      invariant seen == base + (set id | id in plan.auxiliary[..i])
    {
      assert plan.auxiliary[..i + 1] == plan.auxiliary[..i] + [plan.auxiliary[i]];
      seen := seen + {plan.auxiliary[i]};
    }
    assert plan.auxiliary[..|plan.auxiliary|] == plan.auxiliary;
    var ids := CollectResources(plan.resources);
    seen := seen + ids;
  }

  method CollectResources(resources: seq<seq<string>>) returns (seen: set<string>)
    ensures seen == Flat(resources)
  {
    seen := {};
    for i := 0 to |resources|
      invariant seen == Flat(resources[..i])
    {
      ghost var before := seen;
      for j := 0 to |resources[i]|
        invariant seen == before + (set id | id in resources[i][..j])
      {
        assert resources[i][..j + 1] == resources[i][..j] + [resources[i][j]];
        seen := seen + {resources[i][j]};
      }
      assert resources[i][..|resources[i]|] == resources[i];
      FlatGrows(resources, i);
    }
    assert resources[..|resources|] == resources;
  }

  lemma FlatGrows(resources: seq<seq<string>>, i: int)
    requires 0 <= i < |resources|
    ensures Flat(resources[..i + 1]) == Flat(resources[..i]) + (set id | id in resources[i])
  {
    var now, was := resources[..i + 1], resources[..i];
    forall id | id in Flat(was) ensures id in Flat(now) {
      var m, n :| 0 <= m < |was| && 0 <= n < |was[m]| && was[m][n] == id;
      assert now[m][n] == id;
    }
    forall id | id in resources[i] ensures id in Flat(now) {
      var n :| 0 <= n < |resources[i]| && resources[i][n] == id;
      assert now[i][n] == id;
    }
    forall id | id in Flat(now) ensures id in Flat(was) || id in resources[i] {
      var m, n :| 0 <= m < |now| && 0 <= n < |now[m]| && now[m][n] == id;
      if m < i {
        assert was[m][n] == id;
      }
    }
  }

  /** Every target once, in byte order. */
  method UniqueTargets(plan: Plan) returns (targets: seq<string>)
    ensures (set t | t in targets) == Targets(plan)
    ensures Sorted(targets, ByText) && DistinctKeys(targets, ByText)
  {
    var seen := CollectTargets(plan);
    var listed := ListAll(seen);
    SortSorts(listed, ByText);
    targets := SortBy(listed, ByText);
    DistinctKeysPermute(listed, targets, ByText);
    assert forall t :: t in targets <==> t in multiset(targets);
    assert forall t :: t in listed <==> t in multiset(listed);
  }

  method ListAll(seen: set<string>) returns (listed: seq<string>)
    ensures forall t :: t in listed <==> t in seen
    ensures DistinctKeys(listed, ByText)
  {
    listed := [];
    var rest := seen;
    while rest != {}
      invariant rest <= seen && forall t :: t in listed <==> t in seen && t !in rest
      invariant DistinctKeys(listed, ByText)
      decreases rest
    {
      var t :| t in rest;
      listed := listed + [t];
      rest := rest - {t};
    }
  }

  // ----- the text behind the proof digest

  function StatusText(status: Status): string {
    match status
    case Pending => "pending"
    case Approved => "approved"
    case Rejected => "rejected"
    case Expired => "expired"
  }

  lemma StatusTextInjective(a: Status, b: Status)
    requires StatusText(a) == StatusText(b)
    ensures a == b
  {
    assert StatusText(a)[0] == StatusText(b)[0];
  }

  /** The thirteen pieces joined by NUL; `stamp` prints a time in RFC 3339. */
  function ProofParts(p: Proof, stamp: int -> string): seq<string> {
    var r := p.request;
    ["acknowledgement-proof-v1", r.planID, r.planDigest, r.targetDigest, r.reasonDigest, r.humanID, r.authorityID,
     r.nonce, stamp(r.expiresAt), StatusText(p.status), stamp(p.at), IntText(r.stateRevision), IntText(r.recoveryEpoch)]
  }

  function ProofText(p: Proof, stamp: int -> string): string {
    JoinWith(ProofParts(p, stamp), NUL)
  }

  predicate NulFreeRequest(r: Request) {
    && NoNul(r.planID) && NoNul(r.planDigest) && NoNul(r.targetDigest) && NoNul(r.reasonDigest)
    && NoNul(r.humanID) && NoNul(r.authorityID) && NoNul(r.nonce)
  }

  /** Different times print differently, and without NUL. */
  ghost predicate Stamps(stamp: int -> string) {
    (forall t :: NoNul(stamp(t))) && (forall t, u :: stamp(t) == stamp(u) ==> t == u)
  }

  /** Proofs with one text agree on everything but, perhaps, negative revisions. */
  lemma SameTextSameParts(p: Proof, q: Proof, stamp: int -> string)
    requires Stamps(stamp) && NulFreeRequest(p.request) && NulFreeRequest(q.request)
    requires ProofText(p, stamp) == ProofText(q, stamp)
    ensures p == q.(request := q.request.(stateRevision := p.request.stateRevision,
                                          recoveryEpoch := p.request.recoveryEpoch))
    ensures IntText(p.request.stateRevision) == IntText(q.request.stateRevision)
    ensures IntText(p.request.recoveryEpoch) == IntText(q.request.recoveryEpoch)
  {
    ProofPartsNulFree(p, stamp);
    ProofPartsNulFree(q, stamp);
    JoinNulInjective(ProofParts(p, stamp), ProofParts(q, stamp));
    var a, b := ProofParts(p, stamp), ProofParts(q, stamp);
    assert a[9] == b[9] && a[11] == b[11] && a[12] == b[12];
    StatusTextInjective(p.status, q.status);
    assert a[8] == b[8] && a[10] == b[10];
    assert a[1] == b[1] && a[2] == b[2] && a[3] == b[3] && a[4] == b[4] && a[5] == b[5] && a[6] == b[6] && a[7] == b[7];
  }

  lemma IntTextInjective(a: int, b: int)
    requires a >= 0 && IntText(a) == IntText(b)
    ensures a == b
  {
    ParseAfterFormat(a);
    if b >= 0 {
      FormatIntInjective(a, b);
    }
  }

  /** The hashed text determines a proof, so that its digest may stand for its fields, exactly when both revisions are
      non-negative, as the request's schema demands. */
  lemma ProofTextDeterminesProof(p: Proof, stamp: int -> string)
    requires Stamps(stamp) && NulFreeRequest(p.request)
    ensures (forall q: Proof :: NulFreeRequest(q.request) && ProofText(q, stamp) == ProofText(p, stamp) ==> q == p) <==>
      p.request.stateRevision >= 0 && p.request.recoveryEpoch >= 0
  {
    if p.request.stateRevision >= 0 && p.request.recoveryEpoch >= 0 {
      forall q: Proof | NulFreeRequest(q.request) && ProofText(q, stamp) == ProofText(p, stamp) ensures q == p {
        SameTextSameParts(p, q, stamp);
        IntTextInjective(p.request.stateRevision, q.request.stateRevision);
        IntTextInjective(p.request.recoveryEpoch, q.request.recoveryEpoch);
      }
    } else {
      var q := NegativeRevisionsCollide(p, stamp);
    }
  }

  function OtherNegative(n: int): int {
    if n == -1 then -2 else n + 1
  }

  /** A negative revision prints as nothing, so any other negative one prints the same: -1 and -2, for instance. */
  lemma NegativeRevisionsCollide(p: Proof, stamp: int -> string) returns (q: Proof)
    requires NulFreeRequest(p.request) && (p.request.stateRevision < 0 || p.request.recoveryEpoch < 0)
    ensures q != p && NulFreeRequest(q.request) && ProofText(q, stamp) == ProofText(p, stamp)
  {
    var r := p.request;
    q := p.(request := if r.stateRevision < 0 then r.(stateRevision := OtherNegative(r.stateRevision))
                       else r.(recoveryEpoch := OtherNegative(r.recoveryEpoch)));
    assert ProofParts(q, stamp) == ProofParts(p, stamp);
  }

  lemma ProofPartsNulFree(p: Proof, stamp: int -> string)
    requires NulFreeRequest(p.request) && forall t :: NoNul(stamp(t))
    ensures forall i :: 0 <= i < |ProofParts(p, stamp)| ==> NoNul(ProofParts(p, stamp)[i])
  {
    FormatIntHasNoNul(p.request.stateRevision);
    FormatIntHasNoNul(p.request.recoveryEpoch);
    assert NoNul(StatusText(p.status));
    assert NoNul("acknowledgement-proof-v1");
  }
}
