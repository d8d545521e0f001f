/** Recovery as the program drives it: only a canary enables a recovered authority, and it leaves an event first. */
module AuditRecovery {
  import opened Text
  import opened AuditChain
  import opened AuditVerify
  import opened AuditWriter
  import AuditTamper

  /** The canary of a recovery plan; the plan's bundle fixes its run and epoch. */
  datatype Canary = Canary(planID: string, runID: string, epoch: int)

  /** `noted` are the canary runs on record, each committed together with its event. */
  datatype Authority = Authority(ledger: Ledger, noted: set<Canary>)

  /** The steps of concurrent calls. A canary verification notes its run, makes further checks of its own, and enables
      at the end; it may stop anywhere. */
  datatype Call =
    | Transaction(action: Action)
    | RunNoop(canary: Canary, event: Event, ids: ContextIDs)
    | EnableAfter(canary: Canary)

  function Called(h: Hasher, s: Authority, call: Call): Authority {
    var l := s.ledger;
    match call
    case Transaction(a) => if a.Enable? then s else s.(ledger := Step(h, l, a))
    case RunNoop(canary, event, ids) =>
      if l.ready || canary.epoch < 1 || l.epoch != canary.epoch || canary in s.noted then s
      else if !Commits(h, l, Append(event, ids)) then s
      else Authority(Step(h, l, Append(event, ids)), s.noted + {canary})
    case EnableAfter(canary) =>
      if canary !in s.noted || l.ready || l.epoch != canary.epoch then s else s.(ledger := Step(h, l, Enable))
  }

  function Run(h: Hasher, instance: string, calls: seq<Call>): Authority {
    if calls == [] then Authority(Start(instance), {})
    else Called(h, Run(h, instance, calls[..|calls| - 1]), calls[|calls| - 1])
  }

  // ----- what every run keeps

  /** The newest event is of the current epoch. */
  predicate EpochHasEvent(l: Ledger) {
    l.links != [] && l.links[|l.links| - 1].recoveryEpoch == l.epoch
  }

  /** A ready authority has an event in its epoch, unless it has none at all; no epoch was passed over. */
  predicate EpochsFollow(l: Ledger) {
    && (l.ready ==> l.links == [] || EpochHasEvent(l))
    && (l.links != [] ==> l.links[|l.links| - 1].recoveryEpoch + 1 >= l.epoch)
    && !SkipsSomewhere(l.links)
  }

  ghost predicate NotedInTime(noted: set<Canary>, l: Ledger) {
    forall c :: c in noted ==> c.epoch <= l.epoch && (c.epoch == l.epoch ==> EpochHasEvent(l))
  }

  ghost predicate RecoveryInv(h: Hasher, s: Authority) {
    WriterInv(h, s.ledger) && EpochsFollow(s.ledger) && NotedInTime(s.noted, s.ledger)
  }

  lemma TransactionKeeps(h: Hasher, s: Authority, a: Action)
    requires RecoveryInv(h, s) && !a.Enable?
    ensures var next := Step(h, s.ledger, a); EpochsFollow(next) && NotedInTime(s.noted, next)
    ensures Commits(h, s.ledger, a) ==> EpochHasEvent(Step(h, s.ledger, a))
  {
    var link := StepEffect(h, s.ledger, a);
    if link.Some? {
      SkipsGrow(s.ledger.links, link.value);
    }
  }

  lemma CallKeeps(h: Hasher, s: Authority, call: Call)
    requires RecoveryInv(h, s)
    ensures RecoveryInv(h, Called(h, s, call))
  {
    match call
    case Transaction(a) =>
      StepKeeps(h, s.ledger, a);
      if !a.Enable? {
        TransactionKeeps(h, s, a);
      }
    case RunNoop(canary, event, ids) =>
      StepKeeps(h, s.ledger, Append(event, ids));
      TransactionKeeps(h, s, Append(event, ids));
    case EnableAfter(canary) =>
      StepKeeps(h, s.ledger, Enable);
  }

  lemma {:induction false} RecoveryInvariant(h: Hasher, instance: string, calls: seq<Call>)
    ensures RecoveryInv(h, Run(h, instance, calls))
  {
    if calls == [] {
      WriterInvariant(h, instance, []);
    } else {
      RecoveryInvariant(h, instance, calls[..|calls| - 1]);
      CallKeeps(h, Run(h, instance, calls[..|calls| - 1]), calls[|calls| - 1]);
    }
  }

  /** Whatever the program writes, over any number of recoveries and any interleaving, its own verifier accepts; and no
      recovery starts before the epoch it leaves has an event. */
  lemma ProgramHistoryIsAccepted(h: Hasher, instance: string, calls: seq<Call>)
    ensures var l := Run(h, instance, calls).ledger;
      && LocalVerdict(h, l.links, l.events, []).Accepted?
      && (l.ready && l.links != [] ==> l.links[|l.links| - 1].recoveryEpoch == l.epoch)
  {
    RecoveryInvariant(h, instance, calls);
    FollowingIsAccepted(h, Run(h, instance, calls).ledger);
  }

  lemma FollowingIsAccepted(h: Hasher, l: Ledger)
    requires WriterInv(h, l) && EpochsFollow(l)
    ensures LocalVerdict(h, l.links, l.events, []).Accepted?
    ensures l.ready && l.links != [] ==> l.links[|l.links| - 1].recoveryEpoch == l.epoch
  {
    RefusedForSkips(h, l);
    assert forall i :: 0 < i < |l.links| ==> !Skips(l.links, i);
  }

  // ----- and recoveries do complete

  lemma RecoverStarts(h: Hasher, l: Ledger, instance: string, digest: string)
    requires l.ready && l.epoch >= 0 && l.epoch + 1 !in l.genesis && ValidToken(instance, 128)
    requires ValidFingerprint(digest)
    ensures var next := Step(h, l, Recover(instance, digest, digest));
      && !next.ready && next.epoch == l.epoch + 1 && next.instanceID == instance
      && next.links == l.links && next.sequence == l.sequence
      && next.epoch in next.genesis && ValidFingerprint(next.genesis[next.epoch])
  {
  }

  /** In a recovered epoch without events the canary's event commits. */
  lemma NoopCommits(h: Hasher, l: Ledger)
    requires MetaInv(l) && TopInv(l.links) && (l.links != [] ==> l.links[|l.links| - 1].recoveryEpoch < l.epoch)
    requires l.epoch in l.genesis && ValidToken(l.instanceID, 128)
    ensures Commits(h, l, Append(SAMPLE, NO_CONTEXT))
    ensures var next := Step(h, l, Append(SAMPLE, NO_CONTEXT));
      && |next.links| == |l.links| + 1 && next.links[..|l.links|] == l.links
      && next.links[|l.links|].recoveryEpoch == l.epoch == next.epoch && next.ready == l.ready
  {
    SampleIsValid(l.sequence + 1, l.epoch);
    FirstOfEpochIsLinked(h, l, SAMPLE, NO_CONTEXT);
  }

  /** From any reachable ready state a recovery into an epoch not prepared before runs through its canary to a ready
      authority of the next epoch, with the canary's event as the first of that epoch. */
  lemma RecoveryCompletes(h: Hasher, s: Authority, instance: string, digest: string, canary: Canary)
    requires RecoveryInv(h, s) && s.ledger.ready && s.ledger.epoch + 1 !in s.ledger.genesis
    requires ValidToken(instance, 128) && ValidFingerprint(digest) && canary.epoch == s.ledger.epoch + 1
    ensures var started := Called(h, s, Transaction(Recover(instance, digest, digest)));
      var noted := Called(h, started, RunNoop(canary, SAMPLE, NO_CONTEXT));
      var done := Called(h, noted, EnableAfter(canary)).ledger;
      && done.ready && done.epoch == s.ledger.epoch + 1 && |done.links| == |s.ledger.links| + 1
      && done.links[..|s.ledger.links|] == s.ledger.links
      && done.links[|s.ledger.links|].recoveryEpoch == done.epoch
  {
    var started := Called(h, s, Transaction(Recover(instance, digest, digest)));
    RecoverStarts(h, s.ledger, instance, digest);
    StepKeeps(h, s.ledger, Recover(instance, digest, digest));
    NoopCommits(h, started.ledger);
    NotedThenEnabled(h, started, canary);
  }

  lemma NotedThenEnabled(h: Hasher, s: Authority, canary: Canary)
    requires !s.ledger.ready && s.ledger.epoch == canary.epoch >= 1 && canary !in s.noted
    requires Commits(h, s.ledger, Append(SAMPLE, NO_CONTEXT))
    requires Step(h, s.ledger, Append(SAMPLE, NO_CONTEXT)).epoch == s.ledger.epoch
    requires !Step(h, s.ledger, Append(SAMPLE, NO_CONTEXT)).ready
    ensures Called(h, Called(h, s, RunNoop(canary, SAMPLE, NO_CONTEXT)), EnableAfter(canary)).ledger ==
            Step(h, s.ledger, Append(SAMPLE, NO_CONTEXT)).(ready := true)
  {
  }

  // ----- two epochs, concretely

  const SAMPLE_CANARY := Canary("p", "r", 1)

  /** An event, and a recovery through its canary. */
  function OneRecovery(digest: string): seq<Call> {
    [Transaction(Append(SAMPLE, NO_CONTEXT))] + [Transaction(Recover("y", digest, digest))]
    + [RunNoop(SAMPLE_CANARY, SAMPLE, NO_CONTEXT)] + [EnableAfter(SAMPLE_CANARY)]
  }

  lemma RunOneMore(h: Hasher, instance: string, calls: seq<Call>, call: Call)
    ensures Run(h, instance, calls + [call]) == Called(h, Run(h, instance, calls), call)
  {
    assert (calls + [call])[..|calls|] == calls;
  }

  lemma UnrollOneRecovery(h: Hasher, digest: string)
    ensures var s := Called(h, Authority(Start("x"), {}), Transaction(Append(SAMPLE, NO_CONTEXT)));
      var started := Called(h, s, Transaction(Recover("y", digest, digest)));
      var noted := Called(h, started, RunNoop(SAMPLE_CANARY, SAMPLE, NO_CONTEXT));
      && Run(h, "x", [Transaction(Append(SAMPLE, NO_CONTEXT))]) == s
      && Run(h, "x", OneRecovery(digest)) == Called(h, noted, EnableAfter(SAMPLE_CANARY))
  {
    var none: seq<Call> := [];
    var a := [Transaction(Append(SAMPLE, NO_CONTEXT))];
    assert none + a == a;
    RunOneMore(h, "x", none, Transaction(Append(SAMPLE, NO_CONTEXT)));
    var b := a + [Transaction(Recover("y", digest, digest))];
    RunOneMore(h, "x", a, Transaction(Recover("y", digest, digest)));
    RunOneMore(h, "x", b, RunNoop(SAMPLE_CANARY, SAMPLE, NO_CONTEXT));
    RunOneMore(h, "x", b + [RunNoop(SAMPLE_CANARY, SAMPLE, NO_CONTEXT)], EnableAfter(SAMPLE_CANARY));
  }

  lemma FirstEvent(h: Hasher) returns (s: Authority)
    ensures s == Called(h, Authority(Start("x"), {}), Transaction(Append(SAMPLE, NO_CONTEXT))) && RecoveryInv(h, s)
    ensures |s.ledger.links| == 1 && s.ledger.links[0].recoveryEpoch == 0 && s.ledger.epoch == 0
    ensures s.ledger.ready && 1 !in s.ledger.genesis
  {
    var l := OneEvent(h);
    UnrollOneRecovery(h, "");
    RecoveryInvariant(h, "x", [Transaction(Append(SAMPLE, NO_CONTEXT))]);
    s := Authority(l, {});
    assert 1 !in l.genesis.Keys;
  }

  lemma OneRecoverySpansTwoEpochs(h: Hasher, digest: string)
    requires ValidFingerprint(digest)
    ensures var l := Run(h, "x", OneRecovery(digest)).ledger;
      |l.links| == 2 && l.links[0].recoveryEpoch == 0 && l.links[1].recoveryEpoch == 1
  {
    UnrollOneRecovery(h, digest);
    OneLetterToken("y", 128);
    var s := FirstEvent(h);
    RecoveryCompletes(h, s, "y", digest, SAMPLE_CANARY);
    var done := Run(h, "x", OneRecovery(digest)).ledger;
    assert done.links[..1][0] == done.links[0];
  }

  /** For any hash: a two-epoch history the program writes, and another accepted one with the same first event and the
      same last digest that tells a different event. */
  lemma TwoEpochsOneDigest(h: Hasher)
      returns (links: seq<ChainLink>, events: seq<Event>, links': seq<ChainLink>, events': seq<Event>)
    ensures var l := Run(h, "x", OneRecovery(h(Nothing))).ledger; links == l.links && events == l.events
    ensures LocalVerdict(h, links, events, []).Accepted? && LocalVerdict(h, links', events', []).Accepted?
    ensures |links| == |links'| == 2 && links'[0].eventID == links[0].eventID
    ensures links'[1].linkDigest == links[1].linkDigest
    ensures events' != events
  {
    var run := OneRecovery(h(Nothing));
    OneRecoverySpansTwoEpochs(h, h(Nothing));
    ProgramHistoryIsAccepted(h, "x", run);
    links, events := Run(h, "x", run).ledger.links, Run(h, "x", run).ledger.events;
    links', events' := AnotherTwoEpochs(h, links, events);
  }

  lemma AnotherTwoEpochs(h: Hasher, links: seq<ChainLink>, events: seq<Event>)
      returns (links': seq<ChainLink>, events': seq<Event>)
    requires |links| == 2 && links[0].recoveryEpoch != links[1].recoveryEpoch
    requires LocalVerdict(h, links, events, []).Accepted?
    ensures LocalVerdict(h, links', events', []).Accepted? && events' != events
    ensures |links'| == 2 && links'[0].eventID == links[0].eventID && links'[1].linkDigest == links[1].linkDigest
  {
    AcceptanceIsExact(h, links, events, []);
    links', events' := AuditTamper.EarlierEpochsAreNotPinned(h, links, events, 1);
    AcceptanceIsExact(h, links', events', []);
  }

  /** In every run, a recovered authority becomes ready only by a canary on record for its very epoch, and a canary gets
      on record only while its epoch waits for it, together with one event of that epoch. */
  lemma EnabledOnlyByItsCanary(h: Hasher, instance: string, calls: seq<Call>, call: Call)
    ensures var s, s' := Run(h, instance, calls), Run(h, instance, calls + [call]);
      !s.ledger.ready && s'.ledger.ready ==>
        call.EnableAfter? && call.canary in s.noted && call.canary.epoch == s.ledger.epoch && s.ledger.epoch >= 1
    ensures var s, s' := Run(h, instance, calls), Run(h, instance, calls + [call]);
      s'.noted != s.noted ==>
        && call.RunNoop? && s'.noted == s.noted + {call.canary} && call.canary !in s.noted && !s.ledger.ready
        && call.canary.epoch == s.ledger.epoch == s'.ledger.epoch && 1 <= call.canary.epoch
        && |s'.ledger.links| == |s.ledger.links| + 1
        && s'.ledger.links[|s.ledger.links|].recoveryEpoch == call.canary.epoch && !s'.ledger.ready
  {
    RecoveryInvariant(h, instance, calls);
    var s := Run(h, instance, calls);
    assert (calls + [call])[..|calls|] == calls;
    if call.RunNoop? {
      var link := StepEffect(h, s.ledger, Append(call.event, call.ids));
    }
  }
}
