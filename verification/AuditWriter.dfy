/** The store that writes the chain, run against the verifier that reads it back. */
module AuditWriter {
  import opened Text
  import opened AuditChain
  import opened AuditVerify

  datatype Ledger = Ledger(
    instanceID: string, epoch: int, sequence: int, ready: bool,
    genesis: map<int, string>, links: seq<ChainLink>, events: seq<Event>)

  datatype Action =
    | Append(event: Event, ids: ContextIDs)                     // an audited intent commits
    | PrepareGenesis(prior: string, decision: string)           // the next epoch's genesis is bound
    | Recover(instance: string, prior: string, decision: string) // a restored candidate takes the next epoch
    | Enable                                                    // the transaction that enables a recovered authority

  /** The row with the greatest segment sequence of an epoch. */
  function TopOfEpoch(links: seq<ChainLink>, epoch: int): Option<ChainLink> {
    if links == [] then None
    else
      var last := links[|links| - 1];
      var rest := TopOfEpoch(links[..|links| - 1], epoch);
      if last.recoveryEpoch != epoch then rest
      else if rest.Some? && rest.value.segmentSequence > last.segmentSequence then rest
      else Some(last)
  }

  /** The genesis of the current epoch; epoch 0 makes its own on first use. */
  function EnsuredGenesis(h: Hasher, l: Ledger): Option<string> {
    if l.epoch in l.genesis then Some(l.genesis[l.epoch])
    else if l.epoch > 0 then None
    else GenesisDigest(h, l.instanceID, l.epoch, h(Nothing), h(Nothing))
  }

  /** The link appendAuditLink makes for an event of the current epoch. */
  function NextLink(h: Hasher, l: Ledger, event: Event, ids: ContextIDs): Option<ChainLink> {
    var genesis := EnsuredGenesis(h, l);
    if genesis.None? then None
    else
      var top := TopOfEpoch(l.links, l.epoch);
      if top.Some?
      then MakeChainLink(h, event, ids, l.instanceID, top.value.segmentSequence + 1, top.value.linkDigest, false)
      else MakeChainLink(h, event, ids, l.instanceID, 1, genesis.value, false)
  }

  /** The event as the store stamps it: next id, current epoch. */
  function Stamped(l: Ledger, event: Event): Event {
    event.(eventID := l.sequence + 1, recoveryEpoch := l.epoch)
  }

  function Appended(h: Hasher, l: Ledger, event: Event, ids: ContextIDs): Ledger {
    var link := NextLink(h, l, Stamped(l, event), ids);
    if link.None? then l
    else l.(sequence := l.sequence + 1, genesis := l.genesis[l.epoch := EnsuredGenesis(h, l).value],
            links := l.links + [link.value], events := l.events + [Stamped(l, event)])
  }

  /** One transaction; a refused one changes nothing. */
  function Step(h: Hasher, l: Ledger, a: Action): Ledger {
    match a
    case Append(event, ids) => Appended(h, l, event, ids)
    case PrepareGenesis(prior, decision) =>
      var genesis := GenesisDigest(h, l.instanceID, l.epoch + 1, prior, decision);
      if genesis.None? || l.epoch + 1 in l.genesis then l else l.(genesis := l.genesis[l.epoch + 1 := genesis.value])
    case Recover(instance, prior, decision) =>
      var genesis := GenesisDigest(h, instance, l.epoch + 1, prior, decision);
      if !l.ready || genesis.None? || l.epoch + 1 in l.genesis then l
      else l.(instanceID := instance, epoch := l.epoch + 1, ready := false,
              genesis := l.genesis[l.epoch + 1 := genesis.value])
    case Enable => if l.epoch < 1 then l else l.(ready := true)
  }

  function Start(instance: string): Ledger {
    Ledger(instance, 0, 0, true, map[], [], [])
  }

  function Exec(h: Hasher, instance: string, actions: seq<Action>): Ledger {
    if actions == [] then Start(instance)
    else Step(h, Exec(h, instance, actions[..|actions| - 1]), actions[|actions| - 1])
  }

  /** An epoch passed between two neighbouring events without an event of its own. */
  predicate Skips(links: seq<ChainLink>, i: int)
    requires 0 < i < |links|
  {
    links[i].recoveryEpoch > links[i - 1].recoveryEpoch + 1
  }

  ghost predicate LinkAsWritten(h: Hasher, links: seq<ChainLink>, events: seq<Event>, i: int)
    requires |links| == |events| && 0 <= i < |links|
  {
    LinkFault(h, links, events, i) == if i > 0 && Skips(links, i) then Some("audit-history-epoch") else None
  }

  ghost predicate ChainInv(h: Hasher, links: seq<ChainLink>, events: seq<Event>) {
    && |links| == |events|
    && (forall i :: 0 <= i < |links| ==> LinkAsWritten(h, links, events, i))
    && (forall i :: 0 <= i < |events| ==> links[i].eventID == i + 1)
  }

  /** The newest link is the top of its epoch, and later epochs have none. */
  ghost predicate TopInv(links: seq<ChainLink>) {
    links != [] ==>
      && TopOfEpoch(links, links[|links| - 1].recoveryEpoch) == Some(links[|links| - 1])
      && forall e :: e > links[|links| - 1].recoveryEpoch ==> TopOfEpoch(links, e).None?
  }

  ghost predicate MetaInv(l: Ledger) {
    && l.sequence == |l.links| && l.epoch >= 0
    && (forall e :: e in l.genesis ==> ValidFingerprint(l.genesis[e]))
    && (l.links != [] ==>
          && l.links[|l.links| - 1].recoveryEpoch <= l.epoch
          && ValidFingerprint(l.links[|l.links| - 1].linkDigest) && l.links[|l.links| - 1].segmentSequence > 0
          && (l.links[|l.links| - 1].recoveryEpoch == l.epoch ==> l.links[|l.links| - 1].instanceID == l.instanceID))
  }

  ghost predicate WriterInv(h: Hasher, l: Ledger) {
    ChainInv(h, l.links, l.events) && TopInv(l.links) && MetaInv(l)
  }

  lemma AppendKeepsTop(links: seq<ChainLink>, link: ChainLink)
    requires TopInv(links)
    requires links != [] ==> link.recoveryEpoch >= links[|links| - 1].recoveryEpoch
    requires links != [] && link.recoveryEpoch == links[|links| - 1].recoveryEpoch ==>
      link.segmentSequence > links[|links| - 1].segmentSequence
    ensures TopInv(links + [link])
  {
    assert (links + [link])[..|links|] == links;
  }

  /** The new link satisfies every check but the epoch step, which fails exactly when an epoch was skipped. */
  lemma NewLinkAsWritten(h: Hasher, l: Ledger, event: Event, ids: ContextIDs)
    requires WriterInv(h, l) && NextLink(h, l, event, ids).Some?
    requires event.eventID == l.sequence + 1 && event.recoveryEpoch == l.epoch
    ensures var link := NextLink(h, l, event, ids).value;
      && LinkAsWritten(h, l.links + [link], l.events + [event], |l.links|)
      && link.eventID == l.sequence + 1 && link.recoveryEpoch == l.epoch && link.instanceID == l.instanceID
      && (l.links != [] && l.links[|l.links| - 1].recoveryEpoch == l.epoch ==>
            link.segmentSequence == l.links[|l.links| - 1].segmentSequence + 1)
      && ValidFingerprint(link.linkDigest) && link.segmentSequence > 0
  {
    var link := NextLink(h, l, event, ids).value;
    var links, events := l.links + [link], l.events + [event];
    var n := |l.links|;
    assert links[n] == link && events[n] == event;
    assert WellBound(link, event);
    assert DigestFault(h, link, event).None?;
    if n > 0 {
      var last := l.links[n - 1];
      assert links[n - 1] == last;
      assert last.eventID == n;
      if last.recoveryEpoch == l.epoch {
        assert TopOfEpoch(l.links, l.epoch) == Some(last);
        assert SuccessionFault(last, link).None?;
      } else {
        assert TopOfEpoch(l.links, l.epoch).None?;
        assert link.segmentSequence == 1;
      }
    }
  }

  lemma AppendKeepsChain(h: Hasher, links: seq<ChainLink>, events: seq<Event>, link: ChainLink, event: Event)
    requires ChainInv(h, links, events)
    requires LinkAsWritten(h, links + [link], events + [event], |links|) && link.eventID == |links| + 1
    ensures ChainInv(h, links + [link], events + [event])
  {
    var links', events' := links + [link], events + [event];
    forall i | 0 <= i < |links'| ensures LinkAsWritten(h, links', events', i) {
      if i < |links| {
        assert LinkAsWritten(h, links, events, i);
        assert links'[i] == links[i] && events'[i] == events[i];
        assert i > 0 ==> links'[i - 1] == links[i - 1];
      }
    }
  }

  lemma AppendKeepsMeta(l: Ledger, link: ChainLink, event: Event, genesis: string)
    requires MetaInv(l) && ValidFingerprint(genesis) && ValidFingerprint(link.linkDigest) && link.segmentSequence > 0
    requires link.recoveryEpoch == l.epoch && link.instanceID == l.instanceID
    ensures MetaInv(l.(sequence := l.sequence + 1, genesis := l.genesis[l.epoch := genesis],
                       links := l.links + [link], events := l.events + [event]))
  {
    assert (l.links + [link])[|l.links|] == link;
  }

  lemma EnsuredGenesisIsValid(h: Hasher, l: Ledger)
    requires MetaInv(l) && EnsuredGenesis(h, l).Some?
    ensures ValidFingerprint(EnsuredGenesis(h, l).value)
  {
  }

  lemma AppendKeeps(h: Hasher, l: Ledger, event: Event, ids: ContextIDs)
    requires WriterInv(h, l)
    ensures WriterInv(h, Appended(h, l, event, ids))
  {
    var stamped := Stamped(l, event);
    var link := NextLink(h, l, stamped, ids);
    if link.Some? {
      NewLinkAsWritten(h, l, stamped, ids);
      AppendKeepsChain(h, l.links, l.events, link.value, stamped);
      AppendKeepsTop(l.links, link.value);
      EnsuredGenesisIsValid(h, l);
      AppendKeepsMeta(l, link.value, stamped, EnsuredGenesis(h, l).value);
    }
  }

  lemma StepKeeps(h: Hasher, l: Ledger, a: Action)
    requires WriterInv(h, l)
    ensures WriterInv(h, Step(h, l, a))
  {
    if a.Append? {
      AppendKeeps(h, l, a.event, a.ids);
    }
  }

  lemma {:induction false} WriterInvariant(h: Hasher, instance: string, actions: seq<Action>)
    ensures WriterInv(h, Exec(h, instance, actions))
  {
    if actions != [] {
      WriterInvariant(h, instance, actions[..|actions| - 1]);
      StepKeeps(h, Exec(h, instance, actions[..|actions| - 1]), actions[|actions| - 1]);
    }
  }

  lemma FaultsAsWritten(h: Hasher, links: seq<ChainLink>, events: seq<Event>)
    requires ChainInv(h, links, events)
    ensures forall i :: 0 <= i < |links| ==>
      Faults(h, links, events)[i] == if i > 0 && Skips(links, i) then Some("audit-history-epoch") else None
  {
    forall i | 0 <= i < |links|
      ensures Faults(h, links, events)[i] == if i > 0 && Skips(links, i) then Some("audit-history-epoch") else None
    {
      assert LinkAsWritten(h, links, events, i);
    }
  }

  lemma FirstReasonAsWritten(h: Hasher, links: seq<ChainLink>, events: seq<Event>)
    requires ChainInv(h, links, events)
    ensures FirstReason(Faults(h, links, events), 0) in {None, Some("audit-history-epoch")}
    ensures FirstReason(Faults(h, links, events), 0).None? <==> forall i :: 0 < i < |links| ==> !Skips(links, i)
  {
    FaultsAsWritten(h, links, events);
    var at := FirstReasonIsFirst(Faults(h, links, events), 0);
  }

  lemma RefusedForSkips(h: Hasher, l: Ledger)
    requires WriterInv(h, l)
    ensures var verdict := LocalVerdict(h, l.links, l.events, []);
      && (verdict.Accepted? <==> forall i :: 0 < i < |l.links| ==> !Skips(l.links, i))
      && (verdict.Incident? ==> verdict.reason == "audit-history-epoch")
  {
    FirstReasonAsWritten(h, l.links, l.events);
  }

  // ----- the condition on the run

  /** The action commits an event. */
  predicate Commits(h: Hasher, l: Ledger, a: Action) {
    a.Append? && NextLink(h, l, Stamped(l, a.event), a.ids).Some?
  }

  /** The action moves to the next epoch. */
  predicate MovesOn(h: Hasher, l: Ledger, a: Action) {
    Step(h, l, a).epoch != l.epoch
  }

  /** The recoveries that took effect since the last committed event. */
  function RecoveriesSinceEvent(h: Hasher, instance: string, actions: seq<Action>): nat {
    if actions == [] then 0
    else
      var before, a := actions[..|actions| - 1], actions[|actions| - 1];
      var l := Exec(h, instance, before);
      if Commits(h, l, a) then 0 else RecoveriesSinceEvent(h, instance, before) + if MovesOn(h, l, a) then 1 else 0
  }

  /** Some event was committed after another with two or more recoveries in between. */
  predicate PassedOver(h: Hasher, instance: string, actions: seq<Action>) {
    && actions != []
    && var before, a := actions[..|actions| - 1], actions[|actions| - 1];
      var l := Exec(h, instance, before);
      || PassedOver(h, instance, before)
      || (Commits(h, l, a) && l.links != [] && RecoveriesSinceEvent(h, instance, before) >= 2)
  }

  predicate SkipsSomewhere(links: seq<ChainLink>) {
    exists i :: 0 < i < |links| && Skips(links, i)
  }

  lemma SkipsGrow(links: seq<ChainLink>, link: ChainLink)
    ensures SkipsSomewhere(links + [link]) <==>
      SkipsSomewhere(links) || (links != [] && link.recoveryEpoch > links[|links| - 1].recoveryEpoch + 1)
  {
    var more := links + [link];
    assert forall i :: 0 < i < |links| ==> Skips(more, i) == Skips(links, i);
    assert links != [] ==> Skips(more, |links|) == (link.recoveryEpoch > links[|links| - 1].recoveryEpoch + 1);
  }

  /** A committed event adds a link of the current epoch; nothing else adds links, and an epoch moves on by one. */
  lemma StepEffect(h: Hasher, l: Ledger, a: Action) returns (link: Option<ChainLink>)
    requires WriterInv(h, l)
    ensures link.Some? <==> Commits(h, l, a)
    ensures var next := Step(h, l, a);
      && next.links == (if link.Some? then l.links + [link.value] else l.links)
      && (link.Some? ==> link.value.recoveryEpoch == l.epoch == next.epoch)
      && (link.None? ==> next.epoch == l.epoch + if MovesOn(h, l, a) then 1 else 0)
  {
    link := None;
    if Commits(h, l, a) {
      NewLinkAsWritten(h, l, Stamped(l, a.event), a.ids);
      link := NextLink(h, l, Stamped(l, a.event), a.ids);
    }
  }

  /** The epoch is that of the newest event plus the recoveries since, and an epoch was skipped exactly when the run
      passed one over. */
  lemma {:induction false} RunAgainstLedger(h: Hasher, instance: string, actions: seq<Action>)
    ensures var l := Exec(h, instance, actions);
      && (l.links != [] ==>
            l.epoch == l.links[|l.links| - 1].recoveryEpoch + RecoveriesSinceEvent(h, instance, actions))
      && (SkipsSomewhere(l.links) <==> PassedOver(h, instance, actions))
  {
    if actions != [] {
      var before, a := actions[..|actions| - 1], actions[|actions| - 1];
      var l := Exec(h, instance, before);
      RunAgainstLedger(h, instance, before);
      WriterInvariant(h, instance, before);
      var link := StepEffect(h, l, a);
      if link.Some? {
        SkipsGrow(l.links, link.value);
      }
    }
  }

  /** Of the store's transactions alone, called in any order: every history is accepted, or refused for its epochs, and
      refused exactly when two or more recoveries took effect between two committed events. The transactions themselves
      do not prevent that; the canary that enables a recovered authority does. */
  lemma WriterAgainstVerifier(h: Hasher, instance: string, actions: seq<Action>)
    ensures var l := Exec(h, instance, actions);
      var verdict := LocalVerdict(h, l.links, l.events, []);
      && (verdict.Accepted? <==> !PassedOver(h, instance, actions))
      && (verdict.Incident? ==> verdict.reason == "audit-history-epoch")
  {
    WriterInvariant(h, instance, actions);
    RefusedForSkips(h, Exec(h, instance, actions));
    RunAgainstLedger(h, instance, actions);
  }

  // ----- the refused history, concretely

  const NO_CONTEXT := ContextIDs("", "", "")

  const SAMPLE := Event("vegastack-labs.dev/audit-event", "1.0.0", 1, "2026-01-01T00:00:00Z", 0, 0, "a.b", "c", None,
                        None, "p", "m", None, None, None, None, Target("k", "t"), None, None)

  lemma SampleTypeIsValid()
    ensures ValidEventType("a.b")
  {
    SplitPlain("b", '.');
    assert "a" + ['.'] + "b" == "a.b";
    SplitAtSeparator("a", "b", '.');
    assert LowerName("a", false) && LowerName("b", true);
  }

  lemma SampleTimeIsValid()
    ensures CanonicalUtc("2026-01-01T00:00:00Z")
  {
  }

  lemma OneLetterToken(token: string, maximum: nat)
    requires |token| == 1 && 'a' <= token[0] <= 'z' && maximum >= 1
    ensures ValidToken(token, maximum)
  {
    assert forall i :: 0 <= i < |SECRET_PREFIXES| ==> |SECRET_PREFIXES[i]| > 1;
  }

  lemma SampleIsValid(id: int, epoch: int)
    requires id > 0 && epoch >= 0
    ensures ValidEvent(SAMPLE.(eventID := id, recoveryEpoch := epoch))
  {
    SampleTypeIsValid();
    SampleTimeIsValid();
    OneLetterToken("c", 128);
    OneLetterToken("k", 64);
    OneLetterToken("t", 128);
    OneLetterToken("p", 128);
    OneLetterToken("m", 64);
  }

  lemma ExecOneMore(h: Hasher, instance: string, actions: seq<Action>, a: Action)
    ensures Exec(h, instance, actions + [a]) == Step(h, Exec(h, instance, actions), a)
  {
    assert (actions + [a])[..|actions + [a]| - 1] == actions;
  }

  /** The first event of an epoch whose genesis is known is linked. */
  lemma FirstOfEpochIsLinked(h: Hasher, l: Ledger, event: Event, ids: ContextIDs)
    requires ValidToken(l.instanceID, 128) && TopOfEpoch(l.links, l.epoch).None?
    requires EnsuredGenesis(h, l).Some? && ValidFingerprint(EnsuredGenesis(h, l).value)
    requires ValidEvent(Stamped(l, event)) && ValidContext(ids)
    ensures var more := Appended(h, l, event, ids);
      && |more.links| == |l.links| + 1 && more.links[|l.links|].recoveryEpoch == l.epoch
      && more.links[..|l.links|] == l.links
      && more.epoch == l.epoch && more.sequence == l.sequence + 1 && more.ready == l.ready
      && more.genesis.Keys == l.genesis.Keys + {l.epoch}
  {
  }

  /** A recovery into an epoch not yet prepared only moves the epoch on. */
  lemma RecoveryMovesOn(h: Hasher, l: Ledger, instance: string, digest: string)
    requires l.ready && l.epoch >= 0 && l.epoch + 1 !in l.genesis && ValidToken(instance, 128)
    requires ValidFingerprint(digest)
    ensures var next := Step(h, Step(h, l, Recover(instance, digest, digest)), Enable);
      && next.epoch == l.epoch + 1 && next.links == l.links && next.ready && next.instanceID == instance
      && next.sequence == l.sequence
      && next.genesis.Keys == l.genesis.Keys + {l.epoch + 1} && ValidFingerprint(next.genesis[l.epoch + 1])
  {
  }

  const SAMPLE_RUN := [Append(SAMPLE, NO_CONTEXT)]

  function TwoRecoveries(digest: string): seq<Action> {
    SAMPLE_RUN + [Recover("y", digest, digest)] + [Enable] + [Recover("z", digest, digest)] + [Enable] + SAMPLE_RUN
  }

  /** For instance two recoveries enabled by direct calls, without the canary's event: the verifier reports an
      incident. */
  lemma TwoRecoveriesWithoutAnEvent(h: Hasher)
    ensures var l := Exec(h, "x", TwoRecoveries(h(Nothing)));
      LocalVerdict(h, l.links, l.events, []) == Incident("audit-history-epoch")
  {
    var digest := h(Nothing);
    SkippedEpochExists(h, digest);
    WriterInvariant(h, "x", TwoRecoveries(digest));
    RefusedForSkips(h, Exec(h, "x", TwoRecoveries(digest)));
  }

  lemma OneEvent(h: Hasher) returns (l: Ledger)
    ensures l == Step(h, Start("x"), Append(SAMPLE, NO_CONTEXT))
    ensures |l.links| == 1 && l.links[0].recoveryEpoch == 0 && l.epoch == 0 && l.sequence == 1 && l.ready
    ensures l.genesis.Keys == {0}
  {
    OneLetterToken("x", 128);
    SampleIsValid(1, 0);
    FirstOfEpochIsLinked(h, Start("x"), SAMPLE, NO_CONTEXT);
    l := Step(h, Start("x"), Append(SAMPLE, NO_CONTEXT));
  }

  /** One event in epoch 0, then two recoveries. */
  lemma RecoveredTwice(h: Hasher, digest: string) returns (l: Ledger)
    requires ValidFingerprint(digest)
    ensures var l1 := Step(h, Start("x"), Append(SAMPLE, NO_CONTEXT));
      var l2 := Step(h, Step(h, l1, Recover("y", digest, digest)), Enable);
      l == Step(h, Step(h, l2, Recover("z", digest, digest)), Enable)
    ensures |l.links| == 1 && l.links[0].recoveryEpoch == 0 && l.epoch == 2 && l.sequence == 1 && l.instanceID == "z"
    ensures 2 in l.genesis && ValidFingerprint(l.genesis[2])
  {
    OneLetterToken("y", 128);
    OneLetterToken("z", 128);
    var l1 := OneEvent(h);
    RecoveryMovesOn(h, l1, "y", digest);
    var l2 := Step(h, Step(h, l1, Recover("y", digest, digest)), Enable);
    RecoveryMovesOn(h, l2, "z", digest);
    l := Step(h, Step(h, l2, Recover("z", digest, digest)), Enable);
  }

  lemma SkippedEpochExists(h: Hasher, digest: string)
    requires ValidFingerprint(digest)
    ensures var l := Exec(h, "x", TwoRecoveries(digest)); |l.links| == 2 && Skips(l.links, 1)
  {
    var l := RecoveredTwice(h, digest);
    OneLetterToken("z", 128);
    SampleIsValid(2, 2);
    LaterEpochHasNoTop(l.links, 2);
    FirstOfEpochIsLinked(h, l, SAMPLE, NO_CONTEXT);
    UnrollTwoRecoveries(h, digest);
    assert Appended(h, l, SAMPLE, NO_CONTEXT).links[..1][0] == l.links[0];
  }

  lemma LaterEpochHasNoTop(links: seq<ChainLink>, epoch: int)
    requires |links| == 1 && links[0].recoveryEpoch != epoch
    ensures TopOfEpoch(links, epoch).None?
  {
    assert links[..0] == [];
  }

  lemma UnrollTwoRecoveries(h: Hasher, digest: string)
    ensures var l1 := Step(h, Start("x"), Append(SAMPLE, NO_CONTEXT));
      var l2 := Step(h, Step(h, l1, Recover("y", digest, digest)), Enable);
      var l3 := Step(h, Step(h, l2, Recover("z", digest, digest)), Enable);
      Exec(h, "x", TwoRecoveries(digest)) == Step(h, l3, Append(SAMPLE, NO_CONTEXT))
  {
    var r1 := SAMPLE_RUN;
    assert r1 == [] + [Append(SAMPLE, NO_CONTEXT)];
    ExecOneMore(h, "x", [], Append(SAMPLE, NO_CONTEXT));
    var r2 := r1 + [Recover("y", digest, digest)];
    ExecOneMore(h, "x", r1, Recover("y", digest, digest));
    var r3 := r2 + [Enable];
    ExecOneMore(h, "x", r2, Enable);
    var r4 := r3 + [Recover("z", digest, digest)];
    ExecOneMore(h, "x", r3, Recover("z", digest, digest));
    var r5 := r4 + [Enable];
    ExecOneMore(h, "x", r4, Enable);
    ExecOneMore(h, "x", r5, Append(SAMPLE, NO_CONTEXT));
  }

  // ----- where epochs begin

  /** The digest is what the epoch of this instance begins with: the setup's for epoch 0, and otherwise that of a
      recovery in the run, over its prior checkpoint and its decision. */
  ghost predicate Begins(h: Hasher, instance: string, actions: seq<Action>, name: string, epoch: int, digest: string) {
    if epoch == 0 then name == instance && digest == h(GenesisDoc(instance, 0, h(Nothing), h(Nothing)))
    else exists a :: && a in actions && a.Recover? && a.instance == name
                     && digest == h(GenesisDoc(name, epoch, a.prior, a.decision))
  }

  ghost predicate LinkBegins(h: Hasher, instance: string, actions: seq<Action>, link: ChainLink) {
    link.segmentSequence == 1 ==>
      Begins(h, instance, actions, link.instanceID, link.recoveryEpoch, link.previousDigest)
  }

  ghost predicate BeginsInv(h: Hasher, instance: string, actions: seq<Action>, l: Ledger) {
    && (if l.epoch in l.genesis then Begins(h, instance, actions, l.instanceID, l.epoch, l.genesis[l.epoch])
        else l.epoch == 0 && l.instanceID == instance)
    && forall i :: 0 <= i < |l.links| ==> LinkBegins(h, instance, actions, l.links[i])
  }

  lemma BeginsStays(h: Hasher, instance: string, before: seq<Action>, actions: seq<Action>, name: string, epoch: int,
                    digest: string)
    requires before <= actions && Begins(h, instance, before, name, epoch, digest)
    ensures Begins(h, instance, actions, name, epoch, digest)
  {
    if epoch != 0 {
      var a :| && a in before && a.Recover? && a.instance == name
               && digest == h(GenesisDoc(name, epoch, a.prior, a.decision));
      assert a in actions;
    }
  }

  lemma InvStays(h: Hasher, instance: string, before: seq<Action>, actions: seq<Action>, l: Ledger)
    requires before <= actions && BeginsInv(h, instance, before, l)
    ensures BeginsInv(h, instance, actions, l)
  {
    if l.epoch in l.genesis {
      BeginsStays(h, instance, before, actions, l.instanceID, l.epoch, l.genesis[l.epoch]);
    }
    forall i | 0 <= i < |l.links| ensures LinkBegins(h, instance, actions, l.links[i]) {
      var link := l.links[i];
      assert LinkBegins(h, instance, before, link);
      if link.segmentSequence == 1 {
        BeginsStays(h, instance, before, actions, link.instanceID, link.recoveryEpoch, link.previousDigest);
      }
    }
  }

  lemma EnsuredBegins(h: Hasher, instance: string, actions: seq<Action>, l: Ledger)
    requires BeginsInv(h, instance, actions, l) && EnsuredGenesis(h, l).Some?
    ensures Begins(h, instance, actions, l.instanceID, l.epoch, EnsuredGenesis(h, l).value)
  {
  }

  lemma NextBegins(h: Hasher, instance: string, actions: seq<Action>, l: Ledger, event: Event, ids: ContextIDs)
    requires BeginsInv(h, instance, actions, l) && WriterInv(h, l) && event.recoveryEpoch == l.epoch
    requires NextLink(h, l, event, ids).Some?
    ensures LinkBegins(h, instance, actions, NextLink(h, l, event, ids).value)
  {
    EnsuredBegins(h, instance, actions, l);
    if l.links != [] {
      var last := l.links[|l.links| - 1];
      assert if last.recoveryEpoch == l.epoch then TopOfEpoch(l.links, l.epoch) == Some(last)
             else TopOfEpoch(l.links, l.epoch).None?;
    }
  }

  lemma AppendBegins(h: Hasher, instance: string, actions: seq<Action>, l: Ledger, event: Event, ids: ContextIDs)
    requires BeginsInv(h, instance, actions, l) && WriterInv(h, l)
    ensures BeginsInv(h, instance, actions, Appended(h, l, event, ids))
  {
    var stamped := Stamped(l, event);
    if NextLink(h, l, stamped, ids).Some? {
      EnsuredBegins(h, instance, actions, l);
      NextBegins(h, instance, actions, l, stamped, ids);
    }
  }

  lemma StepBegins(h: Hasher, instance: string, actions: seq<Action>, l: Ledger, a: Action)
    requires BeginsInv(h, instance, actions, l) && WriterInv(h, l) && a in actions
    ensures BeginsInv(h, instance, actions, Step(h, l, a))
  {
    match a
    case Append(event, ids) => AppendBegins(h, instance, actions, l, event, ids);
    case Recover(name, prior, decision) =>
      var next := Step(h, l, a);
      if next != l {
        assert Begins(h, instance, actions, name, next.epoch, next.genesis[next.epoch]);
      }
    case _ =>
  }

  lemma {:induction false} BeginningsHold(h: Hasher, instance: string, actions: seq<Action>)
    ensures BeginsInv(h, instance, actions, Exec(h, instance, actions))
  {
    if actions != [] {
      var before, a := actions[..|actions| - 1], actions[|actions| - 1];
      BeginningsHold(h, instance, before);
      var l := Exec(h, instance, before);
      WriterInvariant(h, instance, before);
      InvStays(h, instance, before, actions, l);
      StepBegins(h, instance, actions, l, a);
    }
  }

  /** In every run the first link of an epoch follows the genesis of the very recovery that began the epoch, over its
      instance, prior checkpoint and decision; in epoch 0, that of the setup. */
  lemma EpochBeginsAtItsRecovery(h: Hasher, instance: string, actions: seq<Action>, i: nat)
    requires i < |Exec(h, instance, actions).links|
    requires FirstOfEpoch(Exec(h, instance, actions).links, i)
    ensures var link := Exec(h, instance, actions).links[i];
      Begins(h, instance, actions, link.instanceID, link.recoveryEpoch, link.previousDigest)
  {
    BeginningsHold(h, instance, actions);
    EpochsCountFromOne(h, instance, actions);
    assert LinkBegins(h, instance, actions, Exec(h, instance, actions).links[i]);
  }

  predicate FirstOfEpoch(links: seq<ChainLink>, i: nat)
    requires i < |links|
  {
    i == 0 || links[i - 1].recoveryEpoch != links[i].recoveryEpoch
  }

  /** Sequences begin at one in every epoch. */
  predicate CountsFromOne(links: seq<ChainLink>) {
    forall i: nat :: i < |links| && FirstOfEpoch(links, i) ==> links[i].segmentSequence == 1
  }

  lemma CountsGrow(links: seq<ChainLink>, link: ChainLink)
    requires CountsFromOne(links)
    requires links == [] || links[|links| - 1].recoveryEpoch != link.recoveryEpoch ==> link.segmentSequence == 1
    ensures CountsFromOne(links + [link])
  {
    var more := links + [link];
    forall i: nat | i < |more| && FirstOfEpoch(more, i) ensures more[i].segmentSequence == 1 {
      if i < |links| {
        assert more[i] == links[i] && (i > 0 ==> more[i - 1] == links[i - 1]);
        assert FirstOfEpoch(links, i);
      } else {
        assert more[i] == link && (i > 0 ==> more[i - 1] == links[|links| - 1]);
      }
    }
  }

  lemma StepCounts(h: Hasher, l: Ledger, a: Action)
    requires WriterInv(h, l) && CountsFromOne(l.links)
    ensures CountsFromOne(Step(h, l, a).links)
  {
    var link := StepEffect(h, l, a);
    if link.Some? {
      NewestCounts(h, l, a, link.value);
      CountsGrow(l.links, link.value);
    }
  }

  lemma {:induction false} EpochsCountFromOne(h: Hasher, instance: string, actions: seq<Action>)
    ensures CountsFromOne(Exec(h, instance, actions).links)
  {
    if actions != [] {
      var before := actions[..|actions| - 1];
      EpochsCountFromOne(h, instance, before);
      WriterInvariant(h, instance, before);
      StepCounts(h, Exec(h, instance, before), actions[|actions| - 1]);
    }
  }

  lemma NewestCounts(h: Hasher, l: Ledger, a: Action, link: ChainLink)
    requires WriterInv(h, l) && Commits(h, l, a) && Step(h, l, a).links == l.links + [link]
    ensures l.links == [] || l.links[|l.links| - 1].recoveryEpoch != link.recoveryEpoch ==> link.segmentSequence == 1
  {
    var next := NextLink(h, l, Stamped(l, a.event), a.ids).value;
    assert (l.links + [next])[|l.links|] == next && (l.links + [link])[|l.links|] == link;
    if l.links == [] || l.links[|l.links| - 1].recoveryEpoch != link.recoveryEpoch {
      assert TopOfEpoch(l.links, l.epoch).None?;
    }
  }
}
