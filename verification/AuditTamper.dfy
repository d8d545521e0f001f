/** Tamper evidence: what two accepted histories must share when their digests agree. */
module AuditTamper {
  import opened Text
  import opened AuditChain
  import opened AuditVerify

  /** Agreement on everything the link digest binds, and on the context behind its digest. */
  predicate SameBound(a: ChainLink, b: ChainLink) {
    LinkDocOf(a) == LinkDocOf(b) && a.linkDigest == b.linkDigest && a.context == b.context
  }

  predicate SameBoundAll(a: seq<ChainLink>, b: seq<ChainLink>) {
    |a| == |b| && forall i :: 0 <= i < |a| ==> SameBound(a[i], b[i])
  }

  /** The documents whose digests one link rests on. */
  function DocsOf(link: ChainLink, event: Event): set<Document> {
    {LinkDocOf(link), EventDoc(event), ContextDoc(link.context)}
  }

  /** The documents of a whole history. */
  function Docs(links: seq<ChainLink>, events: seq<Event>): set<Document>
    requires |links| == |events|
  {
    set i, d | 0 <= i < |links| && d in DocsOf(links[i], events[i]) :: d
  }

  /** The documents of the last epoch. */
  function SegmentDocs(links: seq<ChainLink>, events: seq<Event>): set<Document>
    requires |links| == |events|
  {
    set i, d | 0 <= i < |links| && InLastEpoch(links, i) && d in DocsOf(links[i], events[i]) :: d
  }

  predicate InLastEpoch(links: seq<ChainLink>, i: nat)
    requires i < |links|
  {
    links[i].recoveryEpoch == links[|links| - 1].recoveryEpoch
  }

  lemma PassingLink(h: Hasher, links: seq<ChainLink>, events: seq<Event>, i: nat)
    requires Chained(h, links, events) && i < |links|
    ensures links[i].linkDigest == h(LinkDocOf(links[i]))
    ensures links[i].payloadDigest == h(EventDoc(events[i]))
    ensures links[i].contextDigest == h(ContextDoc(links[i].context))
    ensures links[i].segmentSequence > 0
    ensures i > 0 ==> SuccessionFault(links[i - 1], links[i]).None?
  {
    assert LinkFault(h, links, events, i).None?;
    var l := links[i];
    var rebuilt := MakeChainLink(h, events[i], l.context, l.instanceID, l.segmentSequence, l.previousDigest,
                                 l.preAnchor);
    assert LinkDocOf(rebuilt.value) == LinkDocOf(l);
  }

  lemma SameDigestSameLink(h: Hasher, docs: set<Document>, links: seq<ChainLink>, events: seq<Event>, i: nat,
                           links': seq<ChainLink>, events': seq<Event>, j: nat)
    requires Chained(h, links, events) && Chained(h, links', events') && i < |links| && j < |links'|
    requires CollisionFree(h, docs) && DocsOf(links[i], events[i]) <= docs && DocsOf(links'[j], events'[j]) <= docs
    requires links[i].linkDigest == links'[j].linkDigest
    ensures SameBound(links[i], links'[j]) && events[i] == events'[j]
  {
    PassingLink(h, links, events, i);
    PassingLink(h, links', events', j);
    assert LinkDocOf(links[i]) in docs && LinkDocOf(links'[j]) in docs;
    assert EventDoc(events[i]) in docs && EventDoc(events'[j]) in docs;
    assert ContextDoc(links[i].context) in docs && ContextDoc(links'[j].context) in docs;
    assert LinkDocOf(links[i]) == LinkDocOf(links'[j]);
    assert EventDoc(events[i]) == EventDoc(events'[j]);
    assert ContextDoc(links[i].context) == ContextDoc(links'[j].context);
  }

  /** `link` is what MakeChainLink returns for `event`, in every field a digest binds. */
  ghost predicate MadeFrom(h: Hasher, link: ChainLink, event: Event) {
    exists ids, instance, sequence, previous, preAnchor ::
      var made := MakeChainLink(h, event, ids, instance, sequence, previous, preAnchor);
      made.Some? && SameBound(made.value, link)
  }

  /** The next event, continuing the segment or opening the next epoch. */
  predicate Extends(prior: ChainLink, link: ChainLink) {
    && link.eventID == prior.eventID + 1
    && (|| (link.recoveryEpoch == prior.recoveryEpoch && link.instanceID == prior.instanceID
            && link.segmentSequence == prior.segmentSequence + 1 && link.previousDigest == prior.linkDigest)
        || (link.recoveryEpoch == prior.recoveryEpoch + 1 && link.segmentSequence == 1))
  }

  /** The i-th link was made for its event and extends the one before it. */
  ghost predicate GrownAt(h: Hasher, links: seq<ChainLink>, events: seq<Event>, i: nat)
    requires |links| == |events| && i < |links|
  {
    MadeFrom(h, links[i], events[i]) && (i > 0 ==> Extends(links[i - 1], links[i]))
  }

  /** Histories grown link by link. */
  ghost predicate Grown(h: Hasher, links: seq<ChainLink>, events: seq<Event>) {
    |links| == |events| && forall i :: 0 <= i < |links| ==> GrownAt(h, links, events, i)
  }

  lemma PassesIffMade(h: Hasher, links: seq<ChainLink>, events: seq<Event>, i: nat)
    requires |links| == |events| && i < |links|
    ensures LinkFault(h, links, events, i).None? <==> GrownAt(h, links, events, i)
  {
    var l, e := links[i], events[i];
    var rebuilt := MakeChainLink(h, e, l.context, l.instanceID, l.segmentSequence, l.previousDigest, l.preAnchor);
    if LinkFault(h, links, events, i).None? {
      assert SameBound(rebuilt.value, l);
    }
    if MadeFrom(h, l, e) {
      var ids, instance, sequence, previous, preAnchor :|
        var made := MakeChainLink(h, e, ids, instance, sequence, previous, preAnchor);
        made.Some? && SameBound(made.value, l);
      assert MakeChainLink(h, e, ids, instance, sequence, previous, preAnchor) == rebuilt;
    }
  }

  /** Verification accepts exactly the histories that MakeChainLink can grow. */
  lemma AcceptedIsGrown(h: Hasher, links: seq<ChainLink>, events: seq<Event>)
    ensures Chained(h, links, events) <==> links != [] && Grown(h, links, events)
  {
    if |links| == |events| {
      forall i | 0 <= i < |links| ensures LinkFault(h, links, events, i).None? <==> GrownAt(h, links, events, i) {
        PassesIffMade(h, links, events, i);
      }
    }
  }

  /** Inside a segment the sequence number is above one, so the predecessor is always pinned. */
  lemma PredecessorPinned(h: Hasher, links: seq<ChainLink>, events: seq<Event>, i: nat)
    requires Chained(h, links, events) && 0 < i < |links| && links[i].segmentSequence > 1
    ensures links[i].previousDigest == links[i - 1].linkDigest && links[i].recoveryEpoch == links[i - 1].recoveryEpoch
  {
    PassingLink(h, links, events, i);
  }

  /** The last `k + 1` links all belong to the last epoch. */
  predicate InLastSegment(links: seq<ChainLink>, k: nat)
    requires k < |links|
  {
    forall i :: |links| - 1 - k <= i < |links| ==> InLastEpoch(links, i)
  }

  /** Two accepted histories that end in the same link digest agree, counted from the end, on every event and bound
      field of the last epoch segment, whatever their lengths. */
  lemma {:induction false} LastSegmentAgrees(h: Hasher, links: seq<ChainLink>, events: seq<Event>,
                                             links': seq<ChainLink>, events': seq<Event>, k: nat)
    requires Chained(h, links, events) && Chained(h, links', events')
    requires CollisionFree(h, SegmentDocs(links, events) + SegmentDocs(links', events'))
    requires links[|links| - 1].linkDigest == links'[|links'| - 1].linkDigest
    requires k < |links| && k < |links'| && InLastSegment(links, k)
    ensures SameBound(links[|links| - 1 - k], links'[|links'| - 1 - k]) && InLastEpoch(links', |links'| - 1 - k)
    ensures events[|events| - 1 - k] == events'[|events'| - 1 - k]
  {
    var i, j := |links| - 1 - k, |links'| - 1 - k;
    if k > 0 {
      LastSegmentAgrees(h, links, events, links', events', k - 1);
      assert InLastEpoch(links, i) && InLastEpoch(links, i + 1);
      PredecessorsAgree(h, links, events, i, links', events', j);
    }
    assert InLastEpoch(links, i);
    SegmentCovers(links, events, i);
    SegmentCovers(links', events', j);
    var docs := SegmentDocs(links, events) + SegmentDocs(links', events');
    SameDigestSameLink(h, docs, links, events, i, links', events', j);
  }

  lemma SegmentCovers(links: seq<ChainLink>, events: seq<Event>, i: nat)
    requires |links| == |events| && i < |links| && InLastEpoch(links, i)
    ensures DocsOf(links[i], events[i]) <= SegmentDocs(links, events)
  {
  }

  lemma PredecessorsAgree(h: Hasher, links: seq<ChainLink>, events: seq<Event>, i: nat,
                          links': seq<ChainLink>, events': seq<Event>, j: nat)
    requires Chained(h, links, events) && Chained(h, links', events') && i + 1 < |links| && j + 1 < |links'|
    requires SameBound(links[i + 1], links'[j + 1]) && links[i].recoveryEpoch == links[i + 1].recoveryEpoch
    ensures links[i].linkDigest == links'[j].linkDigest && links'[j].recoveryEpoch == links'[j + 1].recoveryEpoch
  {
    PassingLink(h, links, events, i);
    PassingLink(h, links, events, i + 1);
    assert links[i + 1].segmentSequence == links'[j + 1].segmentSequence > 1;
    PredecessorPinned(h, links', events', j + 1);
  }

  lemma {:induction false} EventIdsRise(h: Hasher, links: seq<ChainLink>, events: seq<Event>, i: nat)
    requires Chained(h, links, events) && i < |links|
    ensures links[i].eventID == links[0].eventID + i && events[i].eventID == links[i].eventID
  {
    assert LinkFault(h, links, events, i).None?;
    if i > 0 {
      EventIdsRise(h, links, events, i - 1);
    }
  }

  /** An accepted history with the same first event and the same last digest, where no two documents of the two last
      epochs collide. */
  ghost predicate Rivals(h: Hasher, links: seq<ChainLink>, events: seq<Event>, links': seq<ChainLink>,
                         events': seq<Event>)
    requires Chained(h, links, events)
  {
    && Chained(h, links', events') && links'[0].eventID == links[0].eventID
    && links'[|links'| - 1].linkDigest == links[|links| - 1].linkDigest
    && CollisionFree(h, SegmentDocs(links, events) + SegmentDocs(links', events'))
  }

  /** A whole history of one epoch is fixed by its first event id and its last link digest. */
  lemma LastDigestFixesHistory(h: Hasher, links: seq<ChainLink>, events: seq<Event>,
                               links': seq<ChainLink>, events': seq<Event>)
    requires Chained(h, links, events) && Rivals(h, links, events, links', events')
    requires InLastSegment(links, |links| - 1)
    ensures events == events'
  {
    EventIdsRise(h, links, events, |links| - 1);
    EventIdsRise(h, links', events', |links'| - 1);
    LastSegmentAgrees(h, links, events, links', events', 0);
    forall i | 0 <= i < |events| ensures events[i] == events'[i] {
      LastSegmentAgrees(h, links, events, links', events', |links| - 1 - i);
    }
  }

  // ----- what the last digest leaves open

  /** The same event at another state revision. */
  function Altered(event: Event): Event {
    event.(stateRevision := if event.stateRevision == 0 then 1 else event.stateRevision - 1)
  }

  /** The link MakeChainLink gives the altered event in the place of this one. */
  function Relinked(h: Hasher, link: ChainLink, event: Event): Option<ChainLink> {
    MakeChainLink(h, Altered(event), link.context, link.instanceID, link.segmentSequence, link.previousDigest,
                  link.preAnchor)
  }

  lemma RelinkedPasses(h: Hasher, links: seq<ChainLink>, events: seq<Event>, i: nat)
    requires Chained(h, links, events) && i < |links|
    ensures Relinked(h, links[i], events[i]).Some?
    ensures var link := Relinked(h, links[i], events[i]).value;
      && WellBound(link, Altered(events[i])) && DigestFault(h, link, Altered(events[i])).None?
      && link.instanceID == links[i].instanceID && link.segmentSequence == links[i].segmentSequence
      && link.previousDigest == links[i].previousDigest && link.eventID == links[i].eventID
      && link.recoveryEpoch == links[i].recoveryEpoch
  {
    assert LinkFault(h, links, events, i).None?;
  }

  /** The last event before a change of epoch is not pinned by anything after it: in every accepted history it can be
      replaced by another event, and only its own link changes. */
  lemma EarlierEpochsAreNotPinned(h: Hasher, links: seq<ChainLink>, events: seq<Event>, m: nat)
      returns (links': seq<ChainLink>, events': seq<Event>)
    requires Chained(h, links, events) && 0 < m < |links| && links[m].recoveryEpoch != links[m - 1].recoveryEpoch
    ensures Chained(h, links', events') && |links'| == |links| && events' != events
    ensures links'[0].eventID == links[0].eventID && links'[|links'| - 1].linkDigest == links[|links| - 1].linkDigest
    ensures forall i :: 0 <= i < |links| && i != m - 1 ==> links'[i] == links[i] && events'[i] == events[i]
    ensures links'[m - 1].recoveryEpoch == links[m - 1].recoveryEpoch
  {
    RelinkedPasses(h, links, events, m - 1);
    var link := Relinked(h, links[m - 1], events[m - 1]).value;
    links', events' := links[m - 1 := link], events[m - 1 := Altered(events[m - 1])];
    assert events'[m - 1].stateRevision != events[m - 1].stateRevision;
    forall i | 0 <= i < |links| ensures LinkFault(h, links', events', i).None? {
      assert LinkFault(h, links, events, i).None?;
    }
  }

  /** Where the last epoch begins, if it is not the first. */
  lemma {:induction false} StartOfLastEpoch(links: seq<ChainLink>, k: nat) returns (m: nat)
    requires k < |links| && InLastSegment(links, k) && !InLastSegment(links, |links| - 1)
    ensures 0 < m < |links| && InLastEpoch(links, m) && !InLastEpoch(links, m - 1)
    decreases |links| - k
  {
    var i := |links| - 1 - k;
    assert InLastEpoch(links, i);
    assert k < |links| - 1;
    if InLastEpoch(links, i - 1) {
      m := StartOfLastEpoch(links, k + 1);
    } else {
      m := i;
    }
  }

  ghost predicate FixedByLastDigest(h: Hasher, links: seq<ChainLink>, events: seq<Event>)
    requires Chained(h, links, events)
  {
    forall links', events' :: Rivals(h, links, events, links', events') ==> events' == events
  }

  /** The last digest of an accepted history fixes its events exactly when no link changes epoch. */
  lemma LastDigestFixesExactly(h: Hasher, links: seq<ChainLink>, events: seq<Event>)
    requires Chained(h, links, events) && CollisionFree(h, SegmentDocs(links, events))
    ensures FixedByLastDigest(h, links, events) <==>
      forall i :: 0 < i < |links| ==> links[i].recoveryEpoch == links[i - 1].recoveryEpoch
  {
    if InLastSegment(links, |links| - 1) {
      forall i | 0 < i < |links| ensures links[i].recoveryEpoch == links[i - 1].recoveryEpoch {
        assert InLastEpoch(links, i) && InLastEpoch(links, i - 1);
      }
      forall links', events' | Rivals(h, links, events, links', events') ensures events' == events {
        LastDigestFixesHistory(h, links, events, links', events');
      }
    } else {
      var m := StartOfLastEpoch(links, 0);
      var links', events' := EarlierEpochsAreNotPinned(h, links, events, m);
      SameSegmentDocs(links, events, links', events', m - 1);
      assert Rivals(h, links, events, links', events');
    }
  }

  lemma SameSegmentDocs(links: seq<ChainLink>, events: seq<Event>, links': seq<ChainLink>, events': seq<Event>, m: nat)
    requires |links| == |events| == |links'| == |events'| && m < |links| && !InLastEpoch(links, m)
    requires forall i :: 0 <= i < |links| && i != m ==> links'[i] == links[i] && events'[i] == events[i]
    requires links'[m].recoveryEpoch == links[m].recoveryEpoch
    ensures SegmentDocs(links', events') == SegmentDocs(links, events)
  {
    assert m != |links| - 1;
    assert forall i :: 0 <= i < |links| ==> InLastEpoch(links', i) == InLastEpoch(links, i);
    forall d ensures d in SegmentDocs(links', events') <==> d in SegmentDocs(links, events) {
      if i :| 0 <= i < |links| && InLastEpoch(links, i) && d in DocsOf(links[i], events[i]) {
        assert InLastEpoch(links', i) && d in DocsOf(links'[i], events'[i]);
      }
      if i :| 0 <= i < |links| && InLastEpoch(links', i) && d in DocsOf(links'[i], events'[i]) {
        assert InLastEpoch(links, i) && d in DocsOf(links[i], events[i]);
      }
    }
  }

  // ----- anchored ranges

  /** The documents behind an anchored range: the histories' own and the range documents. */
  function RangeDocs(links: seq<ChainLink>, events: seq<Event>, c: Checkpoint): set<Document>
    requires |links| == |events| && CheckpointShaped(c, |links|)
  {
    Docs(links, events) + {RangeDocOf(RangeOf(links, c))}
  }

  /** Two accepted histories whose checkpoints carry the same chain digest agree on every event of the range, across any
      number of epochs. */
  lemma AnchoredRangesAgree(h: Hasher, links: seq<ChainLink>, events: seq<Event>, c: Checkpoint,
                            links': seq<ChainLink>, events': seq<Event>, c': Checkpoint)
    requires Chained(h, links, events) && Chained(h, links', events')
    requires CheckpointFault(h, links, c).None? && CheckpointFault(h, links', c').None?
    requires c.chainDigest == c'.chainDigest
    requires CollisionFree(h, RangeDocs(links, events, c) + RangeDocs(links', events', c'))
    ensures c.lastEventID - c.firstEventID == c'.lastEventID - c'.firstEventID
    ensures events[c.firstEventID - 1..c.lastEventID] == events'[c'.firstEventID - 1..c'.lastEventID]
    ensures SameBoundAll(RangeOf(links, c), RangeOf(links', c'))
  {
    RangeDigestEqual(h, links, events, c, links', events', c');
    SlicesAgree(h, links, events, c.firstEventID - 1, links', events', c'.firstEventID - 1,
                c.lastEventID - c.firstEventID + 1);
  }

  lemma LinksAgree(h: Hasher, links: seq<ChainLink>, events: seq<Event>, i: nat,
                   links': seq<ChainLink>, events': seq<Event>, j: nat)
    requires Chained(h, links, events) && Chained(h, links', events') && i < |links| && j < |links'|
    requires CollisionFree(h, Docs(links, events) + Docs(links', events'))
    requires links[i].linkDigest == links'[j].linkDigest
    ensures SameBound(links[i], links'[j]) && events[i] == events'[j]
  {
    assert DocsOf(links[i], events[i]) <= Docs(links, events);
    assert DocsOf(links'[j], events'[j]) <= Docs(links', events');
    SameDigestSameLink(h, Docs(links, events) + Docs(links', events'), links, events, i, links', events', j);
  }

  lemma SlicesAgree(h: Hasher, links: seq<ChainLink>, events: seq<Event>, a: nat,
                    links': seq<ChainLink>, events': seq<Event>, b: nat, n: nat)
    requires Chained(h, links, events) && Chained(h, links', events') && a + n <= |links| && b + n <= |links'|
    requires Digests(links[a..a + n]) == Digests(links'[b..b + n])
    requires CollisionFree(h, Docs(links, events) + Docs(links', events'))
    ensures events[a..a + n] == events'[b..b + n]
    ensures SameBoundAll(links[a..a + n], links'[b..b + n])
  {
    var range, range', part, part' := links[a..a + n], links'[b..b + n], events[a..a + n], events'[b..b + n];
    forall i | 0 <= i < n ensures SameBound(range[i], range'[i]) && part[i] == part'[i] {
      assert Digests(range)[i] == Digests(range')[i];
      LinksAgree(h, links, events, a + i, links', events', b + i);
    }
  }

  lemma RangeDigestEqual(h: Hasher, links: seq<ChainLink>, events: seq<Event>, c: Checkpoint,
                         links': seq<ChainLink>, events': seq<Event>, c': Checkpoint)
    requires |links| == |events| && |links'| == |events'|
    requires CheckpointFault(h, links, c).None? && CheckpointFault(h, links', c').None?
    requires c.chainDigest == c'.chainDigest
    requires CollisionFree(h, RangeDocs(links, events, c) + RangeDocs(links', events', c'))
    ensures Digests(RangeOf(links, c)) == Digests(RangeOf(links', c'))
    ensures |RangeOf(links, c)| == |RangeOf(links', c')|
    ensures CollisionFree(h, Docs(links, events) + Docs(links', events'))
  {
    var docs := RangeDocs(links, events, c) + RangeDocs(links', events', c');
    var range, range' := RangeOf(links, c), RangeOf(links', c');
    assert RangeDocOf(range) in docs && RangeDocOf(range') in docs;
    assert RangeDocOf(range) == RangeDocOf(range');
    assert |Digests(range)| == |range| && |Digests(range')| == |range'|;
    assert Docs(links, events) + Docs(links', events') <= docs;
  }

  // ----- comparison with the independently stored checkpoint

  datatype Signature = Signature(publicKeyID: string, bytes: seq<int>, digest: string)

  datatype PublicKey = PublicKey(id: string, bytes: seq<int>)

  datatype IndependentCheckpoint = IndependentCheckpoint(
    checkpointID: string, instanceID: string, recoveryEpoch: int, lastEventID: int, lastSequence: int,
    chainDigest: string, signerID: string, signerConsumer: string, materialVersion: string, namespace: string,
    signedDigest: string, signature: Signature, exportReceipt: string, independentRead: string)

  datatype VerificationResult = VerificationResult(
    status: string, reasonCode: string, localDigest: string, independentDigest: string,
    independentMatch: bool, lastSequence: int, preAnchor: bool)

  const SIGNER_CONSUMER := "core.audit.signer"

  function CheckpointBindingDigest(h: Hasher, b: CheckpointBinding): Option<string> {
    if && 0 < b.firstEventID <= b.lastEventID && 0 < b.firstSequence <= b.lastSequence
       && ValidFingerprint(b.chainDigest)
       && ValidToken(b.instanceID, 128) && b.recoveryEpoch >= 0 && ValidToken(b.signerID, 128)
       && ValidToken(b.signerConsumer, 128)
       && ValidToken(b.materialVersion, 128) && ValidToken(b.namespace, 128)
    then Some(h(CheckpointDoc(b))) else None
  }

  predicate AgreesWithRemote(h: Hasher, local: LocalResult, c: Checkpoint, remote: IndependentCheckpoint,
                             key: PublicKey)
    requires c.exportReceiptDigest.Some? && c.independentReadDigest.Some?
  {
    && remote.checkpointID == c.checkpointID && remote.instanceID == c.instanceID
    && remote.recoveryEpoch == c.recoveryEpoch
    && remote.lastSequence == c.lastSegmentSequence && remote.chainDigest == c.chainDigest
    && remote.signerID == c.signerReferenceID && remote.signerConsumer == SIGNER_CONSUMER
    && remote.materialVersion == c.signerMaterialVersion
    && (local.namespace == "" || remote.namespace == local.namespace)
    && remote.exportReceipt == c.exportReceiptDigest.value && remote.independentRead == c.independentReadDigest.value
    && remote.signature.publicKeyID == key.id && remote.signature.digest == h(SignatureDoc(remote.signature.bytes))
  }

  function BindingOf(c: Checkpoint, remote: IndependentCheckpoint): CheckpointBinding {
    CheckpointBinding(c.instanceID, c.recoveryEpoch, c.firstEventID, c.lastEventID, c.firstSegmentSequence,
                      c.lastSegmentSequence, c.chainDigest, c.signerReferenceID, SIGNER_CONSUMER,
                      c.signerMaterialVersion, remote.namespace)
  }

  /** `verify` is Ed25519 verification; the second component tells whether the call returns an error. */
  function CompareIndependent(h: Hasher, verify: (seq<int>, string, seq<int>) -> bool,
                              local: LocalResult, remote: IndependentCheckpoint, key: PublicKey)
    : (VerificationResult, bool)
    requires local.lastAnchored.Some? ==>
      local.lastAnchored.value.exportReceiptDigest.Some? && local.lastAnchored.value.independentReadDigest.Some?
  {
    var start := VerificationResult(local.status, local.reasonCode, local.localDigest, "", false, local.lastSequence,
                                    local.preAnchor);
    if local.lastAnchored.None? then (start, false)
    else
      var c := local.lastAnchored.value;
      var r := start.(independentDigest := remote.independentRead);
      if remote.lastEventID > c.lastEventID
      then (r.(status := "incident", reasonCode := "independent-checkpoint-ahead"), true)
      else if remote.lastEventID < c.lastEventID
      then (r.(status := "degraded", reasonCode := "independent-checkpoint-stale"), false)
      else if !AgreesWithRemote(h, local, c, remote, key)
      then (r.(status := "incident", reasonCode := "independent-checkpoint-conflict"), true)
      else
        var signed := CheckpointBindingDigest(h, BindingOf(c, remote));
        if signed != Some(remote.signedDigest) || |key.bytes| != 32
           || !verify(key.bytes, remote.signedDigest, remote.signature.bytes)
        then (r.(status := "incident", reasonCode := "independent-signature-invalid"), true)
        else (r.(status := "anchored", reasonCode := "independent-match", independentMatch := true), false)
  }

  /** Histories that match the same independent checkpoint carry the same events up to their newest anchor. */
  lemma IndependentMatchPinsHistory(h: Hasher, verify: (seq<int>, string, seq<int>) -> bool,
                                    remote: IndependentCheckpoint, key: PublicKey,
                                    links: seq<ChainLink>, events: seq<Event>, checkpoints: seq<Checkpoint>,
                                    links': seq<ChainLink>, events': seq<Event>, checkpoints': seq<Checkpoint>)
      returns (c: Checkpoint, c': Checkpoint)
    requires |links| > 0 && |links'| > 0
    requires LocalVerdict(h, links, events, checkpoints).Accepted?
    requires LocalVerdict(h, links', events', checkpoints').Accepted?
    requires Matches(h, verify, LocalVerdict(h, links, events, checkpoints).result, remote, key)
    requires Matches(h, verify, LocalVerdict(h, links', events', checkpoints').result, remote, key)
    requires forall a, b ::
      (a in checkpoints && CheckpointShaped(a, |links|)) && (b in checkpoints' && CheckpointShaped(b, |links'|)) ==>
      CollisionFree(h, RangeDocs(links, events, a) + RangeDocs(links', events', b))
    ensures CheckpointShaped(c, |links|) && CheckpointShaped(c', |links'|) && |links| == |events|
    ensures |links'| == |events'|
    ensures LocalVerdict(h, links, events, checkpoints).result.lastAnchored == Some(c)
    ensures LocalVerdict(h, links', events', checkpoints').result.lastAnchored == Some(c')
    ensures events[c.firstEventID - 1..c.lastEventID] == events'[c'.firstEventID - 1..c'.lastEventID]
  {
    c := MatchedAnchor(h, verify, remote, key, links, events, checkpoints);
    c' := MatchedAnchor(h, verify, remote, key, links', events', checkpoints');
    AnchoredRangesAgree(h, links, events, c, links', events', c');
  }

  lemma MatchedAnchor(h: Hasher, verify: (seq<int>, string, seq<int>) -> bool, remote: IndependentCheckpoint,
                      key: PublicKey,
                      links: seq<ChainLink>, events: seq<Event>, checkpoints: seq<Checkpoint>) returns (c: Checkpoint)
    requires |links| > 0 && LocalVerdict(h, links, events, checkpoints).Accepted?
    requires Matches(h, verify, LocalVerdict(h, links, events, checkpoints).result, remote, key)
    ensures LocalVerdict(h, links, events, checkpoints).result.lastAnchored == Some(c) && c in checkpoints
    ensures Chained(h, links, events) && CheckpointFault(h, links, c).None? && c.chainDigest == remote.chainDigest
  {
    AcceptanceIsExact(h, links, events, checkpoints);
    c := NewestAnchor(h, links, events, checkpoints);
  }

  /** The comparison reports an independent match. */
  predicate Matches(h: Hasher, verify: (seq<int>, string, seq<int>) -> bool, local: LocalResult,
                    remote: IndependentCheckpoint, key: PublicKey) {
    && local.lastAnchored.Some? && local.lastAnchored.value.exportReceiptDigest.Some?
    && local.lastAnchored.value.independentReadDigest.Some?
    && CompareIndependent(h, verify, local, remote, key).0.independentMatch
  }

  lemma NewestAnchor(h: Hasher, links: seq<ChainLink>, events: seq<Event>, checkpoints: seq<Checkpoint>)
      returns (c: Checkpoint)
    requires |links| > 0 && LocalVerdict(h, links, events, checkpoints).Accepted?
    requires LocalVerdict(h, links, events, checkpoints).result.lastAnchored.Some?
    ensures LocalVerdict(h, links, events, checkpoints).result.lastAnchored == Some(c)
    ensures c in checkpoints && CheckpointFault(h, links, c).None?
  {
    var start := Unanchored(links[|links| - 1]);
    var k := KeptCheckpoint(h, links, checkpoints, |checkpoints|, start);
    AcceptanceIsExact(h, links, events, checkpoints);
    c := checkpoints[k];
  }
}
