/** What an accepted history says of itself, and what the comparison with its independent checkpoint means. */
module AuditAnchors {
  import opened Text
  import opened AuditChain
  import opened AuditVerify
  import opened AuditTamper

  // ----- the accepted result

  /** An accepted history reports the digest, sequence, instance and epoch of its last link. With an anchored checkpoint
      it is anchored, and before its anchor or not as the kept checkpoint is; without one it is degraded, as the last
      link is. */
  lemma AcceptedResultIsOfTheHistory(h: Hasher, links: seq<ChainLink>, events: seq<Event>, checkpoints: seq<Checkpoint>)
    requires |links| > 0 && LocalVerdict(h, links, events, checkpoints).Accepted?
    ensures var r, last := LocalVerdict(h, links, events, checkpoints).result, links[|links| - 1];
      && r.localDigest == last.linkDigest && r.lastSequence == last.segmentSequence
      && r.instanceID == last.instanceID && r.recoveryEpoch == last.recoveryEpoch && r.namespace == ""
      && (r.lastAnchored.Some? <==> exists c :: c in checkpoints && c.status == "anchored")
      && (if r.lastAnchored.Some?
          then r.status == "anchored" && r.reasonCode == "local-anchor-valid" && CoversItsRange(links, r)
               && r.preAnchor == r.lastAnchored.value.preAnchor && r.lastAnchored.value in checkpoints
               && r.lastAnchored.value.status == "anchored"
          else r.status == "degraded" && r.reasonCode == "no-independent-anchor" && r.preAnchor == last.preAnchor)
  {
    AcceptanceIsExact(h, links, events, checkpoints);
    var k := KeptCheckpoint(h, links, checkpoints, |checkpoints|, Unanchored(links[|links| - 1]));
    if k < |checkpoints| {
      assert checkpoints[k] in checkpoints && checkpoints[k].status == "anchored";
    }
  }

  /** The range of the result is that of its checkpoint. */
  predicate CoversItsRange(links: seq<ChainLink>, r: LocalResult)
    requires r.lastAnchored.Some?
  {
    var c := r.lastAnchored.value;
    && 1 <= c.firstEventID <= c.lastEventID <= |links|
    && r.anchoredRange ==
       ChainRange(c.firstEventID, c.lastEventID, links[c.firstEventID - 1..c.lastEventID], c.chainDigest)
  }

  /** An empty history is accepted, degraded, at the digest of nothing; and links without events, or the reverse, are a
      gap. */
  lemma UnevenHistories(h: Hasher, links: seq<ChainLink>, events: seq<Event>, checkpoints: seq<Checkpoint>)
    requires links == [] || |links| != |events|
    ensures var verdict := LocalVerdict(h, links, events, checkpoints);
      if links == [] && events == []
      then verdict.Accepted? && verdict.result.status == "degraded"
           && verdict.result.reasonCode == "audit-history-empty" && verdict.result.localDigest == h(Nothing)
           && verdict.result.lastAnchored.None?
      else verdict == Incident("audit-history-gap")
  {
  }

  /** Which links are unbound, out of sequence, forked or in the wrong epoch. */
  lemma LinkReasons(h: Hasher, links: seq<ChainLink>, events: seq<Event>, i: nat)
    requires |links| == |events| && i < |links|
    ensures var l, e, fault := links[i], events[i], LinkFault(h, links, events, i);
      fault == Some("audit-history-binding") <==>
        || l.eventID != e.eventID || l.recoveryEpoch != e.recoveryEpoch || l.eventID <= 0
        || !ValidFingerprint(l.previousDigest) || !ValidFingerprint(l.linkDigest)
    ensures var l, fault := links[i], LinkFault(h, links, events, i);
      i > 0 && fault != Some("audit-history-binding") ==>
        var prior := links[i - 1]; var same := l.recoveryEpoch == prior.recoveryEpoch;
        && (fault == Some("audit-history-gap") <==> l.eventID != prior.eventID + 1)
        && (fault == Some("audit-history-fork") <==>
              && l.eventID == prior.eventID + 1 && same
              && !(l.instanceID == prior.instanceID && l.segmentSequence == prior.segmentSequence + 1
                   && l.previousDigest == prior.linkDigest))
        && (fault == Some("audit-history-epoch") <==>
              && l.eventID == prior.eventID + 1 && !same
              && !(l.recoveryEpoch == prior.recoveryEpoch + 1 && l.segmentSequence == 1))
  {
  }

  /** Past those, the event, the context and the link are checked in this order against what they hash to. */
  lemma DigestReasons(h: Hasher, link: ChainLink, event: Event)
    ensures var fault := DigestFault(h, link, event);
      var payload := ValidEvent(event) && link.payloadDigest == h(EventDoc(event));
      var context := ValidContext(link.context) && link.contextDigest == h(ContextDoc(link.context));
      && (fault == Some("audit-history-payload") <==> !payload)
      && (fault == Some("audit-history-context") <==> payload && !context)
      && (fault == Some("audit-history-link") <==>
            && payload && context
            && !(ValidToken(link.instanceID, 128) && 1 <= link.segmentSequence && ValidFingerprint(link.previousDigest)
                 && link.linkDigest ==
                    h(LinkDoc(link.instanceID, event.recoveryEpoch, event.eventID, link.segmentSequence,
                              link.previousDigest, link.payloadDigest, link.contextDigest, link.preAnchor))))
      && (fault.Some? ==> fault.value in {"audit-history-payload", "audit-history-context", "audit-history-link"})
  {
  }

  /** A checkpoint is good exactly when its ids lie in the history, all three of its digests are there, and its range
      digest, sequences, instance and epoch are those of the links it covers. */
  lemma GoodCheckpoint(h: Hasher, links: seq<ChainLink>, c: Checkpoint)
    ensures CheckpointFault(h, links, c).None? <==>
      && 1 <= c.firstEventID <= c.lastEventID <= |links|
      && c.signatureDigest.Some? && c.exportReceiptDigest.Some? && c.independentReadDigest.Some?
      && RangeDigest(h, links[c.firstEventID - 1..c.lastEventID]) == Some(c.chainDigest)
      && links[c.firstEventID - 1].segmentSequence == c.firstSegmentSequence
      && links[c.lastEventID - 1].segmentSequence == c.lastSegmentSequence
      && links[c.firstEventID - 1].instanceID == c.instanceID
      && links[c.firstEventID - 1].recoveryEpoch == c.recoveryEpoch
    ensures var fault := CheckpointFault(h, links, c);
      && (fault == Some("audit-checkpoint-invalid") <==>
            || !(1 <= c.firstEventID <= c.lastEventID <= |links|)
            || c.signatureDigest.None? || c.exportReceiptDigest.None? || c.independentReadDigest.None?)
      && (fault.Some? ==> fault.value in {"audit-checkpoint-invalid", "audit-checkpoint-range"})
  {
  }

  // ----- the comparison

  /** Every compared field of the remote checkpoint is the anchor's, and its signature carries the key's id and the
      digest of its own bytes. */
  predicate SameAnchor(h: Hasher, namespace: string, c: Checkpoint, remote: IndependentCheckpoint, key: PublicKey)
    requires c.exportReceiptDigest.Some? && c.independentReadDigest.Some?
  {
    remote == IndependentCheckpoint(
      c.checkpointID, c.instanceID, c.recoveryEpoch, remote.lastEventID, c.lastSegmentSequence, c.chainDigest,
      c.signerReferenceID, "core.audit.signer", c.signerMaterialVersion,
      if namespace == "" then remote.namespace else namespace, remote.signedDigest,
      Signature(key.id, remote.signature.bytes, h(SignatureDoc(remote.signature.bytes))),
      c.exportReceiptDigest.value, c.independentReadDigest.value)
  }

  /** The key verifies the signature over the hash of the checkpoint's binding, all parts of which are well formed. */
  predicate Signed(h: Hasher, verify: (seq<int>, string, seq<int>) -> bool, c: Checkpoint,
                   remote: IndependentCheckpoint, key: PublicKey) {
    && 1 <= c.firstEventID <= c.lastEventID && 1 <= c.firstSegmentSequence <= c.lastSegmentSequence
    && ValidFingerprint(c.chainDigest) && ValidToken(c.instanceID, 128) && c.recoveryEpoch >= 0
    && ValidToken(c.signerReferenceID, 128) && ValidToken("core.audit.signer", 128)
    && ValidToken(c.signerMaterialVersion, 128) && ValidToken(remote.namespace, 128)
    && var signed := h(CheckpointDoc(CheckpointBinding(
         c.instanceID, c.recoveryEpoch, c.firstEventID, c.lastEventID, c.firstSegmentSequence, c.lastSegmentSequence,
         c.chainDigest, c.signerReferenceID, "core.audit.signer", c.signerMaterialVersion, remote.namespace)));
    remote.signedDigest == signed && |key.bytes| == 32 && verify(key.bytes, signed, remote.signature.bytes)
  }

  /** The report on an anchor: ahead and stale by the last event alone, then a conflict for any field, then an invalid
      signature, and a match exactly when none of these. Only stale and match return without an error, and a match is
      the only report that says so. */
  lemma ComparisonIsExact(h: Hasher, verify: (seq<int>, string, seq<int>) -> bool, local: LocalResult,
                          remote: IndependentCheckpoint, key: PublicKey)
    requires local.lastAnchored.Some? ==>
      local.lastAnchored.value.exportReceiptDigest.Some? && local.lastAnchored.value.independentReadDigest.Some?
    ensures var (r, failed) := CompareIndependent(h, verify, local, remote, key);
      && r.localDigest == local.localDigest && r.lastSequence == local.lastSequence && r.preAnchor == local.preAnchor
      && (r.independentMatch <==> local.lastAnchored.Some? && r.reasonCode == "independent-match")
      && (local.lastAnchored.None? ==>
            r.status == local.status && r.reasonCode == local.reasonCode && r.independentDigest == "" && !failed)
    ensures local.lastAnchored.Some? ==>
      var c, (r, failed) := local.lastAnchored.value, CompareIndependent(h, verify, local, remote, key);
      && r.independentDigest == remote.independentRead
      && (r.status, r.reasonCode, failed) ==
         if remote.lastEventID > c.lastEventID then ("incident", "independent-checkpoint-ahead", true)
         else if remote.lastEventID < c.lastEventID then ("degraded", "independent-checkpoint-stale", false)
         else if !SameAnchor(h, local.namespace, c, remote, key)
         then ("incident", "independent-checkpoint-conflict", true)
         else if !Signed(h, verify, c, remote, key) then ("incident", "independent-signature-invalid", true)
         else ("anchored", "independent-match", false)
  {
  }

  lemma SignerIsToken()
    ensures ValidToken("core.audit.signer", 128)
  {
  }

  /** Every anchor whose parts are well formed can be matched: by the checkpoint that repeats it, signed over the hash
      of its binding. */
  lemma AnchorCanBeMatched(h: Hasher, verify: (seq<int>, string, seq<int>) -> bool, local: LocalResult,
                           namespace: string, key: PublicKey, bytes: seq<int>)
      returns (remote: IndependentCheckpoint)
    requires local.lastAnchored.Some? && local.namespace in {"", namespace} && ValidToken(namespace, 128)
    requires var c := local.lastAnchored.value;
      && c.exportReceiptDigest.Some? && c.independentReadDigest.Some?
      && 1 <= c.firstEventID <= c.lastEventID && 1 <= c.firstSegmentSequence <= c.lastSegmentSequence
      && ValidFingerprint(c.chainDigest) && ValidToken(c.instanceID, 128) && c.recoveryEpoch >= 0
      && ValidToken(c.signerReferenceID, 128) && ValidToken(c.signerMaterialVersion, 128)
    requires |key.bytes| == 32 && forall text :: verify(key.bytes, text, bytes)
    ensures CompareIndependent(h, verify, local, remote, key).0.independentMatch
  {
    var c := local.lastAnchored.value;
    SignerIsToken();
    var signed := h(CheckpointDoc(CheckpointBinding(
      c.instanceID, c.recoveryEpoch, c.firstEventID, c.lastEventID, c.firstSegmentSequence, c.lastSegmentSequence,
      c.chainDigest, c.signerReferenceID, "core.audit.signer", c.signerMaterialVersion, namespace)));
    remote := IndependentCheckpoint(
      c.checkpointID, c.instanceID, c.recoveryEpoch, c.lastEventID, c.lastSegmentSequence, c.chainDigest,
      c.signerReferenceID, "core.audit.signer", c.signerMaterialVersion, namespace, signed,
      Signature(key.id, bytes, h(SignatureDoc(bytes))), c.exportReceiptDigest.value, c.independentReadDigest.value);
    ComparisonIsExact(h, verify, local, remote, key);
    assert Signed(h, verify, c, remote, key);
  }

  /** A match means that the key signed the digest of exactly the links in the anchored range of this history. */
  lemma MatchIsSignedOverTheHistory(h: Hasher, verify: (seq<int>, string, seq<int>) -> bool, links: seq<ChainLink>,
                                    events: seq<Event>, checkpoints: seq<Checkpoint>, remote: IndependentCheckpoint,
                                    key: PublicKey)
      returns (c: Checkpoint)
    requires |links| > 0 && LocalVerdict(h, links, events, checkpoints).Accepted?
    requires Matches(h, verify, LocalVerdict(h, links, events, checkpoints).result, remote, key)
    ensures c in checkpoints && c.status == "anchored" && 1 <= c.firstEventID <= c.lastEventID <= |links|
    ensures var range := links[c.firstEventID - 1..c.lastEventID];
      var digest := h(RangeDoc(links[c.firstEventID - 1].eventID, links[c.lastEventID - 1].eventID, Digests(range)));
      verify(key.bytes, h(CheckpointDoc(CheckpointBinding(
        links[c.firstEventID - 1].instanceID, links[c.firstEventID - 1].recoveryEpoch, c.firstEventID, c.lastEventID,
        links[c.firstEventID - 1].segmentSequence, links[c.lastEventID - 1].segmentSequence, digest,
        c.signerReferenceID, "core.audit.signer", c.signerMaterialVersion, remote.namespace))), remote.signature.bytes)
  {
    AcceptedResultIsOfTheHistory(h, links, events, checkpoints);
    c := MatchedAnchor(h, verify, remote, key, links, events, checkpoints);
    MatchIsSigned(h, verify, LocalVerdict(h, links, events, checkpoints).result, remote, key);
    SignedOverItsRange(h, verify, links, c, remote, key);
  }

  lemma MatchIsSigned(h: Hasher, verify: (seq<int>, string, seq<int>) -> bool, local: LocalResult,
                      remote: IndependentCheckpoint, key: PublicKey)
    requires Matches(h, verify, local, remote, key)
    ensures Signed(h, verify, local.lastAnchored.value, remote, key)
  {
    ComparisonIsExact(h, verify, local, remote, key);
  }

  lemma SignedOverItsRange(h: Hasher, verify: (seq<int>, string, seq<int>) -> bool, links: seq<ChainLink>,
                           c: Checkpoint, remote: IndependentCheckpoint, key: PublicKey)
    requires CheckpointFault(h, links, c).None? && Signed(h, verify, c, remote, key)
    ensures 1 <= c.firstEventID <= c.lastEventID <= |links|
    ensures var range := links[c.firstEventID - 1..c.lastEventID];
      var digest := h(RangeDoc(links[c.firstEventID - 1].eventID, links[c.lastEventID - 1].eventID, Digests(range)));
      verify(key.bytes, h(CheckpointDoc(CheckpointBinding(
        links[c.firstEventID - 1].instanceID, links[c.firstEventID - 1].recoveryEpoch, c.firstEventID, c.lastEventID,
        links[c.firstEventID - 1].segmentSequence, links[c.lastEventID - 1].segmentSequence, digest,
        c.signerReferenceID, "core.audit.signer", c.signerMaterialVersion, remote.namespace))), remote.signature.bytes)
  {
    GoodCheckpoint(h, links, c);
  }
}
