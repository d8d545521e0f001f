/** Whole-history verification, comparison with an independent checkpoint, and what acceptance proves. */
module AuditVerify {
  import opened Text
  import opened AuditChain

  datatype Checkpoint = Checkpoint(
    checkpointID: string, firstEventID: int, lastEventID: int, chainDigest: string, instanceID: string,
    recoveryEpoch: int, firstSegmentSequence: int, lastSegmentSequence: int, signerReferenceID: string,
    signerMaterialVersion: string, signatureDigest: Option<string>, exportReceiptDigest: Option<string>,
    independentReadDigest: Option<string>, status: string, preAnchor: bool)

  datatype ChainRange = ChainRange(firstEventID: int, lastEventID: int, links: seq<ChainLink>, rangeDigest: string)

  datatype LocalResult = LocalResult(
    status: string, reasonCode: string, instanceID: string, recoveryEpoch: int, localDigest: string, lastSequence: int,
    preAnchor: bool, lastAnchored: Option<Checkpoint>, anchoredRange: ChainRange, namespace: string)

  const NO_RANGE := ChainRange(0, 0, [], "")

  /** A result or the error of an incident, whose reason is also the error text. */
  datatype Verdict = Accepted(result: LocalResult) | Incident(reason: string)

  // ----- the link loop

  predicate WellBound(link: ChainLink, event: Event) {
    && link.eventID == event.eventID && link.recoveryEpoch == event.recoveryEpoch && link.eventID > 0
    && ValidFingerprint(link.previousDigest) && ValidFingerprint(link.linkDigest)
  }

  /** How a link may follow its predecessor; the reason when it does not. */
  function SuccessionFault(prior: ChainLink, link: ChainLink): Option<string> {
    if link.eventID != prior.eventID + 1 then Some("audit-history-gap")
    else if link.recoveryEpoch == prior.recoveryEpoch then
      if link.instanceID != prior.instanceID || link.segmentSequence != prior.segmentSequence + 1
         || link.previousDigest != prior.linkDigest
      then Some("audit-history-fork") else None
    else if link.recoveryEpoch != prior.recoveryEpoch + 1 || link.segmentSequence != 1 then Some("audit-history-epoch")
    else None
  }

  function DigestFault(h: Hasher, link: ChainLink, event: Event): Option<string> {
    if EventDigest(h, event) != Some(link.payloadDigest) then Some("audit-history-payload")
    else if ContextDigest(h, link.context) != Some(link.contextDigest) then Some("audit-history-context")
    else
      var rebuilt := MakeChainLink(h, event, link.context, link.instanceID, link.segmentSequence, link.previousDigest,
                                   link.preAnchor);
      if rebuilt.None? || rebuilt.value.linkDigest != link.linkDigest then Some("audit-history-link") else None
  }

  function LinkFault(h: Hasher, links: seq<ChainLink>, events: seq<Event>, i: nat): Option<string>
    requires |links| == |events| && i < |links|
  {
    if !WellBound(links[i], events[i]) then Some("audit-history-binding")
    else
      var succession := if i > 0 then SuccessionFault(links[i - 1], links[i]) else None;
      if succession.Some? then succession else DigestFault(h, links[i], events[i])
  }

  function Faults(h: Hasher, links: seq<ChainLink>, events: seq<Event>): seq<Option<string>>
    requires |links| == |events|
  {
    seq(|links|, i requires 0 <= i < |links| => LinkFault(h, links, events, i))
  }

  /** The first reason at or after `i`. */
  function FirstReason(faults: seq<Option<string>>, i: nat): Option<string>
    requires i <= |faults|
    decreases |faults| - i
  {
    if i == |faults| then None else if faults[i].Some? then faults[i] else FirstReason(faults, i + 1)
  }

  lemma {:induction false} FirstReasonIsFirst(faults: seq<Option<string>>, i: nat) returns (at: int)
    requires i <= |faults|
    ensures i <= at <= |faults| && forall k :: i <= k < at ==> faults[k].None?
    ensures FirstReason(faults, i) == if at == |faults| then None else faults[at]
    ensures at < |faults| ==> faults[at].Some?
    decreases |faults| - i
  {
    if i == |faults| || faults[i].Some? {
      at := i;
    } else {
      at := FirstReasonIsFirst(faults, i + 1);
    }
  }

  /** Every link of the history passes. */
  ghost predicate Chained(h: Hasher, links: seq<ChainLink>, events: seq<Event>) {
    |links| == |events| && |links| > 0 && forall i :: 0 <= i < |links| ==> LinkFault(h, links, events, i).None?
  }

  // ----- the checkpoint loop

  predicate CheckpointShaped(c: Checkpoint, count: nat) {
    && 0 < c.firstEventID <= c.lastEventID <= count
    && c.signatureDigest.Some? && c.exportReceiptDigest.Some? && c.independentReadDigest.Some?
  }

  function RangeOf(links: seq<ChainLink>, c: Checkpoint): seq<ChainLink>
    requires CheckpointShaped(c, |links|)
  {
    links[c.firstEventID - 1..c.lastEventID]
  }

  predicate CheckpointMatches(h: Hasher, links: seq<ChainLink>, c: Checkpoint)
    requires CheckpointShaped(c, |links|)
  {
    var range := RangeOf(links, c);
    && RangeDigest(h, range) == Some(c.chainDigest)
    && range[0].segmentSequence == c.firstSegmentSequence && range[|range| - 1].segmentSequence == c.lastSegmentSequence
    && range[0].instanceID == c.instanceID && range[0].recoveryEpoch == c.recoveryEpoch
  }

  function CheckpointFault(h: Hasher, links: seq<ChainLink>, c: Checkpoint): Option<string> {
    if !CheckpointShaped(c, |links|) then Some("audit-checkpoint-invalid")
    else if !CheckpointMatches(h, links, c) then Some("audit-checkpoint-range")
    else None
  }

  function Anchored(links: seq<ChainLink>, result: LocalResult, c: Checkpoint): LocalResult
    requires CheckpointShaped(c, |links|)
  {
    if result.lastAnchored.None? || c.lastEventID > result.lastAnchored.value.lastEventID then
      result.(lastAnchored := Some(c),
              anchoredRange := ChainRange(c.firstEventID, c.lastEventID, RangeOf(links, c), c.chainDigest),
              status := "anchored", reasonCode := "local-anchor-valid", preAnchor := c.preAnchor)
    else result
  }

  /** The result after the first `n` checkpoints. */
  function AfterCheckpoints(h: Hasher, links: seq<ChainLink>, checkpoints: seq<Checkpoint>, n: nat,
                            start: LocalResult): Verdict
    requires n <= |checkpoints|
  {
    if n == 0 then Accepted(start)
    else
      var before := AfterCheckpoints(h, links, checkpoints, n - 1, start);
      var c := checkpoints[n - 1];
      if before.Incident? || c.status != "anchored" then before
      else if CheckpointFault(h, links, c).Some? then Incident(CheckpointFault(h, links, c).value)
      else Accepted(Anchored(links, before.result, c))
  }

  function Unanchored(last: ChainLink): LocalResult {
    LocalResult("degraded", "no-independent-anchor", last.instanceID, last.recoveryEpoch, last.linkDigest,
                last.segmentSequence, last.preAnchor, None, NO_RANGE, "")
  }

  function LocalVerdict(h: Hasher, links: seq<ChainLink>, events: seq<Event>, checkpoints: seq<Checkpoint>): Verdict {
    if |links| == 0 && |events| == 0 then
      Accepted(LocalResult("degraded", "audit-history-empty", "", 0, h(Nothing), 0, false, None, NO_RANGE, ""))
    else if |links| == 0 || |links| != |events| then Incident("audit-history-gap")
    else if FirstReason(Faults(h, links, events), 0).Some? then Incident(FirstReason(Faults(h, links, events), 0).value)
    else AfterCheckpoints(h, links, checkpoints, |checkpoints|, Unanchored(links[|links| - 1]))
  }

  method VerifyLocal(h: Hasher, links: seq<ChainLink>, events: seq<Event>, checkpoints: seq<Checkpoint>)
      returns (verdict: Verdict)
    ensures verdict == LocalVerdict(h, links, events, checkpoints)
  {
    if |links| == 0 && |events| == 0 {
      return Accepted(LocalResult("degraded", "audit-history-empty", "", 0, h(Nothing), 0, false, None, NO_RANGE, ""));
    }
    if |links| == 0 || |links| != |events| {
      return Incident("audit-history-gap");
    }
    ghost var faults := Faults(h, links, events);
    for index := 0 to |links|
      invariant FirstReason(faults, 0) == FirstReason(faults, index)
    {
      assert faults[index] == LinkFault(h, links, events, index);
      var link, event := links[index], events[index];
      if !WellBound(link, event) {
        return Incident("audit-history-binding");
      }
      if index > 0 {
        var prior := links[index - 1];
        if link.eventID != prior.eventID + 1 {
          return Incident("audit-history-gap");
        }
        if link.recoveryEpoch == prior.recoveryEpoch {
          if link.instanceID != prior.instanceID || link.segmentSequence != prior.segmentSequence + 1
             || link.previousDigest != prior.linkDigest {
            return Incident("audit-history-fork");
          }
        } else if link.recoveryEpoch != prior.recoveryEpoch + 1 || link.segmentSequence != 1 {
          return Incident("audit-history-epoch");
        }
      }
      var payload := EventDigest(h, event);
      if payload != Some(link.payloadDigest) {
        return Incident("audit-history-payload");
      }
      var context := ContextDigest(h, link.context);
      if context != Some(link.contextDigest) {
        return Incident("audit-history-context");
      }
      var rebuilt := MakeChainLink(h, event, link.context, link.instanceID, link.segmentSequence, link.previousDigest,
                                   link.preAnchor);
      if rebuilt.None? || rebuilt.value.linkDigest != link.linkDigest {
        return Incident("audit-history-link");
      }
    }
    verdict := VerifyCheckpoints(h, links, checkpoints);
  }

  method CheckRange(h: Hasher, links: seq<ChainLink>, c: Checkpoint) returns (fault: Option<string>)
    ensures fault == CheckpointFault(h, links, c)
  {
    if !CheckpointShaped(c, |links|) {
      return Some("audit-checkpoint-invalid");
    }
    var range := links[c.firstEventID - 1..c.lastEventID];
    var digest := DigestChainRange(h, range);
    if digest != Some(c.chainDigest)
       || range[0].segmentSequence != c.firstSegmentSequence
       || range[|range| - 1].segmentSequence != c.lastSegmentSequence
       || range[0].instanceID != c.instanceID || range[0].recoveryEpoch != c.recoveryEpoch {
      return Some("audit-checkpoint-range");
    }
    fault := None;
  }

  method VerifyCheckpoints(h: Hasher, links: seq<ChainLink>, checkpoints: seq<Checkpoint>) returns (verdict: Verdict)
    requires |links| > 0
    ensures verdict == AfterCheckpoints(h, links, checkpoints, |checkpoints|, Unanchored(links[|links| - 1]))
  {
    var start := Unanchored(links[|links| - 1]);
    var result := start;
    for index := 0 to |checkpoints|
      invariant AfterCheckpoints(h, links, checkpoints, index, start) == Accepted(result)
    {
      var c := checkpoints[index];
      if c.status != "anchored" {
        continue;
      }
      var fault := CheckRange(h, links, c);
      if fault.Some? {
        IncidentStays(h, links, checkpoints, index + 1, |checkpoints|, start);
        return Incident(fault.value);
      }
      if result.lastAnchored.None? || c.lastEventID > result.lastAnchored.value.lastEventID {
        var range := links[c.firstEventID - 1..c.lastEventID];
        result := result.(lastAnchored := Some(c),
                          anchoredRange := ChainRange(c.firstEventID, c.lastEventID, range, c.chainDigest),
                          status := "anchored", reasonCode := "local-anchor-valid", preAnchor := c.preAnchor);
      }
    }
    verdict := Accepted(result);
  }

  lemma {:induction false} IncidentStays(h: Hasher, links: seq<ChainLink>, checkpoints: seq<Checkpoint>, m: nat, n: nat,
                                         start: LocalResult)
    requires m <= n <= |checkpoints|
    requires AfterCheckpoints(h, links, checkpoints, m, start).Incident?
    ensures AfterCheckpoints(h, links, checkpoints, n, start) == AfterCheckpoints(h, links, checkpoints, m, start)
  {
    if m < n {
      IncidentStays(h, links, checkpoints, m, n - 1, start);
    }
  }

  /** Acceptance of a non-empty history is exactly: every link passes and every anchored checkpoint matches. */
  lemma AcceptanceIsExact(h: Hasher, links: seq<ChainLink>, events: seq<Event>, checkpoints: seq<Checkpoint>)
    requires |links| + |events| > 0
    ensures LocalVerdict(h, links, events, checkpoints).Accepted? <==>
      && Chained(h, links, events)
      && forall i :: 0 <= i < |checkpoints| && checkpoints[i].status == "anchored" ==>
        CheckpointFault(h, links, checkpoints[i]).None?
  {
    if |links| == |events| {
      var faults := Faults(h, links, events);
      var at := FirstReasonIsFirst(faults, 0);
      assert forall i :: 0 <= i < |links| ==> faults[i] == LinkFault(h, links, events, i);
      CheckpointsAccepted(h, links, checkpoints, |checkpoints|, Unanchored(links[|links| - 1]));
    }
  }

  lemma {:induction false} CheckpointsAccepted(h: Hasher, links: seq<ChainLink>, checkpoints: seq<Checkpoint>, n: nat,
                                               start: LocalResult)
    requires n <= |checkpoints|
    ensures AfterCheckpoints(h, links, checkpoints, n, start).Accepted? <==>
      forall i :: 0 <= i < n && checkpoints[i].status == "anchored" ==> CheckpointFault(h, links, checkpoints[i]).None?
  {
    if n > 0 {
      CheckpointsAccepted(h, links, checkpoints, n - 1, start);
    }
  }

  /** `k` is the first anchored checkpoint with the greatest last event id among the first `n`. */
  ghost predicate IsFirstGreatest(checkpoints: seq<Checkpoint>, n: nat, k: int)
    requires n <= |checkpoints|
  {
    && 0 <= k < n && checkpoints[k].status == "anchored"
    && (forall j :: 0 <= j < n && checkpoints[j].status == "anchored" ==>
          checkpoints[j].lastEventID <= checkpoints[k].lastEventID)
    && (forall j :: 0 <= j < k && checkpoints[j].status == "anchored" ==>
          checkpoints[j].lastEventID < checkpoints[k].lastEventID)
  }

  lemma {:induction false} KeptCheckpoint(h: Hasher, links: seq<ChainLink>, checkpoints: seq<Checkpoint>, n: nat,
                                          start: LocalResult)
      returns (k: int)
    requires n <= |checkpoints| && start.lastAnchored.None?
    requires AfterCheckpoints(h, links, checkpoints, n, start).Accepted?
    ensures k == n || IsFirstGreatest(checkpoints, n, k)
    ensures k == n ==> forall j :: 0 <= j < n ==> checkpoints[j].status != "anchored"
    ensures k < n ==> CheckpointShaped(checkpoints[k], |links|)
    ensures AfterCheckpoints(h, links, checkpoints, n, start).result ==
      if k == n then start else Anchored(links, start, checkpoints[k])
  {
    if n == 0 {
      k := n;
    } else {
      k := KeptCheckpoint(h, links, checkpoints, n - 1, start);
      var before := AfterCheckpoints(h, links, checkpoints, n - 1, start).result;
      var c := checkpoints[n - 1];
      if c.status == "anchored" {
        if before.lastAnchored.None? || c.lastEventID > before.lastAnchored.value.lastEventID {
          k := n - 1;
        }
      } else if k == n - 1 {
        k := n;
      }
    }
  }

  /** The checkpoint an accepted history keeps is the first with the greatest last event id, with exactly its slice of
      links. */
  lemma AnchorIsFirstGreatest(h: Hasher, links: seq<ChainLink>, events: seq<Event>, checkpoints: seq<Checkpoint>)
      returns (k: int)
    requires |links| > 0 && LocalVerdict(h, links, events, checkpoints).Accepted?
    requires exists j :: 0 <= j < |checkpoints| && checkpoints[j].status == "anchored"
    ensures IsFirstGreatest(checkpoints, |checkpoints|, k) && CheckpointFault(h, links, checkpoints[k]).None?
    ensures LocalVerdict(h, links, events, checkpoints).result.lastAnchored == Some(checkpoints[k])
    ensures LocalVerdict(h, links, events, checkpoints).result.anchoredRange.links
         == links[checkpoints[k].firstEventID - 1..checkpoints[k].lastEventID]
  {
    AcceptanceIsExact(h, links, events, checkpoints);
    k := KeptCheckpoint(h, links, checkpoints, |checkpoints|, Unanchored(links[|links| - 1]));
  }
}
