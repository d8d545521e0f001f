/** Canonical audit events, chain links and range digests. A hashed document is the value whose JSON text the program
    feeds to SHA-256; the hash itself is any function to fingerprints. */
module AuditChain {
  import opened Text

  datatype Target = Target(kind: string, id: string)

  datatype Event = Event(
    schema: string, schemaVersion: string, eventID: int, occurredAt: string, recoveryEpoch: int, stateRevision: int,
    eventType: string, correlationID: string, causationID: Option<int>, correctionOf: Option<int>,
    principalID: string, principalMethod: string, humanID: Option<string>,
    agentName: Option<string>, agentSessionID: Option<string>, agentSource: Option<string>,
    target: Target, before: Option<string>, after: Option<string>)

  datatype ContextIDs = ContextIDs(runID: string, planID: string, providerNativeID: string)

  datatype ChainLink = ChainLink(
    instanceID: string, recoveryEpoch: int, eventID: int, segmentSequence: int,
    previousDigest: string, payloadDigest: string, contextDigest: string, context: ContextIDs,
    linkDigest: string, preAnchor: bool, priorCheckpoint: string, recoveryDecision: string)

  /** One constructor per JSON document that is hashed; the domain string keeps them apart. */
  datatype Document =
    | Nothing
    | EventDoc(event: Event)
    | ContextDoc(ids: ContextIDs)
    | LinkDoc(instanceID: string, recoveryEpoch: int, eventID: int, segmentSequence: int,
              previousDigest: string, payloadDigest: string, contextDigest: string, preAnchor: bool)
    | RangeDoc(first: int, last: int, digests: seq<string>)
    | GenesisDoc(genesisInstance: string, epoch: int, priorCheckpoint: string, recoveryDecision: string)
    | CheckpointDoc(binding: CheckpointBinding)
    | SignatureDoc(bytes: seq<int>)

  datatype CheckpointBinding = CheckpointBinding(
    instanceID: string, recoveryEpoch: int, firstEventID: int, lastEventID: int,
    firstSequence: int, lastSequence: int, chainDigest: string,
    signerID: string, signerConsumer: string, materialVersion: string, namespace: string)

  type Hasher = h: Document -> string | YieldsFingerprints(h)
    witness ConstantHash

  ghost predicate YieldsFingerprints(h: Document -> string) {
    forall d :: ValidFingerprint(h(d))
  }

  function ConstantHash(d: Document): (r: string)
    ensures ValidFingerprint(r)
  {
    var r := "sha256:" + Repeated('0', 64);
    assert r[..7] == "sha256:";
    r
  }

  /** No two different documents of the set have the same digest. */
  ghost predicate CollisionFree(h: Hasher, docs: set<Document>) {
    forall d, d' :: d in docs && d' in docs && h(d) == h(d') ==> d == d'
  }

  // ----- bounded tokens and canonical events

  predicate TokenChar(c: char) {
    'a' <= c <= 'z' || 'A' <= c <= 'Z' || '0' <= c <= '9' || c == '.' || c == '_' || c == ':' || c == '-'
  }

  const SECRET_PREFIXES: seq<string> :=
    ["github_pat_", "ghp_", "gho_", "ghu_", "ghs_", "ghr_", "sk-", "xoxb-", "xoxp-", "akia"]

  predicate ValidToken(value: string, maximum: nat) {
    && 0 < |value| <= maximum
    && (forall i :: 0 <= i < |value| ==> TokenChar(value[i]))
    && value[0] !in {'.', '_', ':', '-'}
    && forall i :: 0 <= i < |SECRET_PREFIXES| ==> !HasLowerPrefix(value, SECRET_PREFIXES[i])
  }

  predicate LowerName(s: string, dash: bool) {
    && |s| > 0 && 'a' <= s[0] <= 'z'
    && forall i :: 0 <= i < |s| ==> 'a' <= s[i] <= 'z' || '0' <= s[i] <= '9' || (dash && s[i] == '-')
  }

  /** `^[a-z][a-z0-9]*(\.[a-z][a-z0-9-]*){1,5}$`, at most 96 bytes. */
  predicate ValidEventType(s: string) {
    |s| <= 96 && DottedNames(SplitOn(s, '.'))
  }

  predicate DottedNames(parts: seq<string>) {
    && 2 <= |parts| <= 6 && LowerName(parts[0], false)
    && forall i :: 1 <= i < |parts| ==> LowerName(parts[i], true)
  }

  predicate Digit(c: char) { '0' <= c <= '9' }

  function TwoDigits(s: string, at: nat): int
    requires at + 1 < |s|
  {
    (s[at] as int - 48) * 10 + (s[at + 1] as int - 48)
  }

  function DaysIn(year: int, month: int): int {
    if month == 2 then (if year % 4 == 0 && (year % 100 != 0 || year % 400 == 0) then 29 else 28)
    else if month in {4, 6, 9, 11} then 30 else 31
  }

  /** Texts that `time.Parse` reads as a UTC time and `time.Format` prints back unchanged (RFC 3339, nanoseconds). */
  predicate CanonicalUtc(s: string) {
    && 20 <= |s| <= 30
    && (forall i :: 0 <= i < 19 && i !in {4, 7, 10, 13, 16} ==> Digit(s[i]))
    && s[4] == '-' && s[7] == '-' && s[10] == 'T' && s[13] == ':' && s[16] == ':'
    && 1 <= TwoDigits(s, 5) <= 12
    && 1 <= TwoDigits(s, 8) <= DaysIn(TwoDigits(s, 0) * 100 + TwoDigits(s, 2), TwoDigits(s, 5))
    && TwoDigits(s, 11) < 24 && TwoDigits(s, 14) < 60 && TwoDigits(s, 17) < 60
    && s[|s| - 1] == 'Z'
    && (|s| == 20 || (|s| >= 22 && s[19] == '.' && s[|s| - 2] != '0' && forall i :: 20 <= i < |s| - 1 ==> Digit(s[i])))
  }

  predicate ValidAgent(e: Event) {
    if e.agentSource.None? then e.agentName.None? && e.agentSessionID.None?
    else && e.agentSource.value == "self-reported" && e.agentName.Some? && e.agentSessionID.Some?
         && ValidToken(e.agentName.value, 64) && ValidToken(e.agentSessionID.value, 128)
  }

  predicate PositiveIfSet(id: Option<int>) { id.Some? ==> id.value > 0 }

  predicate FingerprintIfSet(f: Option<string>) { f.Some? ==> ValidFingerprint(f.value) }

  /** The checks of CanonicalEvent, with those of ValidateEventDraft that it calls. */
  predicate ValidEvent(e: Event) {
    && e.schema == "vegastack-labs.dev/audit-event" && e.schemaVersion == "1.0.0"
    && e.eventID > 0 && e.recoveryEpoch >= 0 && e.stateRevision >= 0
    && CanonicalUtc(e.occurredAt)
    && ValidAgent(e)
    && ValidEventType(e.eventType)
    && ValidToken(e.correlationID, 128) && ValidToken(e.target.kind, 64) && ValidToken(e.target.id, 128)
    && ValidToken(e.principalID, 128) && ValidToken(e.principalMethod, 64)
    && PositiveIfSet(e.causationID) && PositiveIfSet(e.correctionOf)
    && (e.humanID.Some? ==> ValidToken(e.humanID.value, 128))
    && FingerprintIfSet(e.before) && FingerprintIfSet(e.after)
  }

  function EventDigest(h: Hasher, e: Event): Option<string> {
    if ValidEvent(e) then Some(h(EventDoc(e))) else None
  }

  predicate ValidContext(ids: ContextIDs) {
    && (ids.runID == "" || ValidToken(ids.runID, 128))
    && (ids.planID == "" || ValidToken(ids.planID, 128))
    && (ids.providerNativeID == "" || ValidToken(ids.providerNativeID, 128))
  }

  function ContextDigest(h: Hasher, ids: ContextIDs): Option<string> {
    if ValidContext(ids) then Some(h(ContextDoc(ids))) else None
  }

  // ----- links

  function LinkDocOf(link: ChainLink): Document {
    LinkDoc(link.instanceID, link.recoveryEpoch, link.eventID, link.segmentSequence,
            link.previousDigest, link.payloadDigest, link.contextDigest, link.preAnchor)
  }

  function MakeChainLink(h: Hasher, e: Event, ids: ContextIDs, instanceID: string, segmentSequence: int,
                         previous: string, preAnchor: bool): (r: Option<ChainLink>)
    ensures r.Some? <==> && ValidToken(instanceID, 128) && segmentSequence > 0 && ValidFingerprint(previous)
                         && ValidEvent(e) && ValidContext(ids)
    ensures r.Some? ==> && r.value.linkDigest == h(LinkDocOf(r.value))
                        && r.value.eventID == e.eventID && r.value.recoveryEpoch == e.recoveryEpoch
                        && r.value.payloadDigest == h(EventDoc(e)) && r.value.contextDigest == h(ContextDoc(ids))
  {
    if !ValidToken(instanceID, 128) || segmentSequence <= 0 || !ValidFingerprint(previous) then None
    else
      var payload := EventDigest(h, e);
      var context := ContextDigest(h, ids);
      if payload.None? || context.None? then None
      else
        var link := ChainLink(instanceID, e.recoveryEpoch, e.eventID, segmentSequence, previous,
                              payload.value, context.value, ids, "", preAnchor, "", "");
        Some(link.(linkDigest := h(LinkDocOf(link))))
  }

  /** The digest the first link of an epoch names as its predecessor. */
  function GenesisDigest(h: Hasher, instanceID: string, epoch: int, prior: string, decision: string): Option<string> {
    if !ValidToken(instanceID, 128) || epoch < 0 || !ValidFingerprint(prior) || !ValidFingerprint(decision) then None
    else Some(h(GenesisDoc(instanceID, epoch, prior, decision)))
  }

  function Digests(links: seq<ChainLink>): seq<string> {
    seq(|links|, i requires 0 <= i < |links| => links[i].linkDigest)
  }

  predicate RangeOrdered(links: seq<ChainLink>) {
    forall i :: 0 <= i < |links| ==>
      && ValidFingerprint(links[i].linkDigest) && links[i].eventID > 0
      && (i > 0 ==> links[i - 1].eventID < links[i].eventID)
  }

  function RangeDocOf(links: seq<ChainLink>): Document
    requires links != []
  {
    RangeDoc(links[0].eventID, links[|links| - 1].eventID, Digests(links))
  }

  function RangeDigest(h: Hasher, links: seq<ChainLink>): Option<string> {
    if links == [] || !RangeOrdered(links) then None else Some(h(RangeDocOf(links)))
  }

  method DigestChainRange(h: Hasher, links: seq<ChainLink>) returns (digest: Option<string>)
    ensures digest == RangeDigest(h, links)
  {
    if |links| == 0 {
      return None;
    }
    for index := 0 to |links|
      invariant forall i :: 0 <= i < index ==>
        && ValidFingerprint(links[i].linkDigest) && links[i].eventID > 0
        && (i > 0 ==> links[i - 1].eventID < links[i].eventID)
    {
      if !ValidFingerprint(links[index].linkDigest) || links[index].eventID <= 0
         || (index > 0 && links[index].eventID <= links[index - 1].eventID) {
        return None;
      }
    }
    var digests := ChainDigests(links);
    return Some(h(RangeDoc(links[0].eventID, links[|links| - 1].eventID, digests)));
  }

  method ChainDigests(links: seq<ChainLink>) returns (digests: seq<string>)
    ensures digests == Digests(links)
  {
    digests := [];
    for index := 0 to |links|
      invariant |digests| == index && forall i :: 0 <= i < index ==> digests[i] == links[i].linkDigest
    {
      digests := digests + [links[index].linkDigest];
    }
  }
}
