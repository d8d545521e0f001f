/** The receipt of an offsite copy, the writer seal, and the checks before a proof becomes the last good one. */
module OffsiteSeal {
  import opened Text
  import opened Sorting
  import opened InventoryDigests
  import opened OffsitePaths
  import opened OffsiteAdmission

  /** Instants in nanoseconds after Go's zero time, which is therefore 0. */
  type Time = int

  const NEVER: Time := 0

  /** What a copy and its proof must both say about the point they come from. */
  datatype Source = Source(
    pointID: string, snapshotID: string, manifestDigest: string, inventoryDigest: string, contentDigest: string,
    dependencyDigest: string, resticDigest: string, keyReferenceID: string, revision: int, stateRevision: int,
    recoveryEpoch: int)

  /** What a copy and its proof must both say about the stored generation. */
  datatype Stored = Stored(
    generationID: string, repositoryID: string, snapshotID: string, inventoryDigest: string, ruleDigest: string,
    objectCount: int, objectBytes: Int64)

  datatype Pending = Pending(
    source: Source, stored: Stored, protectedRules: seq<RetentionRule>, objects: seq<OffsiteObject>,
    sessionExpiries: seq<Time>, issuanceStoppedAt: Time)

  datatype WriterSeal = WriterSeal(
    generationID: string, proofClass: string, issuanceStoppedAt: Time, lastSessionExpiresAt: Time, observedAt: Time,
    childExited: bool, issuanceStopped: bool, newPUTDenied: bool, multipartCompletionDenied: bool)

  datatype OffsiteProof = OffsiteProof(
    proofID: string, proofDigest: string, status: string, proofClass: string, source: Source, stored: Stored,
    fullReadAt: Time, observedAt: Time, seal: WriterSeal)

  const VERIFIED := "offsite-verified"
  const STATUSES: set<string> :=
    {"offsite-verified", "fixture-only", "full-payload-due", "site-loss-blocked", "uncertain", "failed"}
  const QUALIFIED := "qualified-provider"
  const FIXTURE := "fixture"

  function OffsiteDigest(h: string -> string, objects: seq<OffsiteObject>): string {
    h(OffsiteText(SortBy(objects, OffsiteKey)))
  }

  // ----- the receipt

  predicate ValidOffsiteObject(o: OffsiteObject) {
    && o.key != "" && |o.key| <= 1024 && o.key[0] != '/' && '\\' !in o.key && Clean(o.key) == o.key && o.key != "."
    && !ContainsUp(o.key) && o.bytes >= 0 && ValidFingerprint(o.digest)
  }

  predicate SourceShaped(s: Source) {
    && s.pointID != "" && ValidObjectName(s.snapshotID) && ValidFingerprint(s.manifestDigest)
    && ValidFingerprint(s.inventoryDigest)
    && ValidFingerprint(s.contentDigest) && ValidFingerprint(s.dependencyDigest) && ValidFingerprint(s.resticDigest)
    && s.keyReferenceID != "" && s.revision >= 0 && s.stateRevision >= 0 && s.recoveryEpoch >= 0
  }

  predicate StoredShaped(s: Stored) {
    && OffsiteToken(s.generationID) && ValidObjectName(s.repositoryID) && ValidObjectName(s.snapshotID)
    && ValidFingerprint(s.inventoryDigest) && ValidFingerprint(s.ruleDigest) && s.objectCount > 0 && s.objectBytes > 0
  }

  function TotalBytes(objects: seq<OffsiteObject>): int {
    if objects == [] then 0 else TotalBytes(objects[..|objects| - 1]) + objects[|objects| - 1].bytes
  }

  predicate DistinctObjects(objects: seq<OffsiteObject>) {
    forall i, j :: 0 <= i < j < |objects| ==> objects[i].key != objects[j].key
  }

  predicate AllValid(objects: seq<OffsiteObject>, valid: OffsiteObject -> bool) {
    forall i :: 0 <= i < |objects| ==> valid(objects[i])
  }

  ghost predicate NoNegativeSizes(valid: OffsiteObject -> bool) {
    forall o :: valid(o) ==> o.bytes >= 0
  }

  /** Every object is valid, no key repeats, and the byte counts add up exactly. */
  predicate ObjectsAddUp(objects: seq<OffsiteObject>, bytes: int, valid: OffsiteObject -> bool) {
    AllValid(objects, valid) && DistinctObjects(objects) && TotalBytes(objects) == bytes
  }

  predicate ReceiptShaped(h: string -> string, p: Pending) {
    && SourceShaped(p.source) && StoredShaped(p.stored) && p.issuanceStoppedAt != NEVER && p.sessionExpiries != []
    && |p.objects| == p.stored.objectCount && OffsiteDigest(h, p.objects) == p.stored.inventoryDigest
  }

  ghost predicate PendingValid(h: string -> string, p: Pending) {
    && ReceiptShaped(h, p) && RulesValid(p.stored.generationID, p.protectedRules)
    && ObjectsAddUp(p.objects, p.stored.objectBytes, ValidOffsiteObject) && NEVER !in p.sessionExpiries
  }

  lemma {:induction false} TotalGrows(objects: seq<OffsiteObject>, i: nat, valid: OffsiteObject -> bool)
    requires i <= |objects| && NoNegativeSizes(valid) && AllValid(objects, valid)
    ensures 0 <= TotalBytes(objects[..i]) <= TotalBytes(objects)
    decreases |objects| - i
  {
    if i == |objects| {
      assert objects[..i] == objects;
      TotalIsNatural(objects, valid);
    } else {
      TotalGrows(objects, i + 1, valid);
      assert objects[..i + 1][..i] == objects[..i];
      TotalIsNatural(objects[..i], valid);
    }
  }

  lemma {:induction false} TotalIsNatural(objects: seq<OffsiteObject>, valid: OffsiteObject -> bool)
    requires NoNegativeSizes(valid) && AllValid(objects, valid)
    ensures TotalBytes(objects) >= 0
  {
    if objects != [] {
      TotalIsNatural(objects[..|objects| - 1], valid);
    }
  }

  /** The guarded running total never leaves 64 bits and ends exact. */
  method AddUp(objects: seq<OffsiteObject>, bytes: Int64, valid: OffsiteObject -> bool) returns (ok: bool)
    requires bytes > 0 && NoNegativeSizes(valid)
    ensures ok == ObjectsAddUp(objects, bytes, valid)
  {
    var total: Int64 := 0;
    var seen: set<string> := {};
    for i := 0 to |objects|
      invariant 0 <= total <= bytes && total == TotalBytes(objects[..i])
      invariant seen == set k | 0 <= k < i :: objects[k].key
      invariant AllValid(objects[..i], valid) && DistinctObjects(objects[..i])
    {
      var o := objects[i];
      assert objects[..i + 1][..i] == objects[..i];
      if !valid(o) || o.key in seen || o.bytes > bytes - total {
        if AllValid(objects, valid) {
          TotalGrows(objects, i + 1, valid);
        }
        return false;
      }
      seen := seen + {o.key};
      total := total + o.bytes;
    }
    assert objects[..|objects|] == objects;
    ok := total == bytes;
  }

  method AllSet(expiries: seq<Time>) returns (ok: bool)
    ensures ok <==> NEVER !in expiries
  {
    for i := 0 to |expiries|
      invariant NEVER !in expiries[..i]
    {
      if expiries[i] == NEVER {
        return false;
      }
    }
    assert expiries[..|expiries|] == expiries;
    ok := true;
  }

  method ValidPendingOffsiteGeneration(h: string -> string, p: Pending) returns (ok: bool)
    ensures ok == PendingValid(h, p)
  {
    if !ReceiptShaped(h, p) || |p.protectedRules| != |PARTS| {
      return false;
    }
    ok := ValidProtectedRules(p.stored.generationID, p.protectedRules);
    if ok {
      ok := AddUp(p.objects, p.stored.objectBytes, ValidOffsiteObject);
    }
    if ok {
      ok := AllSet(p.sessionExpiries);
    }
  }

  // ----- the seal and the proof

  predicate Latest(last: Time, expiries: seq<Time>) {
    last in expiries && forall i :: 0 <= i < |expiries| ==> expiries[i] <= last
  }

  predicate SealValid(p: Pending, s: WriterSeal, observedAt: Time) {
    && s.generationID == p.stored.generationID && s.proofClass == QUALIFIED && s.childExited && s.issuanceStopped
    && s.newPUTDenied && s.multipartCompletionDenied && s.issuanceStoppedAt == p.issuanceStoppedAt
    && Latest(s.lastSessionExpiresAt, p.sessionExpiries)
    && s.lastSessionExpiresAt <= s.observedAt && p.issuanceStoppedAt <= s.observedAt <= observedAt
  }

  method ValidWriterSeal(p: Pending, s: WriterSeal, observedAt: Time) returns (ok: bool)
    requires p.sessionExpiries != []
    ensures ok == SealValid(p, s, observedAt)
  {
    var last := p.sessionExpiries[0];
    for i := 1 to |p.sessionExpiries|
      invariant last in p.sessionExpiries && forall k :: 0 <= k < i ==> p.sessionExpiries[k] <= last
    {
      if p.sessionExpiries[i] > last {
        last := p.sessionExpiries[i];
      }
    }
    ok := s.generationID == p.stored.generationID && s.proofClass == QUALIFIED && s.childExited && s.issuanceStopped &&
      s.newPUTDenied && s.multipartCompletionDenied && s.issuanceStoppedAt == p.issuanceStoppedAt &&
      s.lastSessionExpiresAt == last && s.observedAt >= last && s.observedAt >= p.issuanceStoppedAt &&
      observedAt >= s.observedAt;
  }

  /** The proof speaks of this receipt; `digest` is the hash of the proof's JSON with its own digest left empty. */
  predicate ProofBinds(digest: OffsiteProof -> string, p: Pending, proof: OffsiteProof) {
    && proof.proofID != "" && proof.proofDigest == digest(proof.(proofDigest := ""))
    && proof.status in STATUSES && proof.proofClass in {FIXTURE, QUALIFIED}
    && proof.source == p.source && proof.stored == p.stored && proof.observedAt != NEVER
    && (proof.status == VERIFIED ==>
          proof.proofClass == QUALIFIED && SealValid(p, proof.seal, proof.observedAt) && proof.fullReadAt != NEVER)
  }

  ghost predicate ProofValid(h: string -> string, digest: OffsiteProof -> string, p: Pending, proof: OffsiteProof) {
    PendingValid(h, p) && ProofBinds(digest, p, proof)
  }

  method ValidateOffsiteProof(h: string -> string, digest: OffsiteProof -> string, p: Pending, proof: OffsiteProof)
      returns (ok: bool)
    ensures ok == ProofValid(h, digest, p, proof)
  {
    ok := ValidPendingOffsiteGeneration(h, p);
    if !ok || proof.proofID == "" || proof.proofDigest != digest(proof.(proofDigest := "")) || proof.status !in STATUSES
       || (proof.proofClass != FIXTURE && proof.proofClass != QUALIFIED) || proof.source != p.source
       || proof.stored != p.stored
       || proof.observedAt == NEVER {
      return false;
    }
    if proof.status == VERIFIED {
      var sealed := ValidWriterSeal(p, proof.seal, proof.observedAt);
      ok := proof.proofClass == QUALIFIED && sealed && proof.fullReadAt != NEVER;
    }
  }

  predicate Advances(digest: OffsiteProof -> string, p: Pending, proof: OffsiteProof, revision: int, epoch: int) {
    && ProofBinds(digest, p, proof) && proof.status == VERIFIED
    && p.source.stateRevision == revision && p.source.recoveryEpoch == epoch && proof.fullReadAt <= proof.observedAt
  }

  ghost predicate CanAdvance(h: string -> string, digest: OffsiteProof -> string, p: Pending, proof: OffsiteProof,
                             revision: int, epoch: int) {
    PendingValid(h, p) && Advances(digest, p, proof, revision, epoch)
  }

  method CanAdvanceOffsiteLastGood(h: string -> string, digest: OffsiteProof -> string, p: Pending, proof: OffsiteProof,
                                   revision: int, epoch: int)
      returns (ok: bool)
    ensures ok == CanAdvance(h, digest, p, proof, revision, epoch)
  {
    ok := ValidateOffsiteProof(h, digest, p, proof);
    ok := ok && proof.status == VERIFIED && proof.proofClass == QUALIFIED && p.source.stateRevision == revision
      && p.source.recoveryEpoch == epoch && proof.fullReadAt <= proof.observedAt;
  }

  lemma {:induction false} LatestExists(expiries: seq<Time>) returns (last: Time)
    requires expiries != []
    ensures Latest(last, expiries)
  {
    last := expiries[0];
    if |expiries| > 1 {
      var later := LatestExists(expiries[1..]);
      assert later in expiries[1..] && forall i :: 0 < i < |expiries| ==> expiries[i] == expiries[1..][i - 1];
      last := if later > last then later else last;
    }
  }

  function LaterOf(a: Time, b: Time): Time {
    if a < b then b else a
  }

  /** Once every session has expired, some proof makes any valid receipt the last good one. */
  lemma ValidReceiptCanAdvance(h: string -> string, digest: OffsiteProof -> string, p: Pending)
      returns (proof: OffsiteProof)
    requires PendingValid(h, p)
    ensures CanAdvance(h, digest, p, proof, p.source.stateRevision, p.source.recoveryEpoch)
  {
    var last := LatestExists(p.sessionExpiries);
    var at := LaterOf(1, LaterOf(last, p.issuanceStoppedAt));
    var sealed := WriterSeal(p.stored.generationID, QUALIFIED, p.issuanceStoppedAt, last, at, true, true, true, true);
    var blank := OffsiteProof("x", "", VERIFIED, QUALIFIED, p.source, p.stored, at, at, sealed);
    proof := blank.(proofDigest := digest(blank));
    assert proof.(proofDigest := "") == blank;
  }
}
