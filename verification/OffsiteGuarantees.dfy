/** What a grant, a receipt, an advance and a session mean, field by field. */
module OffsiteGuarantees {
  import opened Text
  import opened Sorting
  import opened InventoryDigests
  import opened OffsitePaths
  import opened OffsiteAdmission
  import opened OffsiteSeal
  import opened OffsiteCopy

  // ----- grants

  lemma Written(base: string, part: string, end: string)
    ensures base + "/" + part + end == base + ("/" + part + end)
  {
  }

  /** The five protected names of a generation, as they are written below its base. */
  const NAMES: seq<string> := ["/config", "/keys/", "/data/", "/index/", "/snapshots/"]

  function Below(base: string): seq<string> {
    seq(|NAMES|, k requires 0 <= k < |NAMES| => base + NAMES[k])
  }

  lemma NameOfPart(k: nat)
    requires k < |PARTS|
    ensures k < |NAMES| && NAMES[k] == "/" + PARTS[k] + (if PARTS[k] != "config" then "/" else "")
  {
  }

  lemma FiveNames(base: string)
    requires OffsitePrefix(base)
    ensures ProtectedPaths(base) == Below(base)
  {
    forall k: nat | k < |PARTS| ensures ProtectedPaths(base)[k] == Below(base)[k] {
      PartPathWritten(base, PARTS[k]);
      NameOfPart(k);
      Written(base, PARTS[k], if PARTS[k] != "config" then "/" else "");
    }
  }

  lemma FiveMore(n: int)
    requires 0 <= n < TWO_63
    ensures Wrap(n + 5) == if n < TWO_63 - 5 then n + 5 else n + 5 - TWO_64
  {
  }

  /** A grant fits what was observed at most five minutes before: the point and the whole budget of the policy, one more
      generation, and five more rules of at most a thousand, unless counting them leaves 64 bits. */
  lemma GrantFits(h: string -> string, p: OffsitePolicy, pointBytes: Int64, o: RetentionObservation, now: int)
    requires Grants(h, p, pointBytes, o, now) && o.ruleCount < TWO_63
    ensures pointBytes <= p.maximumBytes <= o.availableBytes && 0 < p.maximumBytes
    ensures 0 < p.maximumPUTs <= o.availablePUTs && 0 < p.maximumLISTs <= o.availableLISTs
    ensures 0 <= o.retainedGenerations && o.retainedGenerations + 1 <= p.maximumRetainedGenerations
    ensures o.ruleLimit == p.ruleLimit <= 1000 && 0 <= o.ruleCount
    ensures o.ruleCount + 5 <= o.ruleLimit <==> o.ruleCount < TWO_63 - 5
    ensures o.observedAt != 0 && now - 300_000_000_000 <= o.observedAt <= now
  {
    RoomFits(h, p, pointBytes, o, now);
  }

  lemma RoomFits(h: string -> string, p: OffsitePolicy, pointBytes: Int64, o: RetentionObservation, now: int)
    requires RoomFor(h, p, pointBytes, o, now) && o.ruleCount < TWO_63
    ensures pointBytes <= p.maximumBytes <= o.availableBytes && 0 < p.maximumBytes
    ensures 0 < p.maximumPUTs <= o.availablePUTs && 0 < p.maximumLISTs <= o.availableLISTs
    ensures 0 <= o.retainedGenerations && o.retainedGenerations + 1 <= p.maximumRetainedGenerations
    ensures o.ruleLimit == p.ruleLimit <= 1000 && 0 <= o.ruleCount
    ensures o.ruleCount + 5 <= o.ruleLimit <==> o.ruleCount < TWO_63 - 5
    ensures o.observedAt != 0 && now - 300_000_000_000 <= o.observedAt <= now
  {
    FiveMore(o.ruleCount);
  }

  predicate Complete(p: OffsitePolicy) {
    && p.policyID != "" && p.profileID != "" && p.bucket != "" && p.parentReferenceID != ""
    && ValidFingerprint(p.parentFingerprint) && OffsiteToken(p.generationID) && OffsitePrefix(p.prefix)
    && 1 <= p.maximumBytes && 1 <= p.maximumPUTs && 1 <= p.maximumLISTs && 1 <= p.maximumRetainedGenerations
    && 1 <= p.ruleLimit && 1 <= p.retentionWindow && 1 <= p.sessionTTL <= 900_000_000_000
  }

  /** What must fit: the point, the budget, one more generation, and five more rules unless counting them overflows. */
  predicate Fits(p: OffsitePolicy, pointBytes: Int64, o: RetentionObservation) {
    && pointBytes <= p.maximumBytes <= o.availableBytes && p.maximumPUTs <= o.availablePUTs
    && p.maximumLISTs <= o.availableLISTs
    && 0 <= o.retainedGenerations && o.retainedGenerations + 1 <= p.maximumRetainedGenerations
    && o.ruleLimit == p.ruleLimit <= 1000 && 0 <= o.ruleCount
    && (o.ruleCount + 5 <= o.ruleLimit || TWO_63 - 5 <= o.ruleCount)
  }

  lemma RoomIsExact(h: string -> string, p: OffsitePolicy, pointBytes: Int64, o: RetentionObservation, now: int)
    requires o.ruleCount < TWO_63
    ensures RoomFor(h, p, pointBytes, o, now) <==>
      && Complete(p) && Fits(p, pointBytes, o) && o.generationID == p.generationID && o.indefiniteProtection
      && o.observedAt != 0 && now - 300_000_000_000 <= o.observedAt <= now
      && ValidFingerprint(o.ruleDigest) && o.ruleDigest == RetentionDigest(h, o)
  {
    if o.ruleCount >= 0 {
      FiveMore(o.ruleCount);
    }
  }

  /** The rules have one token each and are those of the base, and only its locks may change. */
  ghost predicate Protected(o: RetentionObservation, base: string) {
    && (forall i :: 0 <= i < |o.protectedRules| ==> OffsiteToken(o.protectedRules[i].ruleID))
    && (forall i, j :: 0 <= i < j < |o.protectedRules| ==> o.protectedRules[i].ruleID != o.protectedRules[j].ruleID)
    && multiset(Prefixes(o.protectedRules)) == multiset(Below(base)) && o.mutablePrefixes == [base + "/locks/"]
  }

  lemma ProtectedIsExact(o: RetentionObservation, base: string)
    requires OffsitePrefix(base)
    ensures Protected(o, base) <==>
      && RuleIDsFresh(o.protectedRules) && multiset(Prefixes(o.protectedRules)) == multiset(ProtectedPaths(base))
      && multiset(o.mutablePrefixes) == multiset(MutablePaths(base))
  {
    FiveNames(base);
    LocksBelow(base);
    if multiset(o.mutablePrefixes) == multiset(MutablePaths(base)) {
      LocksWritten(base, o.mutablePrefixes);
    }
  }

  /** A generation is granted exactly when its policy and observation make room for it, its base is valid and everything
      below the base is protected. */
  lemma GrantIsExact(h: string -> string, p: OffsitePolicy, pointBytes: Int64, o: RetentionObservation, now: int)
    ensures Grants(h, p, pointBytes, o, now) <==>
      && RoomFor(h, p, pointBytes, o, now) && OffsitePrefix(p.prefix + "/" + p.generationID)
      && Protected(o, p.prefix + "/" + p.generationID)
  {
    if RoomFor(h, p, pointBytes, o, now) {
      BaseWritten(p.prefix, p.generationID);
      var base := PathJoin(p.prefix, p.generationID);
      if OffsitePrefix(base) {
        ProtectedIsExact(o, base);
        GrantOfProtected(h, p, pointBytes, o, now);
      }
      GrantHasPrefix(h, p, pointBytes, o, now);
    }
  }

  lemma GrantOfProtected(h: string -> string, p: OffsitePolicy, pointBytes: Int64, o: RetentionObservation, now: int)
    requires RoomFor(h, p, pointBytes, o, now) && OffsitePrefix(PathJoin(p.prefix, p.generationID))
    ensures Grants(h, p, pointBytes, o, now) <==>
      && RuleIDsFresh(o.protectedRules)
      && multiset(Prefixes(o.protectedRules)) == multiset(ProtectedPaths(PathJoin(p.prefix, p.generationID)))
      && multiset(o.mutablePrefixes) == multiset(MutablePaths(PathJoin(p.prefix, p.generationID)))
  {
    if RuleIDsFresh(o.protectedRules)
       && multiset(Prefixes(o.protectedRules)) == multiset(ProtectedPaths(PathJoin(p.prefix, p.generationID)))
       && multiset(o.mutablePrefixes) == multiset(MutablePaths(PathJoin(p.prefix, p.generationID))) {
      GrantsExactly(h, p, pointBytes, o, now);
    }
  }

  lemma GrantHasPrefix(h: string -> string, p: OffsitePolicy, pointBytes: Int64, o: RetentionObservation, now: int)
    ensures Grants(h, p, pointBytes, o, now) ==> OffsitePrefix(PathJoin(p.prefix, p.generationID))
  {
    if Grants(h, p, pointBytes, o, now) {
      GrantsExactly(h, p, pointBytes, o, now);
    }
  }

  /** A grant rests on a complete policy and on an observation of this generation, indefinitely protected, whose digest
      is that of what was observed and whose rules and prefixes are exactly those of the generation. */
  lemma GrantIsOfThisGeneration(h: string -> string, p: OffsitePolicy, pointBytes: Int64, o: RetentionObservation,
                                now: int)
    requires Grants(h, p, pointBytes, o, now)
    ensures p.policyID != "" && p.profileID != "" && p.bucket != "" && p.parentReferenceID != ""
    ensures ValidFingerprint(p.parentFingerprint) && OffsiteToken(p.generationID) && OffsitePrefix(p.prefix)
    ensures 0 < p.sessionTTL <= 900_000_000_000 && 0 < p.retentionWindow
    ensures o.generationID == p.generationID && o.indefiniteProtection
    ensures ValidFingerprint(o.ruleDigest)
    ensures o.ruleDigest ==
      h(RetentionText(o, SortBy(o.protectedRules, RuleKey), SortBy(o.mutablePrefixes, TextKey)))
    ensures var base := p.prefix + "/" + p.generationID;
      && multiset(Prefixes(o.protectedRules)) == multiset(Below(base))
      && o.mutablePrefixes == [base + "/locks/"]
    ensures forall i :: 0 <= i < |o.protectedRules| ==> OffsiteToken(o.protectedRules[i].ruleID)
    ensures forall i, j :: 0 <= i < j < |o.protectedRules| ==> o.protectedRules[i].ruleID != o.protectedRules[j].ruleID
  {
    var base := PathJoin(p.prefix, p.generationID);
    BaseWritten(p.prefix, p.generationID);
    FiveNames(base);
    LocksWritten(base, o.mutablePrefixes);
  }

  lemma LocksWritten(base: string, prefixes: seq<string>)
    requires OffsitePrefix(base) && multiset(prefixes) == multiset(MutablePaths(base))
    ensures prefixes == [base + "/locks/"]
  {
    LocksBelow(base);
    assert |prefixes| == |multiset(prefixes)| == |multiset(MutablePaths(base))| == 1;
    assert prefixes[0] in multiset(MutablePaths(base));
  }

  lemma LocksBelow(base: string)
    requires OffsitePrefix(base)
    ensures MutablePaths(base) == [base + "/locks/"]
  {
    JoinIsPlain(base, "locks");
    Written(base, "locks", "/");
    assert "/" + "locks" + "/" == "/locks/";
  }

  /** The admission a grant yields repeats the policy's budget and the observed digest, and lists the observed rules. */
  lemma GrantYields(h: string -> string, p: OffsitePolicy, pointBytes: Int64, o: RetentionObservation, now: int)
    requires Grants(h, p, pointBytes, o, now)
    ensures var a := Forecast(p, o);
      && a.generationID == p.generationID && a.prefix == p.prefix + "/" + p.generationID + "/"
      && a.ruleDigest == o.ruleDigest && a.maximumBytes == p.maximumBytes && a.maximumPUTs == p.maximumPUTs
      && a.maximumLISTs == p.maximumLISTs && multiset(a.protectedRules) == multiset(o.protectedRules)
      && Sorted(a.protectedRules, RuleKey) && a.mutablePrefixes == o.mutablePrefixes
  {
    BaseWritten(p.prefix, p.generationID);
    SortSorts(o.protectedRules, RuleKey);
    GrantIsOfThisGeneration(h, p, pointBytes, o, now);
    LocksWritten(PathJoin(p.prefix, p.generationID), MutablePaths(PathJoin(p.prefix, p.generationID)));
  }

  /** An admission is valid exactly when its prefix is a valid base ending in its generation and one slash, its bounds
      are positive, its rules have one token each and cover the five names below the base, and only the locks may
      change. */
  lemma AdmissionIsExact(a: GenerationAdmission)
    ensures AdmissionValid(a) <==> a.prefix != "" && AdmittedBelow(a, a.prefix[..|a.prefix| - 1])
  {
    if a.prefix != "" && a.prefix[|a.prefix| - 1] == '/' {
      var base := a.prefix[..|a.prefix| - 1];
      assert a.prefix[|a.prefix| - 1..] == "/" && base + "/" == a.prefix;
      assert TrimSuffix(a.prefix, "/") == base;
      AdmittedExactly(a, base);
    } else {
      var base := TrimSuffix(a.prefix, "/");
      assert (base + "/")[|base|] == '/';
    }
  }

  ghost predicate AdmittedBelow(a: GenerationAdmission, base: string) {
    && OffsiteToken(a.generationID) && a.prefix == base + "/" && OffsitePrefix(base)
    && (exists before :: base == before + "/" + a.generationID) && ValidFingerprint(a.ruleDigest)
    && 1 <= a.maximumBytes && 1 <= a.maximumPUTs && 1 <= a.maximumLISTs
    && (forall i :: 0 <= i < |a.protectedRules| ==> OffsiteToken(a.protectedRules[i].ruleID))
    && (forall i, j :: 0 <= i < j < |a.protectedRules| ==> a.protectedRules[i].ruleID != a.protectedRules[j].ruleID)
    && multiset(Prefixes(a.protectedRules)) == multiset(Below(base)) && a.mutablePrefixes == [base + "/locks/"]
  }

  lemma AdmittedExactly(a: GenerationAdmission, base: string)
    requires TrimSuffix(a.prefix, "/") == base && a.prefix == base + "/"
    ensures AdmissionValid(a) <==> AdmittedBelow(a, base)
  {
    SuffixIsExact(base, "/" + a.generationID);
    Slashed(base, a.generationID);
    if OffsitePrefix(base) {
      FiveNames(base);
      LocksBelow(base);
      if multiset(a.mutablePrefixes) == multiset(MutablePaths(base)) {
        LocksWritten(base, a.mutablePrefixes);
      }
    }
  }

  lemma SuffixIsExact(s: string, end: string)
    ensures HasSuffix(s, end) <==> exists before :: s == before + end
  {
    if HasSuffix(s, end) {
      assert s == s[..|s| - |end|] + end;
    }
    if before :| s == before + end {
      assert s[|before|..] == end;
    }
  }

  lemma Slashed(base: string, id: string)
    ensures (exists before :: base == before + ("/" + id)) <==> exists before :: base == before + "/" + id
  {
    forall before: string ensures before + "/" + id == before + ("/" + id) {
    }
  }

  /** Rules that pass a receipt's check are five, of one token each, with valid prefixes, and cover the five names of a
      base that ends in the generation. */
  lemma PassedRulesCover(generationID: string, rules: seq<RetentionRule>) returns (base: string)
    requires RulesValid(generationID, rules)
    ensures |rules| == 5 && base != "" && HasSuffix(base, "/" + generationID)
    ensures forall i :: 0 <= i < |rules| ==>
      OffsiteToken(rules[i].ruleID) && OffsitePrefix(TrimSuffix(rules[i].prefix, "/"))
    ensures forall i, j :: 0 <= i < j < |rules| ==> rules[i].ruleID != rules[j].ruleID
    ensures multiset(Prefixes(rules)) == multiset(ProtectedPaths(base))
    ensures exists i :: 0 <= i < |rules| && rules[i].prefix == base + "/config"
  {
    base := ConfigBase(Prefixes(rules));
    var i := BaseIsOfConfig(Prefixes(rules));
    assert PrefixValid(rules[i]);
  }

  lemma {:induction false} BaseIsOfConfig(prefixes: seq<string>) returns (i: int)
    requires ConfigBase(prefixes) != ""
    ensures 0 <= i < |prefixes| && prefixes[i] == ConfigBase(prefixes) + "/config"
  {
    if HasSuffix(prefixes[0], "/config") {
      i := 0;
    } else {
      i := BaseIsOfConfig(prefixes[1..]);
      i := i + 1;
    }
  }

  // ----- receipts

  /** A receipt is valid exactly when it names its point and its generation completely, its objects are as many as it
      says and have its digest, they and its rules pass, and every session and the end of issuance have a time. */
  lemma ReceiptIsExact(h: string -> string, p: Pending)
    ensures PendingValid(h, p) <==>
      && NamesPoint(p.source) && NamesGeneration(p.stored)
      && |p.objects| == p.stored.objectCount && OffsiteDigest(h, p.objects) == p.stored.inventoryDigest
      && ObjectsAddUp(p.objects, p.stored.objectBytes, ValidOffsiteObject)
      && RulesValid(p.stored.generationID, p.protectedRules)
      && p.issuanceStoppedAt != 0 && p.sessionExpiries != []
      && forall i :: 0 <= i < |p.sessionExpiries| ==> p.sessionExpiries[i] != 0
  {
    ShapesAreExact(p.source, p.stored);
  }

  predicate NamesPoint(s: Source) {
    && s.pointID != "" && s.keyReferenceID != "" && ValidObjectName(s.snapshotID) && ValidFingerprint(s.manifestDigest)
    && ValidFingerprint(s.inventoryDigest) && ValidFingerprint(s.contentDigest) && ValidFingerprint(s.dependencyDigest)
    && ValidFingerprint(s.resticDigest) && 0 <= s.revision && 0 <= s.stateRevision && 0 <= s.recoveryEpoch
  }

  predicate NamesGeneration(s: Stored) {
    && OffsiteToken(s.generationID) && ValidObjectName(s.repositoryID) && ValidObjectName(s.snapshotID)
    && ValidFingerprint(s.inventoryDigest) && ValidFingerprint(s.ruleDigest) && 1 <= s.objectCount && 1 <= s.objectBytes
  }

  lemma ShapesAreExact(source: Source, stored: Stored)
    ensures SourceShaped(source) <==> NamesPoint(source)
    ensures StoredShaped(stored) <==> NamesGeneration(stored)
  {
  }

  /** The objects add up exactly when each is proper, no key repeats and the sizes sum to the bytes. */
  lemma ObjectsAreExact(objects: seq<OffsiteObject>, bytes: int)
    ensures ObjectsAddUp(objects, bytes, ValidOffsiteObject) <==>
      && (forall i :: 0 <= i < |objects| ==> ProperObject(objects[i]))
      && (forall i, j :: 0 <= i < j < |objects| ==> objects[i].key != objects[j].key)
      && SumOfSizes(objects) == bytes
  {
    SumsAgree(objects);
    forall i | 0 <= i < |objects| ensures ValidOffsiteObject(objects[i]) <==> ProperObject(objects[i]) {
      ObjectIsExact(objects[i]);
    }
  }

  lemma ObjectIsExact(o: OffsiteObject)
    ensures ValidOffsiteObject(o) <==> ProperObject(o)
  {
  }

  /** The sizes from the front. */
  function SumOfSizes(objects: seq<OffsiteObject>): int {
    if objects == [] then 0 else objects[0].bytes + SumOfSizes(objects[1..])
  }

  lemma {:induction false} SumsAgree(objects: seq<OffsiteObject>)
    ensures SumOfSizes(objects) == TotalBytes(objects)
  {
    if objects != [] {
      TotalWithout(objects, 0);
      assert Without(objects, 0) == objects[1..];
      SumsAgree(objects[1..]);
    }
  }

  /** A relative key without backslash or upward step, already clean, with a digest and a size. */
  predicate ProperObject(o: OffsiteObject) {
    && 1 <= |o.key| <= 1024 && o.key[0] != '/' && (forall i :: 0 <= i < |o.key| ==> o.key[i] != '\\')
    && Clean(o.key) == o.key && o.key != "." && !ContainsUp(o.key) && 0 <= o.bytes && ValidFingerprint(o.digest)
  }

  // ----- advances

  /** A proof advances a valid receipt exactly when the point is at the current revision and epoch, the proof names this
      point and this generation and is verified by a qualified provider, everything was read in full no later than it
      was observed, and the seal of this generation was observed after the last session and the end of issuance, no
      later than the proof. */
  lemma AdvanceIsExact(digest: OffsiteProof -> string, p: Pending, proof: OffsiteProof, revision: int, epoch: int)
    ensures Advances(digest, p, proof, revision, epoch) <==>
      && p.source.stateRevision == revision && p.source.recoveryEpoch == epoch
      && proof.proofID != "" && proof.proofDigest == digest(proof.(proofDigest := ""))
      && proof.status == "offsite-verified" && proof.proofClass == "qualified-provider"
      && proof.source == p.source && proof.stored == p.stored
      && proof.fullReadAt != 0 && proof.fullReadAt <= proof.observedAt && proof.observedAt != 0
      && SealCovers(p, proof.seal, proof.observedAt)
  {
    SealIsExact(p, proof.seal, proof.observedAt);
  }

  /** Any proof of a receipt names it, is of a known status and class and has a time; one that claims verification is
      also qualified, sealed and of a full read. */
  lemma ProofIsExact(digest: OffsiteProof -> string, p: Pending, proof: OffsiteProof)
    ensures ProofBinds(digest, p, proof) <==>
      && proof.proofID != "" && proof.proofDigest == digest(proof.(proofDigest := ""))
      && proof.source == p.source && proof.stored == p.stored && proof.observedAt != 0
      && (proof.proofClass == "qualified-provider" || proof.proofClass == "fixture")
      && (|| proof.status == "fixture-only" || proof.status == "full-payload-due" || proof.status == "uncertain"
          || proof.status == "site-loss-blocked" || proof.status == "failed"
          || (&& proof.status == "offsite-verified" && proof.proofClass == "qualified-provider"
              && proof.fullReadAt != 0 && SealCovers(p, proof.seal, proof.observedAt)))
  {
    SealIsExact(p, proof.seal, proof.observedAt);
  }

  predicate SealCovers(p: Pending, seal: WriterSeal, observedAt: Time) {
    && seal.generationID == p.stored.generationID && seal.proofClass == "qualified-provider"
    && seal.childExited && seal.issuanceStopped && seal.newPUTDenied && seal.multipartCompletionDenied
    && seal.issuanceStoppedAt == p.issuanceStoppedAt <= seal.observedAt <= observedAt
    && seal.lastSessionExpiresAt in p.sessionExpiries
    && forall e :: e in p.sessionExpiries ==> e <= seal.lastSessionExpiresAt <= seal.observedAt
  }

  lemma SealIsExact(p: Pending, seal: WriterSeal, observedAt: Time)
    ensures SealValid(p, seal, observedAt) <==> SealCovers(p, seal, observedAt)
  {
    assert forall i :: 0 <= i < |p.sessionExpiries| ==> p.sessionExpiries[i] in p.sessionExpiries;
  }

  /** An accepted advance is of a valid receipt at the current revision and epoch, read in full and sealed. */
  lemma AdvanceIsCurrent(h: string -> string, digest: OffsiteProof -> string, p: Pending, proof: OffsiteProof,
                         revision: int, epoch: int)
    requires CanAdvance(h, digest, p, proof, revision, epoch)
    ensures p.source.stateRevision == revision && p.source.recoveryEpoch == epoch && PendingValid(h, p)
    ensures proof.source == p.source && proof.stored == p.stored
    ensures proof.status == "offsite-verified" && proof.proofClass == "qualified-provider"
    ensures 0 != proof.fullReadAt <= proof.observedAt && SealCovers(p, proof.seal, proof.observedAt)
  {
    AdvanceIsExact(digest, p, proof, revision, epoch);
  }

  /** For a given receipt and proof at most one revision and epoch is accepted. */
  lemma OnePositionAdvances(h: string -> string, digest: OffsiteProof -> string, p: Pending, proof: OffsiteProof,
                            revision: int, epoch: int, revision': int, epoch': int)
    requires CanAdvance(h, digest, p, proof, revision, epoch) && CanAdvance(h, digest, p, proof, revision', epoch')
    ensures revision == revision' && epoch == epoch'
  {
    AdvanceIsCurrent(h, digest, p, proof, revision, epoch);
    AdvanceIsCurrent(h, digest, p, proof, revision', epoch');
  }

  // ----- sessions

  /** A request for exactly this endpoint: read, local, before its deadline and with its bearer. */
  predicate AskedProperly(c: EndpointConfig, bearer: string, a: Action) {
    && a.Serve? && a.request == HttpRequest("GET", c.path, true, "Bearer " + bearer) && a.now < c.deadline
    && a.answer.Some?
  }

  ghost predicate AskedFor(c: EndpointConfig, bearer: string, actions: seq<Action>, expiry: Time) {
    exists a :: a in actions && AskedProperly(c, bearer, a) && a.answer == Some(expiry)
  }

  ghost predicate EachAsked(c: EndpointConfig, bearer: string, actions: seq<Action>, issued: seq<Time>) {
    forall i :: 0 <= i < |issued| ==> AskedFor(c, bearer, actions, issued[i])
  }

  lemma AskedStays(c: EndpointConfig, bearer: string, before: seq<Action>, actions: seq<Action>, issued: seq<Time>)
    requires before <= actions && EachAsked(c, bearer, before, issued)
    ensures EachAsked(c, bearer, actions, issued)
  {
    forall i | 0 <= i < |issued| ensures AskedFor(c, bearer, actions, issued[i]) {
      assert AskedFor(c, bearer, before, issued[i]);
      var a :| a in before && AskedProperly(c, bearer, a) && a.answer == Some(issued[i]);
      assert a in actions;
    }
  }

  predicate BearerKept(e: EndpointState, bearer: string) {
    e.closed || e.bearer == bearer
  }

  /** In every run, each session ever issued was asked for by such a request with that answer. */
  lemma {:induction false} SessionsWereAskedFor(h: string -> string, c: EndpointConfig, bearer: string,
                                                actions: seq<Action>)
    ensures var e := Exec(h, c, Start(bearer), actions).endpoint;
      EachAsked(c, bearer, actions, e.issued) && BearerKept(e, bearer)
  {
    if actions != [] {
      var before, a := actions[..|actions| - 1], actions[|actions| - 1];
      SessionsWereAskedFor(h, c, bearer, before);
      var s := Exec(h, c, Start(bearer), before);
      AskedStays(c, bearer, before, actions, s.endpoint.issued);
      var e := StepEndpoint(c, s, a);
      if e.issued != s.endpoint.issued {
        assert a in actions && AskedProperly(c, bearer, a);
        assert e.issued == s.endpoint.issued + [a.answer.value];
      }
    }
  }

  /** Once closed, an endpoint issues nothing more and has forgotten its bearer. */
  lemma {:induction false} NothingIssuedAfterClose(h: string -> string, c: EndpointConfig, s: State, later: seq<Action>)
    requires s.endpoint.closed
    ensures var e := Exec(h, c, s, later).endpoint;
      e.closed && e.issued == s.endpoint.issued && e.bearer == s.endpoint.bearer
  {
    if later != [] {
      NothingIssuedAfterClose(h, c, s, later[..|later| - 1]);
    }
  }

  // ----- copies

  /** A copy that was started, in any run, was configured completely, for this very endpoint, point and generation, over
      TLS into the admitted prefix of its bucket, with credentials from a loopback address. */
  lemma StartedCopyIsBound(h: string -> string, c: EndpointConfig, bearer: string, actions: seq<Action>)
    requires var copy := Exec(h, c, Start(bearer), actions).copy; !copy.Idle? && !copy.Failed?
    ensures var job := Exec(h, c, Start(bearer), actions).copy.job; var g := job.config;
      && g.portsPresent && g.passwordBytes > 0 && g.binaryPath != "" && g.architecture != "" && g.snapshotPath != ""
      && g.passwordFDPath != "" && g.tokenFDPath != "" && job.source.pointID != "" && job.source.snapshotID != ""
      && AdmissionValid(job.admission) && g.binding.generationID == job.admission.generationID != ""
      && g.binding.pointID == job.source.pointID && g.binding.recoveryEpoch == job.source.recoveryEpoch
      && c.path == "/v1/credentials/" + g.binding.runID + "/" + g.binding.stepID + "/" + g.binding.generationID + "/"
                   + FormatInt(g.binding.recoveryEpoch)
    ensures var job := Exec(h, c, Start(bearer), actions).copy.job; var g := job.config;
      && "s3:" <= g.repositoryURL && g.repository.Some? && g.bucket != "" && '/' !in g.bucket
      && var url := g.repository.value;
      && url == Url("https", false, url.host, url.path, "", "", "", url.loopbackPort) && url.host != ""
      && url.path + "/" == "/" + g.bucket + "/" + job.admission.prefix
    ensures var job := Exec(h, c, Start(bearer), actions).copy.job;
      && job.config.iam.Some?
      && var url := job.config.iam.value; url == Url("http", false, url.host, c.path, url.rawPath, "", "", true)
  {
    Invariant(h, c, bearer, actions);
    var job := Exec(h, c, Start(bearer), actions).copy.job;
    HeldInputs(c, job);
  }

  lemma HeldInputs(c: EndpointConfig, job: Job)
    requires InputsHold(c, job)
    ensures "s3:" <= job.config.repositoryURL && job.admission.prefix == TrimSuffix(job.admission.prefix, "/") + "/"
    ensures job.config.repository.value.path + "/" == "/" + job.config.bucket + "/" + job.admission.prefix
  {
    assert job.config.repositoryURL[..3] == "s3:";
    var base := TrimSuffix(job.admission.prefix, "/");
    assert "/" + job.config.bucket + "/" + base + "/" == "/" + job.config.bucket + "/" + (base + "/");
  }

  /** A finished copy stayed within its admission, its child exited with a named snapshot of something, and its objects
      are those of the digest it reports. */
  lemma FinishedCopyIsWithinBounds(h: string -> string, c: EndpointConfig, bearer: string, actions: seq<Action>)
    requires Exec(h, c, Start(bearer), actions).copy.Done?
    ensures var copy := Exec(h, c, Start(bearer), actions).copy; var o := copy.seen;
      && 1 <= o.objectCount == |o.objects| && o.objectCount <= copy.job.admission.maximumPUTs
      && 1 <= o.objectBytes <= copy.job.admission.maximumBytes
      && ValidFingerprint(o.inventoryDigest) && h(OffsiteText(SortBy(o.objects, OffsiteKey))) == o.inventoryDigest
    ensures var copy := Exec(h, c, Start(bearer), actions).copy; var p := copy.pending;
      && p.source == copy.job.source && p.protectedRules == copy.job.admission.protectedRules
      && multiset(p.objects) == multiset(copy.seen.objects) && Sorted(p.objects, OffsiteKey)
      && ValidObjectName(p.stored.repositoryID) && ValidObjectName(p.stored.snapshotID)
      && p.stored == Stored(copy.job.admission.generationID, p.stored.repositoryID, p.stored.snapshotID,
                            copy.seen.inventoryDigest, copy.job.admission.ruleDigest, copy.seen.objectCount,
                            copy.seen.objectBytes)
  {
    Invariant(h, c, bearer, actions);
    var s := Exec(h, c, Start(bearer), actions);
    SeenIsWithinBounds(h, s.endpoint, s.copy);
    ReceiptRepeats(h, s.endpoint, s.copy);
  }

  lemma SeenIsWithinBounds(h: string -> string, e: EndpointState, copy: Copy)
    requires copy.Done? && CopyInv(h, e, copy)
    ensures var o := copy.seen;
      && 1 <= o.objectCount == |o.objects| && o.objectCount <= copy.job.admission.maximumPUTs
      && 1 <= o.objectBytes <= copy.job.admission.maximumBytes
      && ValidFingerprint(o.inventoryDigest) && h(OffsiteText(SortBy(o.objects, OffsiteKey))) == o.inventoryDigest
  {
  }

  lemma ReceiptRepeats(h: string -> string, e: EndpointState, copy: Copy)
    requires copy.Done? && CopyInv(h, e, copy)
    ensures var p := copy.pending;
      && p.source == copy.job.source && p.protectedRules == copy.job.admission.protectedRules
      && multiset(p.objects) == multiset(copy.seen.objects) && Sorted(p.objects, OffsiteKey)
      && ValidObjectName(p.stored.repositoryID) && ValidObjectName(p.stored.snapshotID)
      && p.stored == Stored(copy.job.admission.generationID, p.stored.repositoryID, p.stored.snapshotID,
                            copy.seen.inventoryDigest, copy.job.admission.ruleDigest, copy.seen.objectCount,
                            copy.seen.objectBytes)
  {
    SortSorts(copy.seen.objects, OffsiteKey);
  }

  /** A child returned this result: it exited, and copied something under the receipt's names. */
  predicate ChildCopied(a: Action, stored: Stored) {
    && a.ChildReturns? && a.result.Some? && a.result.value.childExited
    && 1 <= a.result.value.objectCount && 1 <= a.result.value.objectBytes
    && a.result.value.repositoryID == stored.repositoryID && a.result.value.snapshotID == stored.snapshotID
  }

  ghost predicate ResultReturned(actions: seq<Action>, result: ResticResult) {
    exists i :: 0 <= i < |actions| && actions[i] == ChildReturns(Some(result))
  }

  /** The result a copy carries was returned by its child, and is usable once issuance has stopped. */
  ghost predicate ResultCarried(actions: seq<Action>, copy: Copy) {
    match copy
    case ChildReturned(job, answer) => answer.Some? ==> ResultReturned(actions, answer.value)
    case Stopped(job, result) => ResultReturned(actions, result) && ResultUsable(result)
    case Listed(job, result, expiries) => ResultReturned(actions, result) && ResultUsable(result)
    case Read(job, result, expiries, seen) => ResultReturned(actions, result) && ResultUsable(result)
    case Done(job, seen, pending) => exists i :: 0 <= i < |actions| && ChildCopied(actions[i], pending.stored)
    case _ => true
  }

  lemma ResultStays(before: seq<Action>, a: Action, copy: Copy)
    requires ResultCarried(before, copy)
    ensures ResultCarried(before + [a], copy)
  {
    var actions := before + [a];
    assert forall i :: 0 <= i < |before| ==> actions[i] == before[i];
  }

  lemma {:induction false} ResultIsCarried(h: string -> string, c: EndpointConfig, bearer: string, actions: seq<Action>)
    ensures ResultCarried(actions, Exec(h, c, Start(bearer), actions).copy)
  {
    if actions != [] {
      var before, a := actions[..|actions| - 1], actions[|actions| - 1];
      ResultIsCarried(h, c, bearer, before);
      assert before + [a] == actions;
      var s := Exec(h, c, Start(bearer), before);
      ResultStays(before, a, s.copy);
      ResultAdvances(h, c, s, actions);
    }
  }

  lemma ResultAdvances(h: string -> string, c: EndpointConfig, s: State, actions: seq<Action>)
    requires actions != [] && ResultCarried(actions, s.copy)
    ensures ResultCarried(actions, StepCopy(h, c, s, actions[|actions| - 1]))
  {
    var a := actions[|actions| - 1];
    if s.copy.Read? && a.Finish? {
      var i :| 0 <= i < |actions| && actions[i] == ChildReturns(Some(s.copy.result));
      assert ChildCopied(actions[i], StepCopy(h, c, s, a).pending.stored);
    }
  }

  /** A finished copy had a child that exited and returned at least one object under the names of the receipt. */
  lemma FinishedCopyHadAChild(h: string -> string, c: EndpointConfig, bearer: string, actions: seq<Action>)
      returns (i: int)
    requires Exec(h, c, Start(bearer), actions).copy.Done?
    ensures 0 <= i < |actions|
    ensures ChildCopied(actions[i], Exec(h, c, Start(bearer), actions).copy.pending.stored)
  {
    ResultIsCarried(h, c, bearer, actions);
    i :| 0 <= i < |actions| && ChildCopied(actions[i], Exec(h, c, Start(bearer), actions).copy.pending.stored);
  }
}
