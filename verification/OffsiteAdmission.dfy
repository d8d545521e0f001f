/** Admission of an offsite generation, and the rule check its receipt must pass later. */
module OffsiteAdmission {
  import opened Text
  import opened Sorting
  import opened InventoryDigests
  import opened OffsitePaths

  datatype OffsitePolicy = OffsitePolicy(
    policyID: string, profileID: string, generationID: string, bucket: string, prefix: string,
    parentReferenceID: string, parentFingerprint: string, maximumBytes: Int64, maximumPUTs: Int64, maximumLISTs: Int64,
    maximumRetainedGenerations: Int64, ruleLimit: Int64, retentionWindow: Int64, sessionTTL: Int64)

  datatype GenerationAdmission = GenerationAdmission(
    generationID: string, prefix: string, ruleDigest: string, maximumBytes: Int64, maximumPUTs: Int64,
    maximumLISTs: Int64, protectedRules: seq<RetentionRule>, mutablePrefixes: seq<string>)

  const MINUTE: int := 60_000_000_000

  predicate ValidOffsitePolicy(p: OffsitePolicy) {
    && p.policyID != "" && p.profileID != "" && OffsiteToken(p.generationID) && p.bucket != ""
    && OffsitePrefix(p.prefix)
    && p.parentReferenceID != "" && ValidFingerprint(p.parentFingerprint)
    && p.maximumBytes > 0 && p.maximumPUTs > 0 && p.maximumLISTs > 0 && p.maximumRetainedGenerations > 0
    && p.ruleLimit > 0
    && p.retentionWindow > 0 && 0 < p.sessionTTL <= 15 * MINUTE
  }

  // ----- the five protected names of a generation

  const PARTS: seq<string> := ["config", "keys", "data", "index", "snapshots"]

  function PartPath(base: string, part: string): string {
    PathJoin(base, part) + (if part != "config" then "/" else "")
  }

  function ProtectedPaths(base: string): seq<string> {
    seq(|PARTS|, i requires 0 <= i < |PARTS| => PartPath(base, PARTS[i]))
  }

  function MutablePaths(base: string): seq<string> {
    [PathJoin(base, "locks") + "/"]
  }

  function Prefixes(rules: seq<RetentionRule>): seq<string> {
    seq(|rules|, i requires 0 <= i < |rules| => rules[i].prefix)
  }

  predicate RuleIDsFresh(rules: seq<RetentionRule>) {
    && (forall i :: 0 <= i < |rules| ==> OffsiteToken(rules[i].ruleID))
    && (forall i, j :: 0 <= i < j < |rules| ==> rules[i].ruleID != rules[j].ruleID)
  }

  method CollectPrefixes(rules: seq<RetentionRule>) returns (ok: bool, prefixes: seq<string>)
    ensures ok == RuleIDsFresh(rules)
    ensures ok ==> prefixes == Prefixes(rules)
  {
    var seen: set<string> := {};
    prefixes := [];
    for i := 0 to |rules|
      invariant seen == set k | 0 <= k < i :: rules[k].ruleID
      invariant RuleIDsFresh(rules[..i]) && prefixes == Prefixes(rules[..i])
    {
      if !OffsiteToken(rules[i].ruleID) || rules[i].ruleID in seen {
        return false, [];
      }
      seen := seen + {rules[i].ruleID};
      prefixes := prefixes + [rules[i].prefix];
    }
    assert rules[..|rules|] == rules;
    ok := true;
  }

  method JoinParts(base: string) returns (paths: seq<string>)
    ensures paths == ProtectedPaths(base)
  {
    paths := [];
    for i := 0 to |PARTS|
      invariant |paths| == i && forall k :: 0 <= k < i ==> paths[k] == PartPath(base, PARTS[k])
    {
      paths := paths + [PartPath(base, PARTS[i])];
    }
  }

  /** Two lists are equal once sorted exactly when they hold the same texts equally often. */
  method EqualOnceSorted(a: seq<string>, b: seq<string>) returns (equal: bool)
    ensures equal <==> multiset(a) == multiset(b)
  {
    SortSorts(a, TextKey);
    SortSorts(b, TextKey);
    SameSortIffPermutation(a, b, SortBy(a, TextKey), SortBy(b, TextKey), TextKey);
    equal := SortBy(a, TextKey) == SortBy(b, TextKey);
  }

  ghost predicate AdmissionValid(a: GenerationAdmission) {
    var base := TrimSuffix(a.prefix, "/");
    && OffsiteToken(a.generationID) && a.prefix == base + "/" && OffsitePrefix(base)
    && HasSuffix(base, "/" + a.generationID)
    && ValidFingerprint(a.ruleDigest) && a.maximumBytes > 0 && a.maximumPUTs > 0 && a.maximumLISTs > 0
    && RuleIDsFresh(a.protectedRules)
    && multiset(Prefixes(a.protectedRules)) == multiset(ProtectedPaths(base))
    && multiset(a.mutablePrefixes) == multiset(MutablePaths(base))
  }

  method ValidGenerationAdmission(a: GenerationAdmission) returns (ok: bool)
    ensures ok == AdmissionValid(a)
  {
    var base := TrimSuffix(a.prefix, "/");
    if !OffsiteToken(a.generationID) || a.prefix != base + "/" || !OffsitePrefix(base)
       || !HasSuffix(base, "/" + a.generationID)
       || !ValidFingerprint(a.ruleDigest) || a.maximumBytes <= 0 || a.maximumPUTs <= 0 || a.maximumLISTs <= 0 {
      return false;
    }
    var wanted := JoinParts(base);
    var unseen, got := CollectPrefixes(a.protectedRules);
    if !unseen {
      return false;
    }
    ok := EqualOnceSorted(wanted, got);
    if ok {
      ok := EqualOnceSorted(MutablePaths(base), a.mutablePrefixes);
    }
  }

  // ----- the forecast

  function RetentionDigest(h: string -> string, v: RetentionObservation): string {
    h(RetentionText(v, SortBy(v.protectedRules, RuleKey), SortBy(v.mutablePrefixes, TextKey)))
  }

  /** The policy is well formed and the observed destination has room. */
  predicate RoomFor(h: string -> string, p: OffsitePolicy, pointBytes: Int64, o: RetentionObservation, now: int) {
    && ValidOffsitePolicy(p) && o.generationID == p.generationID && o.ruleLimit == p.ruleLimit <= 1000
    && 0 <= o.ruleCount && Wrap(o.ruleCount + |PARTS|) <= o.ruleLimit
    && 0 <= o.retainedGenerations < p.maximumRetainedGenerations
    && o.availableBytes >= p.maximumBytes && o.availablePUTs >= p.maximumPUTs && o.availableLISTs >= p.maximumLISTs
    && pointBytes <= p.maximumBytes
    && o.observedAt != 0 && o.observedAt <= now && now - o.observedAt <= 5 * MINUTE
    && o.indefiniteProtection && ValidFingerprint(o.ruleDigest) && o.ruleDigest == RetentionDigest(h, o)
  }

  function Forecast(p: OffsitePolicy, o: RetentionObservation): GenerationAdmission {
    var base := PathJoin(p.prefix, p.generationID);
    GenerationAdmission(p.generationID, base + "/", o.ruleDigest, p.maximumBytes, p.maximumPUTs, p.maximumLISTs,
                        SortBy(o.protectedRules, RuleKey), MutablePaths(base))
  }

  ghost predicate Grants(h: string -> string, p: OffsitePolicy, pointBytes: Int64, o: RetentionObservation, now: int) {
    var base := PathJoin(p.prefix, p.generationID);
    && RoomFor(h, p, pointBytes, o, now) && RuleIDsFresh(o.protectedRules)
    && multiset(Prefixes(o.protectedRules)) == multiset(ProtectedPaths(base))
    && multiset(o.mutablePrefixes) == multiset(MutablePaths(base))
    && AdmissionValid(Forecast(p, o))
  }

  method ForecastGeneration(h: string -> string, p: OffsitePolicy, pointBytes: Int64, o: RetentionObservation, now: int)
      returns (admission: Option<GenerationAdmission>)
    ensures admission == if Grants(h, p, pointBytes, o, now) then Some(Forecast(p, o)) else None
  {
    if !RoomFor(h, p, pointBytes, o, now) {
      return None;
    }
    var base := PathJoin(p.prefix, p.generationID);
    var wanted := JoinParts(base);
    var unseen, got := CollectPrefixes(o.protectedRules);
    if !unseen {
      return None;
    }
    var same := EqualOnceSorted(wanted, got);
    if same {
      same := EqualOnceSorted(MutablePaths(base), o.mutablePrefixes);
    }
    if !same {
      return None;
    }
    var result := GenerationAdmission(p.generationID, base + "/", o.ruleDigest, p.maximumBytes, p.maximumPUTs,
                                      p.maximumLISTs,
                                      SortBy(o.protectedRules, RuleKey), MutablePaths(base));
    var ok := ValidGenerationAdmission(result);
    admission := if ok then Some(result) else None;
  }

  // ----- the receipt's rule check

  /** What the first prefix that ends in "/config" hangs below. */
  function ConfigBase(prefixes: seq<string>): string {
    if prefixes == [] then ""
    else if HasSuffix(prefixes[0], "/config") then TrimSuffix(prefixes[0], "/config")
    else ConfigBase(prefixes[1..])
  }

  predicate PrefixValid(r: RetentionRule) {
    OffsitePrefix(TrimSuffix(r.prefix, "/"))
  }

  predicate AllRules(rules: seq<RetentionRule>, valid: RetentionRule -> bool) {
    forall i :: 0 <= i < |rules| ==> valid(rules[i])
  }

  ghost predicate RulesValid(generationID: string, rules: seq<RetentionRule>) {
    var base := ConfigBase(Prefixes(rules));
    && |rules| == |PARTS| && RuleIDsFresh(rules)
    && AllRules(rules, PrefixValid) && base != "" && HasSuffix(base, "/" + generationID)
    && multiset(Prefixes(rules)) == multiset(ProtectedPaths(base))
  }

  method ValidProtectedRules(generationID: string, rules: seq<RetentionRule>) returns (ok: bool)
    ensures ok == RulesValid(generationID, rules)
  {
    if |rules| != |PARTS| {
      return false;
    }
    var unseen, prefixes := CollectPrefixes(rules);
    if !unseen {
      return false;
    }
    var valid := CheckRules(rules, PrefixValid);
    if !valid {
      return false;
    }
    var base := FindBase(prefixes);
    if base == "" || !HasSuffix(base, "/" + generationID) {
      return false;
    }
    var wanted := JoinParts(base);
    ok := EqualOnceSorted(prefixes, wanted);
  }

  method CheckRules(rules: seq<RetentionRule>, valid: RetentionRule -> bool) returns (ok: bool)
    ensures ok == AllRules(rules, valid)
  {
    for i := 0 to |rules|
      invariant forall k :: 0 <= k < i ==> valid(rules[k])
    {
      if !valid(rules[i]) {
        return false;
      }
    }
    ok := true;
  }

  method FindBase(prefixes: seq<string>) returns (base: string)
    ensures base == ConfigBase(prefixes)
  {
    base := "";
    for i := 0 to |prefixes|
      invariant ConfigBase(prefixes) == ConfigBase(prefixes[i..])
    {
      if HasSuffix(prefixes[i], "/config") {
        return TrimSuffix(prefixes[i], "/config");
      }
      assert prefixes[i..][1..] == prefixes[i + 1..];
    }
  }

  // ----- every admission meets its receipt's check, but for two exceptions

  predicate Part(part: string) {
    part in PARTS
  }

  lemma PartsArePlain(part: string)
    requires Part(part)
    ensures PlainPart(part) && '\\' !in part && '.' !in part && |part| <= 9 && part[|part| - 1] != '/'
  {
  }

  /** The written form of a protected name, with and without its closing slash. */
  lemma PartPathWritten(base: string, part: string)
    requires OffsitePrefix(base) && Part(part)
    ensures PartPath(base, part) == base + "/" + part + (if part != "config" then "/" else "")
    ensures TrimSuffix(PartPath(base, part), "/") == base + "/" + part
    ensures HasSuffix(PartPath(base, part), "/config") <==> part == "config"
    ensures part == "config" ==> TrimSuffix(PartPath(base, part), "/config") == base
  {
    PartsArePlain(part);
    JoinIsPlain(base, part);
    var s := PartPath(base, part);
    if part == "config" {
      assert s == base + "/config";
      assert s[|base|..] == "/config";
      assert s[|s| - 1..] == "g";
    } else {
      assert s[|s| - 1..] == "/";
      assert s[..|s| - 1] == base + "/" + part;
      assert s[|s| - 1] == '/' && "/config"[6] == 'g';
      assert |s| >= 7 ==> s[|s| - 7..][6] == '/';
    }
  }

  lemma PathsAreParts(base: string, prefixes: seq<string>, i: nat) returns (part: string)
    requires multiset(prefixes) == multiset(ProtectedPaths(base)) && i < |prefixes|
    ensures Part(part) && prefixes[i] == PartPath(base, part)
  {
    assert prefixes[i] in multiset(ProtectedPaths(base));
    var k :| 0 <= k < |PARTS| && ProtectedPaths(base)[k] == prefixes[i];
    part := PARTS[k];
  }

  lemma PartIsListed(base: string, prefixes: seq<string>, k: nat) returns (i: int)
    requires multiset(prefixes) == multiset(ProtectedPaths(base)) && k < |PARTS|
    ensures 0 <= i < |prefixes| && prefixes[i] == PartPath(base, PARTS[k])
  {
    assert ProtectedPaths(base)[k] in multiset(prefixes);
    i :| 0 <= i < |prefixes| && prefixes[i] == PartPath(base, PARTS[k]);
  }

  lemma {:induction false} ConfigBaseIs(prefixes: seq<string>, base: string)
    requires forall i :: 0 <= i < |prefixes| && HasSuffix(prefixes[i], "/config") ==>
      TrimSuffix(prefixes[i], "/config") == base
    requires exists i :: 0 <= i < |prefixes| && HasSuffix(prefixes[i], "/config")
    ensures ConfigBase(prefixes) == base
  {
    if !HasSuffix(prefixes[0], "/config") {
      assert forall i :: 0 < i < |prefixes| ==> prefixes[i] == prefixes[1..][i - 1];
      ConfigBaseIs(prefixes[1..], base);
    }
  }

  lemma FindsItsBase(base: string, prefixes: seq<string>)
    requires OffsitePrefix(base) && multiset(prefixes) == multiset(ProtectedPaths(base))
    ensures ConfigBase(prefixes) == base
  {
    forall i | 0 <= i < |prefixes| && HasSuffix(prefixes[i], "/config")
      ensures TrimSuffix(prefixes[i], "/config") == base
    {
      var part := PathsAreParts(base, prefixes, i);
      PartPathWritten(base, part);
    }
    var c := PartIsListed(base, prefixes, 0);
    PartPathWritten(base, PARTS[0]);
    ConfigBaseIs(prefixes, base);
  }

  lemma PrefixesFit(base: string, prefixes: seq<string>)
    requires OffsitePrefix(base) && multiset(prefixes) == multiset(ProtectedPaths(base))
    ensures (forall i :: 0 <= i < |prefixes| ==> OffsitePrefix(TrimSuffix(prefixes[i], "/"))) <==>
      |base| <= 502 && !HasSuffix(base, "..")
  {
    forall i | 0 <= i < |prefixes|
      ensures |base| <= 502 && !HasSuffix(base, "..") ==> OffsitePrefix(TrimSuffix(prefixes[i], "/"))
    {
      var part := PathsAreParts(base, prefixes, i);
      PartPathWritten(base, part);
      PartsArePlain(part);
      PrefixExtends(base, part);
    }
    var last := PartIsListed(base, prefixes, 4);
    PartPathWritten(base, PARTS[4]);
    PartsArePlain(PARTS[4]);
    PrefixExtends(base, PARTS[4]);
  }

  lemma EndsInDots(s: string)
    ensures HasSuffix(s, "..") <==> |s| >= 2 && s[|s| - 2] == '.' && s[|s| - 1] == '.'
  {
    if |s| >= 2 {
      assert s[|s| - 2..] == [s[|s| - 2], s[|s| - 1]];
    }
  }

  lemma EndsWithItsGeneration(base: string, generationID: string)
    requires OffsiteToken(generationID) && HasSuffix(base, "/" + generationID)
    ensures HasSuffix(base, "..") <==> HasSuffix(generationID, "..")
  {
    EndsInDots(base);
    EndsInDots(generationID);
    var tail, k := "/" + generationID, |generationID|;
    assert base[|base| - 1] == tail[k] == generationID[k - 1];
    assert base[|base| - 2] == tail[k - 1];
    assert k >= 2 ==> tail[k - 1] == generationID[k - 2];
    assert generationID[0] != '.';
  }

  /** A valid admission meets the receipt's rule check exactly when its base has at most 502 bytes and its generation id
      does not end in two dots. */
  lemma AdmissionMeetsReceiptCheck(a: GenerationAdmission)
    requires AdmissionValid(a)
    ensures RulesValid(a.generationID, a.protectedRules) <==> |a.prefix| <= 503 && !HasSuffix(a.generationID, "..")
  {
    var base := TrimSuffix(a.prefix, "/");
    var prefixes := Prefixes(a.protectedRules);
    FindsItsBase(base, prefixes);
    PrefixesFit(base, prefixes);
    EndsWithItsGeneration(base, a.generationID);
    assert |prefixes| == |multiset(prefixes)| == |multiset(ProtectedPaths(base))| == |PARTS|;
    assert forall i :: 0 <= i < |prefixes| ==> prefixes[i] == a.protectedRules[i].prefix;
    assert AllRules(a.protectedRules, PrefixValid) <==>
      forall i :: 0 <= i < |prefixes| ==> OffsitePrefix(TrimSuffix(prefixes[i], "/"));
  }

  /** So does everything the forecast grants. */
  lemma ForecastMeetsReceiptCheck(h: string -> string, p: OffsitePolicy, pointBytes: Int64, o: RetentionObservation,
                                  now: int)
    requires Grants(h, p, pointBytes, o, now)
    ensures RulesValid(p.generationID, Forecast(p, o).protectedRules) <==>
      |PathJoin(p.prefix, p.generationID)| <= 502 && !HasSuffix(p.generationID, "..")
  {
    AdmissionMeetsReceiptCheck(Forecast(p, o));
  }

  // ----- when the forecast grants

  lemma SortedRulesMatch(rules: seq<RetentionRule>, sorted: seq<RetentionRule>)
    requires multiset(sorted) == multiset(rules) && RuleIDsFresh(rules)
    ensures RuleIDsFresh(sorted) && multiset(Prefixes(sorted)) == multiset(Prefixes(rules))
  {
    SameElements(sorted, rules);
    forall i | 0 <= i < |sorted| ensures OffsiteToken(sorted[i].ruleID) {
      assert sorted[i] in rules;
    }
    DistinctKeysPermute(rules, sorted, (r: RetentionRule) => Key(r.ruleID, ""));
    var prefix := (r: RetentionRule) => r.prefix;
    MappedPermutes(rules, sorted, prefix);
    assert Mapped(rules, prefix) == Prefixes(rules) && Mapped(sorted, prefix) == Prefixes(sorted);
  }

  lemma BaseWritten(prefix: string, generationID: string)
    requires OffsitePrefix(prefix) && OffsiteToken(generationID)
    ensures PathJoin(prefix, generationID) == prefix + "/" + generationID
    ensures HasSuffix(PathJoin(prefix, generationID), "/" + generationID)
    ensures TrimSuffix(PathJoin(prefix, generationID) + "/", "/") == PathJoin(prefix, generationID)
  {
    TokenIsPlain(generationID);
    JoinIsPlain(prefix, generationID);
    var base := PathJoin(prefix, generationID);
    assert base[|prefix|..] == "/" + generationID;
    assert (base + "/")[|base|..] == "/";
  }

  /** With room, fresh rule ids and the wanted prefixes, a grant depends on the base prefix alone. */
  lemma GrantsExactly(h: string -> string, p: OffsitePolicy, pointBytes: Int64, o: RetentionObservation, now: int)
    requires RoomFor(h, p, pointBytes, o, now) && RuleIDsFresh(o.protectedRules)
    requires multiset(Prefixes(o.protectedRules)) == multiset(ProtectedPaths(PathJoin(p.prefix, p.generationID)))
    requires multiset(o.mutablePrefixes) == multiset(MutablePaths(PathJoin(p.prefix, p.generationID)))
    ensures Grants(h, p, pointBytes, o, now) <==> OffsitePrefix(PathJoin(p.prefix, p.generationID))
  {
    BaseWritten(p.prefix, p.generationID);
    SortSorts(o.protectedRules, RuleKey);
    SortedRulesMatch(o.protectedRules, SortBy(o.protectedRules, RuleKey));
  }

  // ----- the exception is reachable

  const RULE_IDS: seq<string> := ["r1", "r2", "r3", "r4", "r5"]

  function RulesFor(base: string): seq<RetentionRule> {
    seq(|PARTS|, i requires 0 <= i < |PARTS| => RetentionRule(RULE_IDS[i], PartPath(base, PARTS[i])))
  }

  lemma RulesForMatch(base: string)
    ensures RuleIDsFresh(RulesFor(base)) && Prefixes(RulesFor(base)) == ProtectedPaths(base)
  {
    assert forall i :: 0 <= i < 5 ==> RULE_IDS[i] == ['r', DigitChar(i + 1)];
    assert forall i :: 0 <= i < 5 ==> RULE_IDS[i][1] == DigitChar(i + 1);
  }

  ghost predicate YieldsFingerprints(h: string -> string) {
    forall text :: ValidFingerprint(h(text))
  }

  /** An observation with exactly the wanted rules, whose digest is the one the hash gives it. */
  lemma ObservedFor(h: string -> string, generationID: string, base: string) returns (o: RetentionObservation)
    requires YieldsFingerprints(h)
    ensures RuleIDsFresh(o.protectedRules) && Prefixes(o.protectedRules) == ProtectedPaths(base)
    ensures o.mutablePrefixes == MutablePaths(base) && o.generationID == generationID
    ensures ValidFingerprint(o.ruleDigest) && o.ruleDigest == RetentionDigest(h, o)
    ensures o.ruleCount == 0 && o.ruleLimit == 5 && o.retainedGenerations == 0
    ensures o.availableBytes == o.availablePUTs == o.availableLISTs == o.observedAt == 1 && o.indefiniteProtection
  {
    RulesForMatch(base);
    var blank := RetentionObservation(generationID, RulesFor(base), MutablePaths(base), "", 0, 5, 0, 1, 1, 1, true, "x",
                                      1);
    o := blank.(ruleDigest := RetentionDigest(h, blank));
    assert RetentionDigest(h, o) == RetentionDigest(h, blank);
  }

  function SmallPolicy(f: string, prefix: string, generationID: string): OffsitePolicy {
    OffsitePolicy("x", "x", generationID, "x", prefix, "x", f, 1, 1, 1, 1, 5, 1, 1)
  }

  lemma HasRoom(h: string -> string, p: OffsitePolicy, o: RetentionObservation)
    requires OffsitePrefix(p.prefix) && OffsiteToken(p.generationID) && ValidFingerprint(p.parentFingerprint)
    requires p == SmallPolicy(p.parentFingerprint, p.prefix, p.generationID) && o.generationID == p.generationID
    requires ValidFingerprint(o.ruleDigest) && o.ruleDigest == RetentionDigest(h, o)
    requires o.ruleCount == 0 && o.ruleLimit == 5 && o.retainedGenerations == 0
    requires o.availableBytes == o.availablePUTs == o.availableLISTs == o.observedAt == 1 && o.indefiniteProtection
    ensures RoomFor(h, p, 0, o, 1)
  {
  }

  /** Whatever the hash, every valid base is granted to some policy and observation; what is granted is then received
      exactly when the base is short enough and the id does not end in two dots. */
  lemma EveryBaseCanBeGranted(h: string -> string, prefix: string, generationID: string)
      returns (p: OffsitePolicy, o: RetentionObservation)
    requires YieldsFingerprints(h) && OffsitePrefix(prefix) && OffsiteToken(generationID)
    requires OffsitePrefix(PathJoin(prefix, generationID))
    ensures p == SmallPolicy(h(""), prefix, generationID) && Grants(h, p, 0, o, 1)
    ensures RulesValid(generationID, Forecast(p, o).protectedRules) <==>
      |PathJoin(prefix, generationID)| <= 502 && !HasSuffix(generationID, "..")
  {
    p := SmallPolicy(h(""), prefix, generationID);
    o := ObservedFor(h, generationID, PathJoin(prefix, generationID));
    HasRoom(h, p, o);
    GrantsExactly(h, p, 0, o, 1);
    ForecastMeetsReceiptCheck(h, p, 0, o, 1);
  }

  lemma LettersArePrefix(n: nat)
    requires 1 <= n <= 512
    ensures OffsitePrefix(Repeated('p', n)) && !HasSuffix(Repeated('p', n), "..")
  {
    var s := Repeated('p', n);
    assert s[0] != '.' && '/' !in s;
    PlainNameIsPrefix(s);
    EndsInDots(s);
  }

  /** Both exceptions are reachable under every hash: an id that ends in two dots, and a base of 503 bytes. */
  lemma GrantedInVain(h: string -> string, long: bool) returns (p: OffsitePolicy, o: RetentionObservation)
    requires YieldsFingerprints(h)
    ensures Grants(h, p, 0, o, 1) && !RulesValid(p.generationID, Forecast(p, o).protectedRules)
    ensures if long then |PathJoin(p.prefix, p.generationID)| == 503 && !HasSuffix(p.generationID, "..")
            else p.generationID == "a.." && |PathJoin(p.prefix, p.generationID)| <= 502
  {
    if long {
      LongBase();
      p, o := EveryBaseCanBeGranted(h, Repeated('p', 501), "a");
    } else {
      DottedBase();
      p, o := EveryBaseCanBeGranted(h, Repeated('p', 1), "a..");
    }
  }

  lemma LongBase()
    ensures OffsitePrefix(Repeated('p', 501)) && OffsiteToken("a")
    ensures OffsitePrefix(PathJoin(Repeated('p', 501), "a")) && |PathJoin(Repeated('p', 501), "a")| == 503
    ensures !HasSuffix("a", "..")
  {
    LettersArePrefix(501);
    TokenIsPlain("a");
    JoinIsPlain(Repeated('p', 501), "a");
    PrefixExtends(Repeated('p', 501), "a");
  }

  lemma ShortBase()
    ensures OffsitePrefix(Repeated('p', 1)) && OffsiteToken("a") && !HasSuffix("a", "..")
    ensures OffsitePrefix(PathJoin(Repeated('p', 1), "a")) && |PathJoin(Repeated('p', 1), "a")| == 3
  {
    LettersArePrefix(1);
    TokenIsPlain("a");
    JoinIsPlain(Repeated('p', 1), "a");
    PrefixExtends(Repeated('p', 1), "a");
  }

  /** A granted admission with room for one byte in one object, whose rules its receipt accepts. */
  lemma SmallestAdmission(h: string -> string) returns (a: GenerationAdmission)
    requires YieldsFingerprints(h)
    ensures AdmissionValid(a) && |a.prefix| <= 503 && !HasSuffix(a.generationID, "..")
    ensures a.maximumBytes == a.maximumPUTs == 1
  {
    ShortBase();
    var p, o := EveryBaseCanBeGranted(h, Repeated('p', 1), "a");
    a := Forecast(p, o);
  }

  lemma DottedBase()
    ensures OffsitePrefix(Repeated('p', 1)) && OffsiteToken("a..") && HasSuffix("a..", "..")
    ensures OffsitePrefix(PathJoin(Repeated('p', 1), "a..")) && |PathJoin(Repeated('p', 1), "a..")| == 5
  {
    LettersArePrefix(1);
    TokenIsPlain("a..");
    JoinIsPlain(Repeated('p', 1), "a..");
    var base := PathJoin(Repeated('p', 1), "a..");
    assert base == ['p', '/', 'a', '.', '.'];
    assert !ContainsUp(base);
  }
}
