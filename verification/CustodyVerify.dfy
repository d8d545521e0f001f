/** Checking an observed repository inventory against a creation manifest, record by record. */
module CustodyVerify {
  import opened Text
  import opened Sorting
  import opened InventoryDigests

  /** The creation manifest. `unchecked` holds the fields that only its JSON carries, and a missing dependency list
      differs from an empty one. */
  datatype Manifest = Manifest(
    schema: string, schemaVersion: string, policyID: string, policyDigest: string, pointID: string, runID: string,
    stepID: string, repositoryID: string, repositoryClass: string, sourceID: string, sourceSelectors: seq<string>,
    recoveryEpoch: int, databaseSchemaVersion: nat, catalogDigest: string, contentDigest: string, hookID: string,
    consistencySuccess: bool, snapshotID: string, snapshotCount: int, objectCount: int, objectBytes: Int64,
    inventoryDigest: string, objects: seq<ExpectedObject>, dependencyDigest: string,
    dependencies: Option<seq<ExpectedDependency>>, keyReferenceID: string, resticDigest: string, platformDigest: string,
    failureCode: string, unchecked: seq<string>)

  datatype InventoryProof = InventoryProof(
    pointID: string, snapshotID: string, manifestDigest: string, inventoryDigest: string,
    originalInventoryDigest: string, observedDigest: string, recoveryEpoch: int)

  type Hash = string -> string

  function InventoryDigest(h: Hash, objects: seq<ExpectedObject>): string {
    h(INVENTORY_DOMAIN + ObjectsText(SortBy(objects, ObjectKey)))
  }

  function DependencyDigest(h: Hash, dependencies: seq<ExpectedDependency>): string {
    h(DependencyText(SortBy(dependencies, DependencyKey)))
  }

  /** The manifest's JSON text. */
  type Marshal = Manifest -> string

  // ----- the manifest's bindings

  function Identifiers(m: Manifest): seq<string> {
    [m.policyID, m.pointID, m.runID, m.stepID, m.repositoryID, m.sourceID, m.snapshotID, m.keyReferenceID, m.hookID]
  }

  function BoundDigests(m: Manifest): seq<string> {
    [m.policyDigest, m.inventoryDigest, m.dependencyDigest, m.resticDigest, m.platformDigest, m.catalogDigest,
     m.contentDigest]
  }

  predicate All<T>(s: seq<T>, p: T -> bool) {
    forall i :: 0 <= i < |s| ==> p(s[i])
  }

  predicate NotEmpty(s: string) { s != "" }

  predicate HeaderComplete(m: Manifest) {
    && m.schema == "vegastack-labs.dev/backup-creation-manifest" && m.schemaVersion == "1.2.0"
    && All(Identifiers(m), NotEmpty) && (m.repositoryClass == "standard" || m.repositoryClass == "critical")
    && All(BoundDigests(m), ValidFingerprint)
    && m.consistencySuccess && m.snapshotCount >= 1 && m.failureCode == "" && m.databaseSchemaVersion != 0
  }

  method CheckAll<T>(s: seq<T>, p: T -> bool) returns (ok: bool)
    ensures ok == All(s, p)
  {
    for i := 0 to |s|
      invariant forall k :: 0 <= k < i ==> p(s[k])
    {
      if !p(s[i]) {
        return false;
      }
    }
    ok := true;
  }

  const DEPENDENCY_KINDS: set<string> := {"binary", "schema", "config", "image", "signature"}

  predicate DependencyShaped(d: ExpectedDependency) {
    d.dependencyID != "" && ValidFingerprint(d.digest) && d.kind in DEPENDENCY_KINDS
  }

  /** Well-shaped dependencies, no identifier twice. */
  predicate DependenciesListed(dependencies: seq<ExpectedDependency>, shaped: ExpectedDependency -> bool) {
    && All(dependencies, shaped)
    && forall i, j :: 0 <= i < j < |dependencies| ==> dependencies[i].dependencyID != dependencies[j].dependencyID
  }

  method CheckDependencies(dependencies: seq<ExpectedDependency>, shaped: ExpectedDependency -> bool) returns (ok: bool)
    ensures ok == DependenciesListed(dependencies, shaped)
  {
    var seen: set<string> := {};
    for i := 0 to |dependencies|
      invariant seen == set k | 0 <= k < i :: dependencies[k].dependencyID
      invariant DependenciesListed(dependencies[..i], shaped)
    {
      if !shaped(dependencies[i]) || dependencies[i].dependencyID in seen {
        return false;
      }
      seen := seen + {dependencies[i].dependencyID};
    }
    assert dependencies[..|dependencies|] == dependencies;
    ok := true;
  }

  predicate DependenciesBound(h: Hash, m: Manifest) {
    && m.sourceSelectors != [] && All(m.sourceSelectors, NotEmpty)
    && m.dependencies.Some? && m.dependencyDigest == DependencyDigest(h, m.dependencies.value)
    && DependenciesListed(m.dependencies.value, DependencyShaped)
  }

  // ----- the manifest's own objects

  const OBJECT_TYPES: set<string> := {"config", "keys", "data", "index", "snapshots"}

  predicate ObjectShaped(o: ExpectedObject) {
    && o.kind in OBJECT_TYPES && o.name != "" && o.bytes >= 0 && ValidFingerprint(o.digest)
    && (if o.kind == "config" then o.name == "config" else ValidObjectName(o.name))
  }

  function Total(objects: seq<ExpectedObject>): int {
    if objects == [] then 0 else Total(objects[..|objects| - 1]) + objects[|objects| - 1].bytes
  }

  lemma WrapAgain(a: int, b: int)
    ensures Wrap(Wrap(a) + b) == Wrap(a + b)
  {
    var k := (a + TWO_63) / TWO_64;
    assert Wrap(a) == a - k * TWO_64;
    assert (a + b + TWO_63 - k * TWO_64) % TWO_64 == (a + b + TWO_63) % TWO_64;
  }

  predicate IsConfig(o: ExpectedObject) { o.kind == "config" }

  predicate IsKey(o: ExpectedObject) { o.kind == "keys" }

  function IsSnapshot(id: string): ExpectedObject -> bool {
    (o: ExpectedObject) => o.kind == "snapshots" && o.name == id
  }

  predicate ObjectsCounted(objects: seq<ExpectedObject>, snapshotID: string, shaped: ExpectedObject -> bool) {
    && All(objects, shaped) && CountIf(objects, IsConfig) == 1 && CountIf(objects, IsKey) >= 1
    && CountIf(objects, IsSnapshot(snapshotID)) == 1
  }

  predicate ManifestValid(h: Hash, m: Manifest) {
    && HeaderComplete(m) && ObjectsCounted(m.objects, m.snapshotID, ObjectShaped)
    && m.objectCount == |m.objects| > 0 && m.objectBytes == Wrap(Total(m.objects))
    && m.inventoryDigest == InventoryDigest(h, m.objects) && DependenciesBound(h, m)
  }

  /** The object loop: shape, counters and the running total, which nothing keeps from wrapping around. */
  method CountObjects(objects: seq<ExpectedObject>, snapshotID: string, shaped: ExpectedObject -> bool)
      returns (ok: bool, total: Int64)
    ensures ok == ObjectsCounted(objects, snapshotID, shaped)
    ensures ok ==> total == Wrap(Total(objects))
  {
    total := 0;
    var configCount, keyCount, snapshotCount := 0, 0, 0;
    for i := 0 to |objects|
      invariant forall k :: 0 <= k < i ==> shaped(objects[k])
      invariant total == Wrap(Total(objects[..i]))
      invariant configCount == CountIf(objects[..i], IsConfig) && keyCount == CountIf(objects[..i], IsKey)
      invariant snapshotCount == CountIf(objects[..i], IsSnapshot(snapshotID))
    {
      var o := objects[i];
      if !shaped(o) {
        return false, 0;
      }
      assert objects[..i + 1][..i] == objects[..i];
      if o.kind == "config" {
        configCount := configCount + 1;
      }
      if o.kind == "keys" {
        keyCount := keyCount + 1;
      }
      if o.kind == "snapshots" && o.name == snapshotID {
        snapshotCount := snapshotCount + 1;
      }
      WrapAgain(Total(objects[..i]), o.bytes);
      total := Wrap(total + o.bytes);
    }
    assert objects[..|objects|] == objects;
    ok := configCount == 1 && keyCount >= 1 && snapshotCount == 1;
  }

  method CheckHeader(m: Manifest) returns (ok: bool)
    ensures ok == HeaderComplete(m)
  {
    if m.schema != "vegastack-labs.dev/backup-creation-manifest" || m.schemaVersion != "1.2.0" {
      return false;
    }
    ok := CheckAll(Identifiers(m), NotEmpty);
    if !ok || (m.repositoryClass != "standard" && m.repositoryClass != "critical") {
      return false;
    }
    ok := CheckAll(BoundDigests(m), ValidFingerprint);
    if !m.consistencySuccess || m.snapshotCount < 1 || m.failureCode != "" || m.databaseSchemaVersion == 0 {
      return false;
    }
  }

  method CanonicalCreationManifest(h: Hash, json: Marshal, m: Manifest) returns (digest: Option<string>)
    ensures digest == if ManifestValid(h, m) then Some(h(json(m))) else None
  {
    var ok := CheckHeader(m);
    if !ok {
      return None;
    }
    var counted, total := CountObjects(m.objects, m.snapshotID, ObjectShaped);
    if !counted || m.objectCount != |m.objects| || |m.objects| == 0 || m.objectBytes != total
       || m.inventoryDigest != InventoryDigest(h, m.objects) {
      return None;
    }
    if |m.sourceSelectors| == 0 || m.dependencies.None?
       || m.dependencyDigest != DependencyDigest(h, m.dependencies.value) {
      return None;
    }
    ok := CheckAll(m.sourceSelectors, NotEmpty);
    if ok {
      ok := CheckDependencies(m.dependencies.value, DependencyShaped);
    }
    digest := if ok then Some(h(json(m))) else None;
  }

  // ----- the record-by-record comparison

  function PathKey(o: ExpectedObject): string {
    o.kind + "/" + o.name
  }

  /** Go's zero value, which a lookup of a missing key returns. */
  const ZERO := ExpectedObject("", "", 0, "")

  /** The last observed object with this key, or the zero object. */
  function Lookup(observed: seq<ExpectedObject>, key: string): ExpectedObject {
    if observed == [] then ZERO
    else if PathKey(observed[|observed| - 1]) == key then observed[|observed| - 1]
    else Lookup(observed[..|observed| - 1], key)
  }

  predicate AllFound(expected: seq<ExpectedObject>, observed: seq<ExpectedObject>) {
    forall i :: 0 <= i < |expected| ==> Lookup(observed, PathKey(expected[i])) == expected[i]
  }

  method Compare(expected: seq<ExpectedObject>, observed: seq<ExpectedObject>) returns (ok: bool)
    ensures ok == AllFound(expected, observed)
  {
    var byKey: map<string, ExpectedObject> := map[];
    for i := 0 to |observed|
      invariant forall key :: (if key in byKey then byKey[key] else ZERO) == Lookup(observed[..i], key)
    {
      assert observed[..i + 1][..i] == observed[..i];
      byKey := byKey[PathKey(observed[i]) := observed[i]];
    }
    assert observed[..|observed|] == observed;
    for i := 0 to |expected|
      invariant forall k :: 0 <= k < i ==> Lookup(observed, PathKey(expected[k])) == expected[k]
    {
      var key := PathKey(expected[i]);
      if (if key in byKey then byKey[key] else ZERO) != expected[i] {
        return false;
      }
    }
    ok := true;
  }

  predicate Verifies(h: Hash, json: Marshal, m: Manifest, manifestDigest: string, observed: seq<ExpectedObject>) {
    && ManifestValid(h, m) && manifestDigest == h(json(m))
    && |observed| == |m.objects| && InventoryDigest(h, observed) == m.inventoryDigest && AllFound(m.objects, observed)
  }

  method VerifyCustodyInventory(h: Hash, json: Marshal, m: Manifest, manifestDigest: string,
                                observed: seq<ExpectedObject>)
      returns (proof: Option<InventoryProof>)
    ensures proof.Some? <==> Verifies(h, json, m, manifestDigest, observed)
    ensures proof.Some? ==>
      && proof.value.pointID == m.pointID && proof.value.snapshotID == m.snapshotID
      && proof.value.manifestDigest == manifestDigest && proof.value.originalInventoryDigest == ""
      && proof.value.inventoryDigest == proof.value.observedDigest == m.inventoryDigest
      && proof.value.recoveryEpoch == m.recoveryEpoch
  {
    var canonical := CanonicalCreationManifest(h, json, m);
    if canonical != Some(manifestDigest) || |observed| != |m.objects|
       || InventoryDigest(h, observed) != m.inventoryDigest {
      return None;
    }
    var ok := Compare(m.objects, observed);
    if !ok {
      return None;
    }
    proof := Some(InventoryProof(m.pointID, m.snapshotID, manifestDigest, m.inventoryDigest, "",
                                 InventoryDigest(h, observed), m.recoveryEpoch));
  }

  /** Everything the successor form asks before it looks at what was observed. */
  predicate SuccessorChecks(h: Hash, json: Marshal, m: Manifest, manifestDigest: string, original: string,
                            successor: string, expected: seq<ExpectedObject>) {
    && ManifestValid(h, m) && manifestDigest == h(json(m)) && m.inventoryDigest == original
    && |expected| > 0 && InventoryDigest(h, expected) == successor
  }

  predicate VerifiesSuccessor(h: Hash, json: Marshal, m: Manifest, manifestDigest: string, original: string,
                              successor: string, expected: seq<ExpectedObject>, observed: seq<ExpectedObject>) {
    && SuccessorChecks(h, json, m, manifestDigest, original, successor, expected)
    && |observed| == |expected| && InventoryDigest(h, observed) == successor && AllFound(expected, observed)
  }

  method VerifySuccessorCustodyInventory(h: Hash, json: Marshal, m: Manifest, manifestDigest: string, original: string,
                                         successor: string, expected: seq<ExpectedObject>,
                                         observed: seq<ExpectedObject>)
      returns (proof: Option<InventoryProof>)
    ensures proof.Some? <==> VerifiesSuccessor(h, json, m, manifestDigest, original, successor, expected, observed)
    ensures proof.Some? ==>
      && proof.value.pointID == m.pointID && proof.value.snapshotID == m.snapshotID
      && proof.value.manifestDigest == manifestDigest && proof.value.originalInventoryDigest == original
      && proof.value.inventoryDigest == proof.value.observedDigest == successor
      && proof.value.recoveryEpoch == m.recoveryEpoch
  {
    var canonical := CanonicalCreationManifest(h, json, m);
    if canonical != Some(manifestDigest) || m.inventoryDigest != original || |expected| == 0 || |observed| != |expected|
       || InventoryDigest(h, expected) != successor || InventoryDigest(h, observed) != successor {
      return None;
    }
    var ok := Compare(expected, observed);
    if !ok {
      return None;
    }
    proof := Some(InventoryProof(m.pointID, m.snapshotID, manifestDigest, successor, original, successor,
                                 m.recoveryEpoch));
  }

  // ----- what a successful comparison proves, by counting

  lemma {:induction false} LookupFinds(observed: seq<ExpectedObject>, key: string)
    ensures Lookup(observed, key) == ZERO || Lookup(observed, key) in observed
  {
    if observed != [] {
      LookupFinds(observed[..|observed| - 1], key);
    }
  }

  lemma {:induction false} LookupExact(observed: seq<ExpectedObject>, i: nat)
    requires i < |observed| && forall k :: i < k < |observed| ==> PathKey(observed[k]) != PathKey(observed[i])
    ensures Lookup(observed, PathKey(observed[i])) == observed[i]
  {
    if i < |observed| - 1 {
      LookupExact(observed[..|observed| - 1], i);
    }
  }

  /** A list without repetition, all of whose elements occur in a list of the same length, is a permutation of it. */
  lemma Pigeonhole<T>(a: seq<T>, b: seq<T>)
    requires |a| == |b| && (forall i, j :: 0 <= i < j < |a| ==> a[i] != a[j])
    requires (forall i :: 0 <= i < |a| ==> a[i] in b)
    ensures multiset(a) == multiset(b)
  {
    forall x ensures multiset(a)[x] <= multiset(b)[x] {
      if x in a {
        var i :| 0 <= i < |a| && a[i] == x;
        assert a == a[..i] + [x] + a[i + 1..];
        assert x !in a[..i] && x !in a[i + 1..];
        assert x in multiset(b);
      }
    }
    SubsetOfSameSize(multiset(a), multiset(b));
  }

  lemma SubsetOfSameSize<T>(a: multiset<T>, b: multiset<T>)
    requires a <= b && |a| == |b|
    ensures a == b
  {
    assert b == a + (b - a);
  }

  lemma {:induction false} SlashFree(kind: string)
    requires kind in OBJECT_TYPES
    ensures '/' !in kind
  {
  }

  /** Among well-shaped objects the joined key tells type and name apart. */
  lemma PathKeyInjective(a: ExpectedObject, b: ExpectedObject)
    requires ObjectShaped(a) && ObjectShaped(b) && PathKey(a) == PathKey(b)
    ensures ObjectKey(a) == ObjectKey(b)
  {
    SlashFree(a.kind);
    SlashFree(b.kind);
    assert PathKey(a) == a.kind + ['/'] + a.name && PathKey(b) == b.kind + ['/'] + b.name;
    SplitAtSeparator(a.kind, a.name, '/');
    SplitAtSeparator(b.kind, b.name, '/');
    assert a.kind == SplitOn(PathKey(a), '/')[0] == b.kind;
    assert a.name == PathKey(a)[|a.kind| + 1..] == b.name;
  }

  predicate DistinctPaths(objects: seq<ExpectedObject>) {
    forall i, j :: 0 <= i < j < |objects| ==> PathKey(objects[i]) != PathKey(objects[j])
  }

  function PathOrder(o: ExpectedObject): Key { Key(PathKey(o), "") }

  /** Every expected object other than the zero object is found where it was observed. */
  lemma FoundIsPermutation(expected: seq<ExpectedObject>, observed: seq<ExpectedObject>)
    requires DistinctPaths(expected) && ZERO !in expected && |observed| == |expected| && AllFound(expected, observed)
    ensures multiset(observed) == multiset(expected)
  {
    forall i | 0 <= i < |expected| ensures expected[i] in observed {
      LookupFinds(observed, PathKey(expected[i]));
    }
    Pigeonhole(expected, observed);
  }

  /** A permutation is found, and has the same digest. */
  lemma PermutationIsFound(h: Hash, expected: seq<ExpectedObject>, observed: seq<ExpectedObject>)
    requires DistinctPaths(expected) && multiset(observed) == multiset(expected)
    ensures |observed| == |expected| && AllFound(expected, observed)
    ensures InventoryDigest(h, observed) == InventoryDigest(h, expected)
  {
    assert |observed| == |multiset(observed)| == |multiset(expected)| == |expected|;
    assert DistinctKeys(expected, PathOrder);
    DistinctKeysPermute(expected, observed, PathOrder);
    SameElements(expected, observed);
    forall i | 0 <= i < |expected| ensures Lookup(observed, PathKey(expected[i])) == expected[i] {
      assert expected[i] in observed;
      var k :| 0 <= k < |observed| && observed[k] == expected[i];
      assert forall n :: k < n < |observed| ==> PathOrder(observed[n]) != PathOrder(observed[k]);
      LookupExact(observed, k);
    }
    PathsIdentify(expected);
    SortSorts(expected, ObjectKey);
    SortSorts(observed, ObjectKey);
    SameSortIffPermutation(expected, observed, SortBy(expected, ObjectKey), SortBy(observed, ObjectKey), ObjectKey);
  }

  lemma PathsIdentify(objects: seq<ExpectedObject>)
    requires DistinctPaths(objects)
    ensures KeysIdentify(objects, ObjectKey)
  {
    forall x, y | x in objects && y in objects && ObjectKey(x) == ObjectKey(y) ensures x == y {
      var i :| 0 <= i < |objects| && objects[i] == x;
      var j :| 0 <= j < |objects| && objects[j] == y;
      assert PathKey(x) == PathKey(y);
    }
  }

  lemma ShapedPathsAreDistinct(objects: seq<ExpectedObject>)
    requires All(objects, ObjectShaped) && DistinctKeys(objects, ObjectKey)
    ensures DistinctPaths(objects) && ZERO !in objects
  {
    forall i, j | 0 <= i < j < |objects| ensures PathKey(objects[i]) != PathKey(objects[j]) {
      assert ObjectShaped(objects[i]) && ObjectShaped(objects[j]);
      if PathKey(objects[i]) == PathKey(objects[j]) {
        PathKeyInjective(objects[i], objects[j]);
      }
    }
    assert !ObjectShaped(ZERO);
  }

  /** For a valid manifest with distinct (type, name) pairs, verification succeeds exactly on the permutations of its
      objects; the forward direction needs nothing of the hash. */
  lemma VerifiedIsPermutation(h: Hash, json: Marshal, m: Manifest, observed: seq<ExpectedObject>)
    requires ManifestValid(h, m) && DistinctKeys(m.objects, ObjectKey)
    ensures Verifies(h, json, m, h(json(m)), observed) <==> multiset(observed) == multiset(m.objects)
  {
    ShapedPathsAreDistinct(m.objects);
    if Verifies(h, json, m, h(json(m)), observed) {
      FoundIsPermutation(m.objects, observed);
    }
    if multiset(observed) == multiset(m.objects) {
      PermutationIsFound(h, m.objects, observed);
    }
  }

  /** The successor form reads its expected list from outside the manifest. With the zero object not expected, it too
      accepts exactly the permutations, whatever the hash. */
  lemma SuccessorIsPermutation(h: Hash, json: Marshal, m: Manifest, digest: string, original: string, successor: string,
                               expected: seq<ExpectedObject>, observed: seq<ExpectedObject>)
    requires DistinctPaths(expected) && ZERO !in expected
    ensures VerifiesSuccessor(h, json, m, digest, original, successor, expected, observed) <==>
      SuccessorChecks(h, json, m, digest, original, successor, expected) && multiset(observed) == multiset(expected)
  {
    if VerifiesSuccessor(h, json, m, digest, original, successor, expected, observed) {
      FoundIsPermutation(expected, observed);
    }
    if multiset(observed) == multiset(expected) {
      PermutationIsFound(h, expected, observed);
    }
  }

  function InventoryText(objects: seq<ExpectedObject>): string {
    INVENTORY_DOMAIN + ObjectsText(SortBy(objects, ObjectKey))
  }

  /** With the zero object expected, the same holds of every hash that tells the texts of the two lists apart. */
  lemma SuccessorIsPermutationByDigest(h: Hash, json: Marshal, m: Manifest, digest: string, original: string,
                                       successor: string, expected: seq<ExpectedObject>, observed: seq<ExpectedObject>)
    requires DistinctPaths(expected) && PlainObjects(expected) && PlainObjects(observed)
    requires h(InventoryText(observed)) == h(InventoryText(expected)) ==>
      InventoryText(observed) == InventoryText(expected)
    ensures VerifiesSuccessor(h, json, m, digest, original, successor, expected, observed) <==>
      SuccessorChecks(h, json, m, digest, original, successor, expected) && multiset(observed) == multiset(expected)
  {
    if VerifiesSuccessor(h, json, m, digest, original, successor, expected, observed) {
      PathsIdentify(expected);
      SortSorts(expected, ObjectKey);
      SortSorts(observed, ObjectKey);
      InventoryTextIsExact(expected, observed, SortBy(expected, ObjectKey), SortBy(observed, ObjectKey));
    }
    if multiset(observed) == multiset(expected) {
      PermutationIsFound(h, expected, observed);
    }
  }

  function LongestKey(objects: seq<ExpectedObject>): (n: nat)
    ensures forall i :: 0 <= i < |objects| ==> |PathKey(objects[i])| <= n
  {
    if objects == [] then 0
    else
      var rest := LongestKey(objects[1..]);
      if |PathKey(objects[0])| > rest then |PathKey(objects[0])| else rest
  }

  /** Conversely, with the zero object expected, some observation without it passes the comparison: whatever the other
      objects are, replace the zero object by one nobody expects. */
  lemma ZeroObjectNeedNotBeObserved(expected: seq<ExpectedObject>) returns (observed: seq<ExpectedObject>)
    requires ZERO in expected && DistinctPaths(expected)
    ensures |observed| == |expected| && AllFound(expected, observed) && multiset(observed) != multiset(expected)
  {
    var z :| 0 <= z < |expected| && expected[z] == ZERO;
    var stranger := ExpectedObject(Repeated('x', LongestKey(expected)), "", 0, "");
    assert |PathKey(stranger)| > LongestKey(expected);
    observed := expected[z := stranger];
    assert ZERO !in observed;
    assert ZERO in multiset(expected) && ZERO !in multiset(observed);
    forall i | 0 <= i < |expected| ensures Lookup(observed, PathKey(expected[i])) == expected[i] {
      if i == z {
        LookupMisses(observed, PathKey(ZERO));
      } else {
        LookupExact(observed, i);
      }
    }
  }

  lemma {:induction false} LookupMisses(observed: seq<ExpectedObject>, key: string)
    requires forall k :: 0 <= k < |observed| ==> PathKey(observed[k]) != key
    ensures Lookup(observed, key) == ZERO
  {
    if observed != [] {
      LookupMisses(observed[..|observed| - 1], key);
    }
  }

  /** Whatever the hash, manifest and observation, only a permutation is accepted. */
  ghost predicate AcceptsOnlyPermutations(expected: seq<ExpectedObject>) {
    forall h: Hash, json: Marshal, m, digest, original, successor, observed ::
      VerifiesSuccessor(h, json, m, digest, original, successor, expected, observed) ==>
        multiset(observed) == multiset(expected)
  }

  /** The comparison pins the observed list by itself, without help from the hash, exactly when the zero object is not
      expected. */
  lemma SuccessorNeedsNonZero(expected: seq<ExpectedObject>)
    requires expected != [] && DistinctPaths(expected)
    ensures AcceptsOnlyPermutations(expected) <==> ZERO !in expected
  {
    if ZERO in expected {
      var observed := ZeroObjectNeedNotBeObserved(expected);
      var f := "sha256:" + Repeated('0', 64);
      var h: Hash, json: Marshal := _ => f, _ => "";
      var m := SampleManifest(h, f);
      assert VerifiesSuccessor(h, json, m, f, f, f, expected, observed);
    } else {
      forall h: Hash, json: Marshal, m, digest, original, successor, observed |
        VerifiesSuccessor(h, json, m, digest, original, successor, expected, observed)
        ensures multiset(observed) == multiset(expected)
      {
        SuccessorIsPermutation(h, json, m, digest, original, successor, expected, observed);
      }
    }
  }

  /** A valid manifest of three objects, for a hash that knows only one digest. */
  lemma SampleManifest(h: Hash, f: string) returns (m: Manifest)
    requires f == "sha256:" + Repeated('0', 64) && forall text :: h(text) == f
    ensures ManifestValid(h, m) && m.inventoryDigest == f
  {
    var n := Repeated('0', 64);
    var objects := [ExpectedObject("config", "config", 0, f), ExpectedObject("keys", n, 0, f),
                    ExpectedObject("snapshots", n, 0, f)];
    m := SampleOf(n, f, objects);
    SampleObjects(n, f, objects);
    SampleHeader(n, f, objects);
  }

  function SampleOf(n: string, f: string, objects: seq<ExpectedObject>): Manifest {
    Manifest("vegastack-labs.dev/backup-creation-manifest", "1.2.0", "x", f, "x", "x", "x", "x", "standard", "x", ["x"],
             0, 1, f, f, "x", true, n, 1, 3, 0, f, objects, f, Some([]), "x", f, f, "", [])
  }

  lemma SampleHeader(n: string, f: string, objects: seq<ExpectedObject>)
    requires n != "" && ValidFingerprint(f)
    ensures HeaderComplete(SampleOf(n, f, objects))
  {
    var m := SampleOf(n, f, objects);
    assert forall i :: 0 <= i < |Identifiers(m)| ==> Identifiers(m)[i] in ["x", n];
    assert forall i :: 0 <= i < |BoundDigests(m)| ==> BoundDigests(m)[i] == f;
  }

  lemma SampleObjects(n: string, f: string, objects: seq<ExpectedObject>)
    requires n == Repeated('0', 64) && f == "sha256:" + n
    requires objects ==
      [ExpectedObject("config", "config", 0, f), ExpectedObject("keys", n, 0, f), ExpectedObject("snapshots", n, 0, f)]
    ensures ObjectsCounted(objects, n, ObjectShaped) && Total(objects) == 0
    ensures ValidFingerprint(f)
  {
    assert f[..7] == "sha256:" && forall i :: 7 <= i < 71 ==> f[i] == '0';
    CountThree(objects, IsConfig);
    CountThree(objects, IsKey);
    CountThree(objects, IsSnapshot(n));
    TotalThree(objects);
  }

  lemma CountThree<T>(s: seq<T>, p: T -> bool)
    requires |s| == 3
    ensures CountIf(s, p) == (if p(s[0]) then 1 else 0) + (if p(s[1]) then 1 else 0) + (if p(s[2]) then 1 else 0)
  {
    var two := s[..2];
    var one := two[..1];
    assert one[..0] == [];
    assert CountIf(one, p) == if p(s[0]) then 1 else 0;
    assert CountIf(two, p) == CountIf(one, p) + if p(s[1]) then 1 else 0;
  }

  lemma TotalThree(s: seq<ExpectedObject>)
    requires |s| == 3
    ensures Total(s) == s[0].bytes + s[1].bytes + s[2].bytes
  {
    var two := s[..2];
    var one := two[..1];
    assert one[..0] == [];
    assert Total(one) == s[0].bytes;
    assert Total(two) == Total(one) + s[1].bytes;
  }
}
