/** What a valid creation manifest and a verified inventory are, field by field. */
module CustodyManifests {
  import opened Text
  import opened Sorting
  import opened InventoryDigests
  import opened CustodyVerify

  /** The header is complete exactly when it is of this schema and version, every identifier is there, every digest is
      one, and it reports a consistent success with a snapshot and no failure. */
  lemma HeaderIsExact(m: Manifest)
    ensures HeaderComplete(m) <==>
      && m.schema == "vegastack-labs.dev/backup-creation-manifest" && m.schemaVersion == "1.2.0"
      && m.policyID != "" && m.pointID != "" && m.runID != "" && m.stepID != "" && m.repositoryID != ""
      && m.sourceID != "" && m.snapshotID != "" && m.keyReferenceID != "" && m.hookID != ""
      && m.repositoryClass in {"standard", "critical"} && ValidFingerprint(m.policyDigest)
      && ValidFingerprint(m.inventoryDigest) && ValidFingerprint(m.dependencyDigest) && ValidFingerprint(m.resticDigest)
      && ValidFingerprint(m.platformDigest) && ValidFingerprint(m.catalogDigest) && ValidFingerprint(m.contentDigest)
      && m.consistencySuccess && m.snapshotCount >= 1 && m.failureCode == "" && m.databaseSchemaVersion >= 1
  {
    IdentifiersAreExact(m);
    DigestsAreExact(m, ValidFingerprint);
  }

  lemma IdentifiersAreExact(m: Manifest)
    ensures All(Identifiers(m), NotEmpty) <==>
      && m.policyID != "" && m.pointID != "" && m.runID != "" && m.stepID != "" && m.repositoryID != ""
      && m.sourceID != "" && m.snapshotID != "" && m.keyReferenceID != "" && m.hookID != ""
  {
    var ids := Identifiers(m);
    assert All(ids, NotEmpty) ==>
      NotEmpty(ids[0]) && NotEmpty(ids[1]) && NotEmpty(ids[2]) && NotEmpty(ids[3]) && NotEmpty(ids[4])
      && NotEmpty(ids[5]) && NotEmpty(ids[6]) && NotEmpty(ids[7]) && NotEmpty(ids[8]);
  }

  lemma DigestsAreExact(m: Manifest, valid: string -> bool)
    ensures All(BoundDigests(m), valid) <==>
      && valid(m.policyDigest) && valid(m.inventoryDigest) && valid(m.dependencyDigest) && valid(m.resticDigest)
      && valid(m.platformDigest) && valid(m.catalogDigest) && valid(m.contentDigest)
  {
    var digests := BoundDigests(m);
    assert All(digests, valid) ==>
      valid(digests[0]) && valid(digests[1]) && valid(digests[2]) && valid(digests[3]) && valid(digests[4])
      && valid(digests[5]) && valid(digests[6]);
  }

  /** An object of a repository: the configuration, or a key, datum, index or snapshot named by its digest. */
  predicate ProperObject(o: ExpectedObject) {
    && 0 <= o.bytes && ValidFingerprint(o.digest)
    && (|| (o.kind == "config" && o.name == "config")
        || ((o.kind == "keys" || o.kind == "data" || o.kind == "index" || o.kind == "snapshots")
            && ValidObjectName(o.name)))
  }

  lemma ObjectIsExact(o: ExpectedObject)
    ensures ObjectShaped(o) <==> ProperObject(o)
  {
  }

  lemma DependencyIsExact(d: ExpectedDependency)
    ensures DependencyShaped(d) <==>
      && d.dependencyID != "" && ValidFingerprint(d.digest)
      && (|| d.kind == "binary" || d.kind == "schema" || d.kind == "config" || d.kind == "image"
          || d.kind == "signature")
  {
  }

  /** The objects pass exactly when each is proper, there is one configuration, at least one key, and one snapshot of
      the manifest's id. */
  lemma ObjectsAreExact(objects: seq<ExpectedObject>, snapshotID: string, shaped: ExpectedObject -> bool)
    ensures ObjectsCounted(objects, snapshotID, shaped) <==>
      && (forall i :: 0 <= i < |objects| ==> shaped(objects[i]))
      && (exists i :: OneConfig(objects, i))
      && (exists i :: 0 <= i < |objects| && objects[i].kind == "keys")
      && (exists i :: OneSnapshot(objects, snapshotID, i))
  {
    CountIsOne(objects, IsConfig);
    CountIsSome(objects, IsKey);
    CountIsOne(objects, IsSnapshot(snapshotID));
    assert forall i :: OnlyAt(objects, IsConfig, i) <==> OneConfig(objects, i);
    assert forall i :: OnlyAt(objects, IsSnapshot(snapshotID), i) <==> OneSnapshot(objects, snapshotID, i);
    assert (exists i :: 0 <= i < |objects| && IsKey(objects[i])) <==>
           (exists i :: 0 <= i < |objects| && objects[i].kind == "keys");
  }

  ghost predicate OneConfig(objects: seq<ExpectedObject>, i: int) {
    && 0 <= i < |objects| && objects[i].kind == "config"
    && forall k :: 0 <= k < |objects| && k != i ==> objects[k].kind != "config"
  }

  ghost predicate OneSnapshot(objects: seq<ExpectedObject>, id: string, i: int) {
    && 0 <= i < |objects| && objects[i].kind == "snapshots" && objects[i].name == id
    && forall k :: 0 <= k < |objects| && k != i ==> objects[k].kind != "snapshots" || objects[k].name != id
  }

  /** A manifest is valid exactly when its header is complete, its objects pass, are as many as it says and sum to its
      bytes modulo 2^64, both its digests are those of what it lists, and it names its selectors and its dependencies,
      no dependency twice. */
  lemma ManifestIsExact(h: Hash, m: Manifest)
    ensures ManifestValid(h, m) <==>
      && HeaderComplete(m) && ObjectsCounted(m.objects, m.snapshotID, ObjectShaped) && m.objectCount == |m.objects|
      && (Total(m.objects) - m.objectBytes) % TWO_64 == 0
      && m.inventoryDigest == h(INVENTORY_DOMAIN + ObjectsText(SortBy(m.objects, ObjectKey)))
      && m.sourceSelectors != [] && "" !in m.sourceSelectors && m.dependencies.Some?
      && m.dependencyDigest == h(DependencyText(SortBy(m.dependencies.value, DependencyKey)))
      && DependenciesListed(m.dependencies.value, DependencyShaped)
  {
    CongruentExactly(Total(m.objects), m.objectBytes);
    SelectorsAreNamed(m.sourceSelectors);
    if ObjectsCounted(m.objects, m.snapshotID, ObjectShaped) {
      CountIsSome(m.objects, IsKey);
    }
  }

  lemma SelectorsAreNamed(selectors: seq<string>)
    ensures All(selectors, NotEmpty) <==> "" !in selectors
  {
    assert forall i :: 0 <= i < |selectors| ==> (NotEmpty(selectors[i]) <==> selectors[i] != "");
  }

  lemma CongruentExactly(total: int, bytes: Int64)
    ensures bytes == Wrap(total) <==> (total - bytes) % TWO_64 == 0
  {
    var k := (total + TWO_63) / TWO_64;
    assert Wrap(total) == total - k * TWO_64;
    if (total - bytes) % TWO_64 == 0 {
      var j := (total - bytes) / TWO_64;
      assert total - bytes == j * TWO_64;
    }
  }

  lemma DependenciesAreExact(dependencies: seq<ExpectedDependency>, shaped: ExpectedDependency -> bool)
    ensures DependenciesListed(dependencies, shaped) <==>
      && (forall d :: d in dependencies ==> shaped(d))
      && DistinctKeys(dependencies, (d: ExpectedDependency) => Key(d.dependencyID, ""))
  {
    assert forall i :: 0 <= i < |dependencies| ==> dependencies[i] in dependencies;
  }

  /** Verification succeeds exactly when the manifest is valid, the digest given is that of its JSON, and what was
      observed is its objects in some order. */
  lemma VerifiedExactly(h: Hash, json: Marshal, m: Manifest, digest: string, observed: seq<ExpectedObject>)
    requires DistinctKeys(m.objects, ObjectKey)
    ensures Verifies(h, json, m, digest, observed) <==>
      ManifestValid(h, m) && digest == h(json(m)) && multiset(observed) == multiset(m.objects)
  {
    if ManifestValid(h, m) && digest == h(json(m)) {
      VerifiedIsPermutation(h, json, m, observed);
    }
  }

  /** The successor form succeeds exactly when the manifest is valid and its own, its inventory digest is the original
      one, and the expected list, not empty, has the successor digest and was observed in some order. */
  lemma SuccessorExactly(h: Hash, json: Marshal, m: Manifest, digest: string, original: string, successor: string,
                         expected: seq<ExpectedObject>, observed: seq<ExpectedObject>)
    requires DistinctPaths(expected) && ZERO !in expected
    ensures VerifiesSuccessor(h, json, m, digest, original, successor, expected, observed) <==>
      && ManifestValid(h, m) && digest == h(json(m)) && m.inventoryDigest == original && expected != []
      && successor == h(INVENTORY_DOMAIN + ObjectsText(SortBy(expected, ObjectKey)))
      && multiset(observed) == multiset(expected)
  {
    SuccessorIsPermutation(h, json, m, digest, original, successor, expected, observed);
  }
}
