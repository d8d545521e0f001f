/** The byte strings behind the inventory, dependency, retention and object digests. */
module InventoryDigests {
  import opened Text
  import opened Sorting

  const TWO_63: int := 0x8000_0000_0000_0000
  const TWO_64: int := 0x1_0000_0000_0000_0000

  type Int64 = value: int | -TWO_63 <= value < TWO_63

  /** Two's complement truncation to 64 bits. */
  function Wrap(value: int): Int64 {
    (value + TWO_63) % TWO_64 - TWO_63
  }

  datatype ExpectedObject = ExpectedObject(kind: string, name: string, bytes: Int64, digest: string)

  datatype ExpectedDependency = ExpectedDependency(dependencyID: string, kind: string, digest: string)

  datatype OffsiteObject = OffsiteObject(key: string, digest: string, bytes: Int64)

  datatype RetentionRule = RetentionRule(ruleID: string, prefix: string)

  datatype RetentionObservation = RetentionObservation(
    generationID: string, protectedRules: seq<RetentionRule>, mutablePrefixes: seq<string>, ruleDigest: string,
    ruleCount: int, ruleLimit: int, retainedGenerations: int, availableBytes: int, availablePUTs: int,
    availableLISTs: int, indefiniteProtection: bool, proofClass: string, observedAt: int)

  // ----- a 64-bit integer as eight bytes, most significant first

  function BigEndian(unsigned: nat, width: nat): (s: string)
    ensures |s| == width
  {
    if width == 0 then "" else BigEndian(unsigned / 256, width - 1) + [(unsigned % 256) as char]
  }

  function Pow256(n: nat): nat {
    if n == 0 then 1 else 256 * Pow256(n - 1)
  }

  lemma {:induction false} BigEndianInjective(a: nat, b: nat, width: nat)
    requires a < Pow256(width) && b < Pow256(width) && BigEndian(a, width) == BigEndian(b, width)
    ensures a == b
  {
    if width > 0 {
      var x, y := BigEndian(a, width), BigEndian(b, width);
      assert x[..width - 1] == BigEndian(a / 256, width - 1) && y[..width - 1] == BigEndian(b / 256, width - 1);
      assert x[width - 1] == y[width - 1];
      BigEndianInjective(a / 256, b / 256, width - 1);
    }
  }

  function Unsigned(value: Int64): nat {
    if value < 0 then value + TWO_64 else value
  }

  function Int64Text(value: Int64): string {
    BigEndian(Unsigned(value), 8)
  }

  method Int64Bytes(value: Int64) returns (bytes: string)
    ensures bytes == Int64Text(value)
  {
    var buffer := new char[8];
    var unsigned := Unsigned(value);
    var index := 7;
    while index >= 0
      invariant -1 <= index <= 7
      invariant BigEndian(Unsigned(value), 8) == BigEndian(unsigned, index + 1) + buffer[index + 1..]
    {
      buffer[index] := (unsigned % 256) as char;
      unsigned := unsigned / 256;
      index := index - 1;
    }
    bytes := buffer[..];
  }

  lemma Int64TextInjective(a: Int64, b: Int64)
    requires Int64Text(a) == Int64Text(b)
    ensures a == b
  {
    assert Pow256(4) == 0x1_0000_0000;
    assert Pow256(8) == TWO_64;
    BigEndianInjective(Unsigned(a), Unsigned(b), 8);
  }

  // ----- the expected inventory

  function ObjectKey(o: ExpectedObject): Key { Key(o.kind, o.name) }

  predicate PlainObject(o: ExpectedObject) {
    NoNul(o.kind) && NoNul(o.name) && NoNul(o.digest)
  }

  predicate PlainObjects(objects: seq<ExpectedObject>) {
    forall o :: o in objects ==> PlainObject(o)
  }

  const INVENTORY_DOMAIN := "backup-expected-inventory-v1"

  function ObjectText(o: ExpectedObject): string {
    [NUL] + o.kind + [NUL] + o.name + [NUL] + o.digest + [NUL] + Int64Text(o.bytes)
  }

  function ObjectsText(objects: seq<ExpectedObject>): string {
    if objects == [] then "" else ObjectText(objects[0]) + ObjectsText(objects[1..])
  }

  lemma ObjectTextSplits(o: ExpectedObject, p: ExpectedObject, x: string, y: string)
    requires PlainObject(o) && PlainObject(p) && ObjectText(o) + x == ObjectText(p) + y
    ensures o == p && x == y
  {
    var a3, b3 := Int64Text(o.bytes) + x, Int64Text(p.bytes) + y;
    var a2, b2 := o.digest + [NUL] + a3, p.digest + [NUL] + b3;
    var a1, b1 := o.name + [NUL] + a2, p.name + [NUL] + b2;
    assert ObjectText(o) + x == [NUL] + (o.kind + [NUL] + a1);
    assert ObjectText(p) + y == [NUL] + (p.kind + [NUL] + b1);
    assert o.kind + [NUL] + a1 == (ObjectText(o) + x)[1..] == p.kind + [NUL] + b1;
    FirstNulSplits(o.kind, p.kind, a1, b1);
    FirstNulSplits(o.name, p.name, a2, b2);
    FirstNulSplits(o.digest, p.digest, a3, b3);
    assert a3[..8] == Int64Text(o.bytes) && b3[..8] == Int64Text(p.bytes);
    Int64TextInjective(o.bytes, p.bytes);
    assert x == a3[8..] == y;
  }

  /** The inventory text determines the list. */
  lemma {:induction false} ObjectsTextInjective(a: seq<ExpectedObject>, b: seq<ExpectedObject>)
    requires PlainObjects(a) && PlainObjects(b) && ObjectsText(a) == ObjectsText(b)
    ensures a == b
  {
    if a != [] && b != [] {
      ObjectTextSplits(a[0], b[0], ObjectsText(a[1..]), ObjectsText(b[1..]));
      ObjectsTextInjective(a[1..], b[1..]);
      assert a == [a[0]] + a[1..] && b == [b[0]] + b[1..];
    }
  }

  lemma {:induction false} ObjectsTextGrows(objects: seq<ExpectedObject>, i: nat)
    requires i < |objects|
    ensures ObjectsText(objects[..i + 1]) == ObjectsText(objects[..i]) + ObjectText(objects[i])
  {
    if i == 0 {
      assert objects[..1] == [objects[0]];
      assert ObjectsText(objects[..1][1..]) == "";
    } else {
      ObjectsTextGrows(objects[1..], i - 1);
      assert objects[..i + 1][1..] == objects[1..][..i] && objects[..i][1..] == objects[1..][..i - 1];
    }
  }

  /** What the hasher has been fed when the digest is taken. */
  method ExpectedInventoryText(objects: seq<ExpectedObject>) returns (written: string)
    ensures exists sorted :: SortOf(sorted, objects, ObjectKey) && written == INVENTORY_DOMAIN + ObjectsText(sorted)
  {
    var sorted := SortBy(objects, ObjectKey);
    SortSorts(objects, ObjectKey);
    written := WriteObjects(INVENTORY_DOMAIN, sorted);
  }

  method WriteObjects(before: string, sorted: seq<ExpectedObject>) returns (written: string)
    ensures written == before + ObjectsText(sorted)
  {
    written := before;
    for i := 0 to |sorted|
      invariant written == before + ObjectsText(sorted[..i])
    {
      ObjectsTextGrows(sorted, i);
      var size := Int64Bytes(sorted[i].bytes);
      var piece := [NUL] + sorted[i].kind + [NUL] + sorted[i].name + [NUL] + sorted[i].digest + [NUL] + size;
      assert written + piece == before + (ObjectsText(sorted[..i]) + piece);
      written := written + piece;
    }
    assert sorted[..|sorted|] == sorted;
  }

  /** Equal inventory texts mean the same objects, equally often; and the same objects give the same text in any order
      when a (type, name) pair identifies its object. */
  lemma InventoryTextIsExact(a: seq<ExpectedObject>, b: seq<ExpectedObject>, sa: seq<ExpectedObject>,
                             sb: seq<ExpectedObject>)
    requires PlainObjects(a) && PlainObjects(b) && SortOf(sa, a, ObjectKey) && SortOf(sb, b, ObjectKey)
    requires KeysIdentify(a, ObjectKey)
    ensures INVENTORY_DOMAIN + ObjectsText(sa) == INVENTORY_DOMAIN + ObjectsText(sb) <==> multiset(a) == multiset(b)
  {
    SameElements(sa, a);
    SameElements(sb, b);
    SameSortIffPermutation(a, b, sa, sb, ObjectKey);
    var ta, tb := INVENTORY_DOMAIN + ObjectsText(sa), INVENTORY_DOMAIN + ObjectsText(sb);
    assert ObjectsText(sa) == ta[|INVENTORY_DOMAIN|..] && ObjectsText(sb) == tb[|INVENTORY_DOMAIN|..];
    if ta == tb {
      ObjectsTextInjective(sa, sb);
    }
  }

  /** The text is the same for every sort of a list exactly when a (type, name) pair identifies its object. */
  lemma InventoryTextNeedsKeys(a: seq<ExpectedObject>)
    requires PlainObjects(a)
    ensures KeysIdentify(a, ObjectKey) <==>
      forall sa, sb :: SortOf(sa, a, ObjectKey) && SortOf(sb, a, ObjectKey) ==> ObjectsText(sa) == ObjectsText(sb)
  {
    if KeysIdentify(a, ObjectKey) {
      forall sa, sb | SortOf(sa, a, ObjectKey) && SortOf(sb, a, ObjectKey) ensures ObjectsText(sa) == ObjectsText(sb) {
        SameSortIffPermutation(a, a, sa, sb, ObjectKey);
      }
    } else {
      var sa, sb := TwoTexts(a);
    }
  }

  /** Two unequal objects with one (type, name) pair: the digest depends on how the sort leaves them. */
  lemma TwoTexts(a: seq<ExpectedObject>) returns (sa: seq<ExpectedObject>, sb: seq<ExpectedObject>)
    requires PlainObjects(a) && !KeysIdentify(a, ObjectKey)
    ensures SortOf(sa, a, ObjectKey) && SortOf(sb, a, ObjectKey) && ObjectsText(sa) != ObjectsText(sb)
  {
    sa, sb := TwoSorts(a, ObjectKey);
    SameElements(sa, a);
    SameElements(sb, a);
    if ObjectsText(sa) == ObjectsText(sb) {
      ObjectsTextInjective(sa, sb);
    }
  }

  /** One stable sort gives two texts for the two orders of two such objects. */
  lemma TwoOrders(x: ExpectedObject, y: ExpectedObject)
    requires ObjectKey(x) == ObjectKey(y) && x != y && PlainObjects([x, y]) && PlainObjects([y, x])
    ensures ObjectsText(SortBy([x, y], ObjectKey)) != ObjectsText(SortBy([y, x], ObjectKey))
  {
    KeyBeforeIsTotal(ObjectKey(x), ObjectKey(y));
    SortedIsFixed([x, y], ObjectKey);
    SortedIsFixed([y, x], ObjectKey);
    assert [x, y][0] != [y, x][0];
    if ObjectsText([x, y]) == ObjectsText([y, x]) {
      ObjectsTextInjective([x, y], [y, x]);
    }
  }

  /** For instance one name listed with the sizes 1 and 2. */
  lemma OneNameTwoSizes() returns (a: seq<ExpectedObject>, sa: seq<ExpectedObject>, sb: seq<ExpectedObject>)
    ensures a == [ExpectedObject("data", "n", 1, "d"), ExpectedObject("data", "n", 2, "d")]
    ensures SortOf(sa, a, ObjectKey) && SortOf(sb, a, ObjectKey) && ObjectsText(sa) != ObjectsText(sb)
    ensures ObjectsText(SortBy(a, ObjectKey)) != ObjectsText(SortBy([a[1], a[0]], ObjectKey))
  {
    var x, y := ExpectedObject("data", "n", 1, "d"), ExpectedObject("data", "n", 2, "d");
    a := [x, y];
    assert x in a && y in a && ObjectKey(x) == ObjectKey(y) && x != y;
    sa, sb := TwoTexts(a);
    TwoOrders(x, y);
  }

  /** With one stable sort, every order of the input gives the same text exactly when type and name identify the
      object. */
  lemma InputOrderNeedsKeys(a: seq<ExpectedObject>)
    requires PlainObjects(a)
    ensures KeysIdentify(a, ObjectKey) <==>
      forall b :: multiset(b) == multiset(a) ==> ObjectsText(SortBy(b, ObjectKey)) == ObjectsText(SortBy(a, ObjectKey))
  {
    if KeysIdentify(a, ObjectKey) {
      forall b | multiset(b) == multiset(a) ensures SortBy(b, ObjectKey) == SortBy(a, ObjectKey) {
        SortSorts(a, ObjectKey);
        SortSorts(b, ObjectKey);
        SameSortIffPermutation(a, b, SortBy(a, ObjectKey), SortBy(b, ObjectKey), ObjectKey);
      }
    } else {
      var sa, sb := TwoTexts(a);
      SortedIsFixed(sa, ObjectKey);
      SortedIsFixed(sb, ObjectKey);
      assert multiset(sa) == multiset(a) && multiset(sb) == multiset(a);
    }
  }

  // ----- texts made of NUL-separated tokens only

  function Rows<T>(items: seq<T>, row: T -> seq<string>): seq<string> {
    if items == [] then [] else row(items[0]) + Rows(items[1..], row)
  }

  function Framed(domain: string, tokens: seq<string>): string {
    JoinWith([domain] + tokens, NUL)
  }

  predicate NulFree(tokens: seq<string>) {
    forall i :: 0 <= i < |tokens| ==> NoNul(tokens[i])
  }

  lemma FramedInjective(domain: string, a: seq<string>, b: seq<string>)
    requires NoNul(domain) && NulFree(a) && NulFree(b) && Framed(domain, a) == Framed(domain, b)
    ensures a == b
  {
    JoinNulInjective([domain] + a, [domain] + b);
    assert a == ([domain] + a)[1..] == b;
  }

  lemma {:induction false} JoinGrows(parts: seq<string>, more: seq<string>)
    requires |parts| >= 1 && |more| >= 1
    ensures JoinWith(parts + more, NUL) == JoinWith(parts, NUL) + [NUL] + JoinWith(more, NUL)
  {
    if |parts| == 1 {
      assert (parts + more)[1..] == more;
    } else {
      JoinGrows(parts[1..], more);
      assert (parts + more)[1..] == parts[1..] + more;
    }
  }

  lemma FramedGrows(domain: string, tokens: seq<string>, token: string)
    ensures Framed(domain, tokens + [token]) == Framed(domain, tokens) + [NUL] + token
  {
    assert [domain] + (tokens + [token]) == ([domain] + tokens) + [token];
    JoinGrows([domain] + tokens, [token]);
  }

  lemma {:induction false} RowsSplit<T>(a: seq<T>, b: seq<T>, row: T -> seq<string>)
    ensures Rows(a + b, row) == Rows(a, row) + Rows(b, row)
  {
    if a == [] {
      assert a + b == b;
    } else {
      RowsSplit(a[1..], b, row);
      assert (a + b)[0] == a[0] && (a + b)[1..] == a[1..] + b;
      assert Rows(a + b, row) == row(a[0]) + (Rows(a[1..], row) + Rows(b, row));
    }
  }

  lemma RowsGrow<T>(items: seq<T>, i: nat, row: T -> seq<string>)
    requires i < |items|
    ensures Rows(items[..i + 1], row) == Rows(items[..i], row) + row(items[i])
  {
    assert items[..i + 1] == items[..i] + [items[i]];
    RowsSplit(items[..i], [items[i]], row);
    assert Rows([items[i]], row) == row(items[i]) + Rows([], row);
  }

  ghost predicate RowsOf<T(!new)>(row: T -> seq<string>, width: nat) {
    width > 0 && forall x :: |row(x)| == width
  }

  ghost predicate RowsIdentify<T>(a: seq<T>, b: seq<T>, row: T -> seq<string>) {
    forall x, y :: x in a && y in b && row(x) == row(y) ==> x == y
  }

  lemma {:induction false} RowsInjective<T(!new)>(a: seq<T>, b: seq<T>, row: T -> seq<string>, width: nat)
    requires RowsOf(row, width) && RowsIdentify(a, b, row) && Rows(a, row) == Rows(b, row)
    ensures a == b
  {
    if a != [] && b != [] {
      var x, y := Rows(a, row), Rows(b, row);
      assert x[..width] == row(a[0]) && y[..width] == row(b[0]);
      assert x[width..] == Rows(a[1..], row) && y[width..] == Rows(b[1..], row);
      RowsInjective(a[1..], b[1..], row, width);
      assert a == [a[0]] + a[1..] && b == [b[0]] + b[1..];
    } else {
      assert a != [] ==> |Rows(a, row)| >= width;
      assert b != [] ==> |Rows(b, row)| >= width;
    }
  }

  lemma {:induction false} RowsNulFree<T>(items: seq<T>, row: T -> seq<string>)
    requires forall x :: x in items ==> NulFree(row(x))
    ensures NulFree(Rows(items, row))
  {
    if items != [] {
      RowsNulFree(items[1..], row);
    }
  }

  // ----- dependencies

  function DependencyKey(d: ExpectedDependency): Key { Key(d.kind, d.dependencyID) }

  function DependencyRow(d: ExpectedDependency): seq<string> { [d.kind, d.dependencyID, d.digest] }

  const DEPENDENCY_DOMAIN := "backup-expected-dependencies-v1"

  function DependencyText(sorted: seq<ExpectedDependency>): string {
    Framed(DEPENDENCY_DOMAIN, Rows(sorted, DependencyRow))
  }

  predicate PlainDependencies(dependencies: seq<ExpectedDependency>) {
    forall d :: d in dependencies ==> NulFree(DependencyRow(d))
  }

  method ExpectedDependencyText(dependencies: seq<ExpectedDependency>) returns (written: string)
    ensures exists sorted :: SortOf(sorted, dependencies, DependencyKey) && written == DependencyText(sorted)
  {
    var sorted := SortBy(dependencies, DependencyKey);
    SortSorts(dependencies, DependencyKey);
    written := DEPENDENCY_DOMAIN;
    for i := 0 to |sorted|
      invariant written == DependencyText(sorted[..i])
    {
      var values := [sorted[i].kind, sorted[i].dependencyID, sorted[i].digest];
      written := WriteTokens(written, DEPENDENCY_DOMAIN, Rows(sorted[..i], DependencyRow), values);
      RowsGrow(sorted, i, DependencyRow);
    }
    assert sorted[..|sorted|] == sorted;
  }

  /** Feeds one NUL byte and one value after another to a hasher that has been fed `before`. */
  method WriteTokens(before: string, ghost domain: string, ghost tokens: seq<string>, values: seq<string>)
      returns (written: string)
    requires before == Framed(domain, tokens)
    ensures written == Framed(domain, tokens + values)
  {
    written := before;
    assert tokens + values[..0] == tokens;
    for i := 0 to |values|
      invariant written == Framed(domain, tokens + values[..i])
    {
      FramedGrows(domain, tokens + values[..i], values[i]);
      assert tokens + values[..i + 1] == (tokens + values[..i]) + [values[i]];
      written := written + [NUL] + values[i];
    }
    assert values[..|values|] == values;
  }

  lemma DependencyTextIsExact(a: seq<ExpectedDependency>, b: seq<ExpectedDependency>, sa: seq<ExpectedDependency>,
                              sb: seq<ExpectedDependency>)
    requires PlainDependencies(a) && PlainDependencies(b) && KeysIdentify(a, DependencyKey)
    requires SortOf(sa, a, DependencyKey) && SortOf(sb, b, DependencyKey)
    ensures DependencyText(sa) == DependencyText(sb) <==> multiset(a) == multiset(b)
  {
    SameElements(sa, a);
    SameElements(sb, b);
    SameSortIffPermutation(a, b, sa, sb, DependencyKey);
    if DependencyText(sa) == DependencyText(sb) {
      DependencyTextInjective(sa, sb);
    }
  }

  lemma DependencyTextNeedsKeys(a: seq<ExpectedDependency>)
    requires PlainDependencies(a)
    ensures KeysIdentify(a, DependencyKey) <==>
      forall sa, sb :: SortOf(sa, a, DependencyKey) && SortOf(sb, a, DependencyKey) ==>
        DependencyText(sa) == DependencyText(sb)
  {
    if KeysIdentify(a, DependencyKey) {
      forall sa, sb | SortOf(sa, a, DependencyKey) && SortOf(sb, a, DependencyKey) ensures sa == sb {
        SameSortIffPermutation(a, a, sa, sb, DependencyKey);
      }
    } else {
      var sa, sb := TwoSorts(a, DependencyKey);
      SameElements(sa, a);
      SameElements(sb, a);
      if DependencyText(sa) == DependencyText(sb) {
        DependencyTextInjective(sa, sb);
      }
    }
  }

  lemma DependencyTextInjective(a: seq<ExpectedDependency>, b: seq<ExpectedDependency>)
    requires PlainDependencies(a) && PlainDependencies(b) && DependencyText(a) == DependencyText(b)
    ensures a == b
  {
    RowsNulFree(a, DependencyRow);
    RowsNulFree(b, DependencyRow);
    FramedInjective(DEPENDENCY_DOMAIN, Rows(a, DependencyRow), Rows(b, DependencyRow));
    RowsIdentifyDependencies(a, b);
    RowsInjective(a, b, DependencyRow, 3);
  }

  lemma RowsIdentifyDependencies(a: seq<ExpectedDependency>, b: seq<ExpectedDependency>)
    ensures RowsIdentify(a, b, DependencyRow)
  {
    forall x, y | x in a && y in b && DependencyRow(x) == DependencyRow(y) ensures x == y {
      assert DependencyRow(x)[0] == DependencyRow(y)[0] && DependencyRow(x)[1] == DependencyRow(y)[1]
          && DependencyRow(x)[2] == DependencyRow(y)[2];
    }
  }

  // ----- offsite objects

  function OffsiteKey(o: OffsiteObject): Key { Key(o.key, "") }

  function OffsiteRow(o: OffsiteObject): seq<string> { [o.key, o.digest, FormatInt(o.bytes)] }

  const OFFSITE_DOMAIN := "offsite-object-inventory-v1"

  function OffsiteText(sorted: seq<OffsiteObject>): string {
    Framed(OFFSITE_DOMAIN, Rows(sorted, OffsiteRow))
  }

  predicate PlainOffsite(objects: seq<OffsiteObject>) {
    forall o :: o in objects ==> NoNul(o.key) && NoNul(o.digest)
  }

  method OffsiteInventoryText(objects: seq<OffsiteObject>) returns (written: string)
    ensures exists sorted :: SortOf(sorted, objects, OffsiteKey) && written == OffsiteText(sorted)
  {
    var sorted := SortBy(objects, OffsiteKey);
    SortSorts(objects, OffsiteKey);
    written := OFFSITE_DOMAIN;
    for i := 0 to |sorted|
      invariant written == OffsiteText(sorted[..i])
    {
      var values := [sorted[i].key, sorted[i].digest, FormatInt(sorted[i].bytes)];
      written := WriteTokens(written, OFFSITE_DOMAIN, Rows(sorted[..i], OffsiteRow), values);
      RowsGrow(sorted, i, OffsiteRow);
    }
    assert sorted[..|sorted|] == sorted;
  }

  lemma OffsiteTextIsExact(a: seq<OffsiteObject>, b: seq<OffsiteObject>, sa: seq<OffsiteObject>, sb: seq<OffsiteObject>)
    requires PlainOffsite(a) && PlainOffsite(b) && KeysIdentify(a, OffsiteKey)
    requires SortOf(sa, a, OffsiteKey) && SortOf(sb, b, OffsiteKey)
    ensures OffsiteText(sa) == OffsiteText(sb) <==> multiset(a) == multiset(b)
  {
    SameElements(sa, a);
    SameElements(sb, b);
    SameSortIffPermutation(a, b, sa, sb, OffsiteKey);
    if OffsiteText(sa) == OffsiteText(sb) {
      OffsiteTextInjective(sa, sb);
    }
  }

  lemma OffsiteTextNeedsKeys(a: seq<OffsiteObject>)
    requires PlainOffsite(a)
    ensures KeysIdentify(a, OffsiteKey) <==>
      forall sa, sb :: SortOf(sa, a, OffsiteKey) && SortOf(sb, a, OffsiteKey) ==> OffsiteText(sa) == OffsiteText(sb)
  {
    if KeysIdentify(a, OffsiteKey) {
      forall sa, sb | SortOf(sa, a, OffsiteKey) && SortOf(sb, a, OffsiteKey) ensures sa == sb {
        SameSortIffPermutation(a, a, sa, sb, OffsiteKey);
      }
    } else {
      var sa, sb := TwoSorts(a, OffsiteKey);
      SameElements(sa, a);
      SameElements(sb, a);
      if OffsiteText(sa) == OffsiteText(sb) {
        OffsiteTextInjective(sa, sb);
      }
    }
  }

  lemma OffsiteTextInjective(a: seq<OffsiteObject>, b: seq<OffsiteObject>)
    requires PlainOffsite(a) && PlainOffsite(b) && OffsiteText(a) == OffsiteText(b)
    ensures a == b
  {
    OffsiteRowsNulFree(a);
    OffsiteRowsNulFree(b);
    FramedInjective(OFFSITE_DOMAIN, Rows(a, OffsiteRow), Rows(b, OffsiteRow));
    RowsIdentifyOffsite(a, b);
    RowsInjective(a, b, OffsiteRow, 3);
  }

  lemma OffsiteRowsNulFree(objects: seq<OffsiteObject>)
    requires PlainOffsite(objects)
    ensures NulFree(Rows(objects, OffsiteRow))
  {
    forall o | o in objects ensures NulFree(OffsiteRow(o)) {
      FormatIntHasNoNul(o.bytes);
    }
    RowsNulFree(objects, OffsiteRow);
  }

  lemma RowsIdentifyOffsite(a: seq<OffsiteObject>, b: seq<OffsiteObject>)
    ensures RowsIdentify(a, b, OffsiteRow)
  {
    forall x, y | x in a && y in b && OffsiteRow(x) == OffsiteRow(y) ensures x == y {
      assert OffsiteRow(x)[0] == OffsiteRow(y)[0] && OffsiteRow(x)[1] == OffsiteRow(y)[1] &&
        OffsiteRow(x)[2] == OffsiteRow(y)[2];
      FormatIntInjective(x.bytes, y.bytes);
    }
  }

  // ----- retention observations

  function RuleKey(r: RetentionRule): Key { Key(r.prefix, r.ruleID) }

  function TextKey(s: string): Key { Key(s, "") }

  function RuleRow(r: RetentionRule): seq<string> { ["protected", r.ruleID, r.prefix] }

  function MutableRow(prefix: string): seq<string> { ["mutable", prefix] }

  function BoolText(b: bool): string { if b then "true" else "false" }

  const RETENTION_DOMAIN := "offsite-retention-observation-v1"

  function HeaderTokens(v: RetentionObservation): seq<string> {
    [v.generationID, FormatInt(v.ruleCount), FormatInt(v.ruleLimit), FormatInt(v.retainedGenerations),
     FormatInt(v.availableBytes), FormatInt(v.availablePUTs), FormatInt(v.availableLISTs),
     BoolText(v.indefiniteProtection), v.proofClass]
  }

  function SectionTokens(rules: seq<RetentionRule>, prefixes: seq<string>): seq<string> {
    Rows(rules, RuleRow) + Rows(prefixes, MutableRow)
  }

  function RetentionText(v: RetentionObservation, rules: seq<RetentionRule>, prefixes: seq<string>): string {
    Framed(RETENTION_DOMAIN, HeaderTokens(v) + SectionTokens(rules, prefixes))
  }

  method RetentionObservationText(v: RetentionObservation) returns (written: string)
    ensures exists rules, prefixes ::
      SortOf(rules, v.protectedRules, RuleKey) && SortOf(prefixes, v.mutablePrefixes, TextKey)
                                   && written == RetentionText(v, rules, prefixes)
  {
    var rules := SortBy(v.protectedRules, RuleKey);
    var prefixes := SortBy(v.mutablePrefixes, TextKey);
    SortSorts(v.protectedRules, RuleKey);
    SortSorts(v.mutablePrefixes, TextKey);
    written := WriteRetention(HeaderTokens(v), rules, prefixes);
    assert SortOf(rules, v.protectedRules, RuleKey) && SortOf(prefixes, v.mutablePrefixes, TextKey);
    assert written == RetentionText(v, rules, prefixes);
  }

  method WriteRetention(header: seq<string>, rules: seq<RetentionRule>, prefixes: seq<string>) returns (written: string)
    ensures written == Framed(RETENTION_DOMAIN, header + SectionTokens(rules, prefixes))
  {
    written := RETENTION_DOMAIN;
    FramedNothing(RETENTION_DOMAIN);
    written := WriteTokens(written, RETENTION_DOMAIN, [], header);
    assert [] + header == header;
    written := WriteRules(written, header, rules);
    written := WritePrefixes(written, header + Rows(rules, RuleRow), prefixes);
    assert header + Rows(rules, RuleRow) + Rows(prefixes, MutableRow) == header + SectionTokens(rules, prefixes);
  }

  lemma FramedNothing(domain: string)
    ensures Framed(domain, []) == domain
  {
    assert [domain] + [] == [domain];
  }

  method WriteRules(before: string, ghost tokens: seq<string>, rules: seq<RetentionRule>) returns (written: string)
    requires before == Framed(RETENTION_DOMAIN, tokens)
    ensures written == Framed(RETENTION_DOMAIN, tokens + Rows(rules, RuleRow))
  {
    written := before;
    assert tokens == tokens + Rows(rules[..0], RuleRow);
    for i := 0 to |rules|
      invariant written == Framed(RETENTION_DOMAIN, tokens + Rows(rules[..i], RuleRow))
    {
      ghost var sofar := tokens + Rows(rules[..i], RuleRow);
      written := WriteTokens(written, RETENTION_DOMAIN, sofar, ["protected", rules[i].ruleID, rules[i].prefix]);
      RowsGrow(rules, i, RuleRow);
      assert sofar + RuleRow(rules[i]) == tokens + Rows(rules[..i + 1], RuleRow);
    }
    assert rules[..|rules|] == rules;
  }

  method WritePrefixes(before: string, ghost tokens: seq<string>, prefixes: seq<string>) returns (written: string)
    requires before == Framed(RETENTION_DOMAIN, tokens)
    ensures written == Framed(RETENTION_DOMAIN, tokens + Rows(prefixes, MutableRow))
  {
    written := before;
    assert tokens == tokens + Rows(prefixes[..0], MutableRow);
    for i := 0 to |prefixes|
      invariant written == Framed(RETENTION_DOMAIN, tokens + Rows(prefixes[..i], MutableRow))
    {
      ghost var sofar := tokens + Rows(prefixes[..i], MutableRow);
      written := WriteTokens(written, RETENTION_DOMAIN, sofar, ["mutable", prefixes[i]]);
      RowsGrow(prefixes, i, MutableRow);
      assert sofar + MutableRow(prefixes[i]) == tokens + Rows(prefixes[..i + 1], MutableRow);
    }
    assert prefixes[..|prefixes|] == prefixes;
  }

  /** Everything the observation digest binds, apart from the order of its rules and prefixes. */
  predicate SameHeader(a: RetentionObservation, b: RetentionObservation) {
    && a.generationID == b.generationID && a.ruleCount == b.ruleCount && a.ruleLimit == b.ruleLimit
    && a.retainedGenerations == b.retainedGenerations && a.availableBytes == b.availableBytes
    && a.availablePUTs == b.availablePUTs && a.availableLISTs == b.availableLISTs
    && a.indefiniteProtection == b.indefiniteProtection && a.proofClass == b.proofClass
  }

  lemma HeaderInjective(a: RetentionObservation, b: RetentionObservation)
    requires HeaderTokens(a) == HeaderTokens(b)
    ensures SameHeader(a, b)
  {
    var x, y := HeaderTokens(a), HeaderTokens(b);
    assert x[0] == y[0] && x[1] == y[1] && x[2] == y[2] && x[3] == y[3] && x[4] == y[4] && x[5] == y[5] &&
      x[6] == y[6] && x[7] == y[7] && x[8] == y[8];
    FormatIntInjective(a.ruleCount, b.ruleCount);
    FormatIntInjective(a.ruleLimit, b.ruleLimit);
    FormatIntInjective(a.retainedGenerations, b.retainedGenerations);
    FormatIntInjective(a.availableBytes, b.availableBytes);
    FormatIntInjective(a.availablePUTs, b.availablePUTs);
    FormatIntInjective(a.availableLISTs, b.availableLISTs);
    assert "true"[0] != "false"[0];
  }

  lemma HeaderNulFree(v: RetentionObservation)
    requires NoNul(v.generationID) && NoNul(v.proofClass)
    ensures NulFree(HeaderTokens(v))
  {
    FormatIntHasNoNul(v.ruleCount);
    FormatIntHasNoNul(v.ruleLimit);
    FormatIntHasNoNul(v.retainedGenerations);
    FormatIntHasNoNul(v.availableBytes);
    FormatIntHasNoNul(v.availablePUTs);
    FormatIntHasNoNul(v.availableLISTs);
  }

  predicate PlainSections(rules: seq<RetentionRule>, prefixes: seq<string>) {
    && (forall r :: r in rules ==> NoNul(r.ruleID) && NoNul(r.prefix))
    && (forall p :: p in prefixes ==> NoNul(p))
  }

  lemma SectionsNulFree(rules: seq<RetentionRule>, prefixes: seq<string>)
    requires PlainSections(rules, prefixes)
    ensures NulFree(SectionTokens(rules, prefixes))
  {
    RowsNulFree(rules, RuleRow);
    RowsNulFree(prefixes, MutableRow);
  }

  /** The two sections are told apart by the word that opens each block. */
  lemma {:induction false} SectionsInjective(ra: seq<RetentionRule>, pa: seq<string>, rb: seq<RetentionRule>,
                                             pb: seq<string>)
    requires SectionTokens(ra, pa) == SectionTokens(rb, pb)
    ensures ra == rb && pa == pb
  {
    var x, y := SectionTokens(ra, pa), SectionTokens(rb, pb);
    FirstWord(ra, pa);
    FirstWord(rb, pb);
    assert ra == [] <==> rb == [];
    if ra == [] {
      assert x == Rows(pa, MutableRow) && y == Rows(pb, MutableRow);
      RowsIdentifyMutable(pa, pb);
      RowsInjective(pa, pb, MutableRow, 2);
    } else {
      assert x == RuleRow(ra[0]) + SectionTokens(ra[1..], pa) && y == RuleRow(rb[0]) + SectionTokens(rb[1..], pb);
      assert x[1] == y[1] && x[2] == y[2];
      assert x[3..] == SectionTokens(ra[1..], pa) && y[3..] == SectionTokens(rb[1..], pb);
      SectionsInjective(ra[1..], pa, rb[1..], pb);
      assert ra == [ra[0]] + ra[1..] && rb == [rb[0]] + rb[1..];
    }
  }

  lemma FirstWord(rules: seq<RetentionRule>, prefixes: seq<string>)
    ensures rules != [] ==> SectionTokens(rules, prefixes) != []
    ensures SectionTokens(rules, prefixes) != [] ==> (SectionTokens(rules, prefixes)[0][0] == 'p' <==> rules != [])
  {
    assert rules == [] ==> SectionTokens(rules, prefixes) == Rows(prefixes, MutableRow);
  }

  lemma RowsIdentifyMutable(a: seq<string>, b: seq<string>)
    ensures RowsIdentify(a, b, MutableRow)
  {
    forall x, y | x in a && y in b && MutableRow(x) == MutableRow(y) ensures x == y {
      assert MutableRow(x)[1] == MutableRow(y)[1];
    }
  }

  /** Two observations hash the same text exactly when they agree on every hashed field and hold the same rules and the
      same prefixes, in any order. */
  lemma RetentionTextIsExact(a: RetentionObservation, b: RetentionObservation,
                             ra: seq<RetentionRule>, pa: seq<string>, rb: seq<RetentionRule>, pb: seq<string>)
    requires SortOf(ra, a.protectedRules, RuleKey) && SortOf(pa, a.mutablePrefixes, TextKey)
    requires SortOf(rb, b.protectedRules, RuleKey) && SortOf(pb, b.mutablePrefixes, TextKey)
    requires NoNul(a.generationID) && NoNul(a.proofClass) && PlainSections(a.protectedRules, a.mutablePrefixes)
    requires NoNul(b.generationID) && NoNul(b.proofClass) && PlainSections(b.protectedRules, b.mutablePrefixes)
    ensures RetentionText(a, ra, pa) == RetentionText(b, rb, pb) <==>
      && SameHeader(a, b) && multiset(a.protectedRules) == multiset(b.protectedRules)
      && multiset(a.mutablePrefixes) == multiset(b.mutablePrefixes)
  {
    SameSortIffPermutation(a.protectedRules, b.protectedRules, ra, rb, RuleKey);
    SameSortIffPermutation(a.mutablePrefixes, b.mutablePrefixes, pa, pb, TextKey);
    if RetentionText(a, ra, pa) == RetentionText(b, rb, pb) {
      SameElements(ra, a.protectedRules);
      SameElements(pa, a.mutablePrefixes);
      SameElements(rb, b.protectedRules);
      SameElements(pb, b.mutablePrefixes);
      RetentionTokensAgree(a, b, ra, pa, rb, pb);
    }
  }

  lemma RetentionTokensAgree(a: RetentionObservation, b: RetentionObservation,
                             ra: seq<RetentionRule>, pa: seq<string>, rb: seq<RetentionRule>, pb: seq<string>)
    requires NoNul(a.generationID) && NoNul(a.proofClass) && PlainSections(ra, pa)
    requires NoNul(b.generationID) && NoNul(b.proofClass) && PlainSections(rb, pb)
    requires RetentionText(a, ra, pa) == RetentionText(b, rb, pb)
    ensures SameHeader(a, b) && ra == rb && pa == pb
  {
    HeaderNulFree(a);
    HeaderNulFree(b);
    SectionsNulFree(ra, pa);
    SectionsNulFree(rb, pb);
    var ha, hb, ta, tb := HeaderTokens(a), HeaderTokens(b), SectionTokens(ra, pa), SectionTokens(rb, pb);
    TokensAgree(ha, hb, ta, tb);
    HeaderInjective(a, b);
    SectionsInjective(ra, pa, rb, pb);
  }

  lemma TokensAgree(ha: seq<string>, hb: seq<string>, ta: seq<string>, tb: seq<string>)
    requires |ha| == |hb| && NulFree(ha) && NulFree(hb) && NulFree(ta) && NulFree(tb)
    requires Framed(RETENTION_DOMAIN, ha + ta) == Framed(RETENTION_DOMAIN, hb + tb)
    ensures ha == hb && ta == tb
  {
    FramedInjective(RETENTION_DOMAIN, ha + ta, hb + tb);
    assert ha == (ha + ta)[..|ha|] == hb && ta == (ha + ta)[|ha|..] == tb;
  }
}
