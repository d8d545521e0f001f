/** Stable sorting, why the algorithm does not matter, and permutations. */
module Sorting {
  import opened Text

  datatype Key = Key(major: string, minor: string)

  predicate KeyBefore(a: Key, b: Key) {
    Before(a.major, b.major) || (a.major == b.major && Before(a.minor, b.minor))
  }

  lemma KeyBeforeIsTotal(a: Key, b: Key)
    ensures KeyBefore(a, b) || a == b || KeyBefore(b, a)
    ensures !(KeyBefore(a, b) && KeyBefore(b, a)) && !KeyBefore(a, a)
  {
    BeforeIsTotal(a.major, b.major);
    BeforeIsTotal(a.minor, b.minor);
  }

  lemma KeyBeforeIsTransitive(a: Key, b: Key, c: Key)
    requires KeyBefore(a, b) && KeyBefore(b, c)
    ensures KeyBefore(a, c)
  {
    if Before(a.major, b.major) && Before(b.major, c.major) {
      BeforeIsTransitive(a.major, b.major, c.major);
    } else if a.major == b.major && b.major == c.major {
      BeforeIsTransitive(a.minor, b.minor, c.minor);
    }
  }

  // ----- any order

  /** Asymmetric, and what is not before stays not before. */
  ghost predicate WeakOrder<T(!new)>(before: (T, T) -> bool) {
    && (forall x, y :: before(x, y) ==> !before(y, x))
    && (forall x, y, z :: !before(x, y) && !before(y, z) ==> !before(x, z))
  }

  predicate Ordered<T>(s: seq<T>, before: (T, T) -> bool) {
    forall i, j :: 0 <= i < j < |s| ==> !before(s[j], s[i])
  }

  function InsertIn<T>(x: T, s: seq<T>, before: (T, T) -> bool): seq<T> {
    if s == [] || !before(s[0], x) then [x] + s else [s[0]] + InsertIn(x, s[1..], before)
  }

  function SortIn<T>(s: seq<T>, before: (T, T) -> bool): seq<T> {
    if s == [] then [] else InsertIn(s[0], SortIn(s[1..], before), before)
  }

  lemma {:induction false} InsertSorts<T(!new)>(x: T, s: seq<T>, before: (T, T) -> bool)
    requires WeakOrder(before) && Ordered(s, before)
    ensures Ordered(InsertIn(x, s, before), before) && multiset(InsertIn(x, s, before)) == multiset(s) + multiset{x}
  {
    if s != [] && before(s[0], x) {
      InsertSorts(x, s[1..], before);
      PrependKeepsOrder(x, s, InsertIn(x, s[1..], before), before);
    }
  }

  lemma PrependKeepsOrder<T(!new)>(x: T, s: seq<T>, rest: seq<T>, before: (T, T) -> bool)
    requires s != [] && WeakOrder(before) && before(s[0], x) && Ordered(s, before) && Ordered(rest, before)
    requires multiset(rest) == multiset(s[1..]) + multiset{x}
    ensures Ordered([s[0]] + rest, before) && multiset([s[0]] + rest) == multiset(s) + multiset{x}
  {
    assert s == [s[0]] + s[1..];
    forall j | 0 <= j < |rest| ensures !before(rest[j], s[0]) {
      assert rest[j] in multiset(rest);
      assert rest[j] in multiset(s[1..]) || rest[j] == x;
    }
  }

  /** A sort returns an ordered permutation. */
  lemma {:induction false} SortInSorts<T(!new)>(s: seq<T>, before: (T, T) -> bool)
    requires WeakOrder(before)
    ensures Ordered(SortIn(s, before), before) && multiset(SortIn(s, before)) == multiset(s)
  {
    if s != [] {
      SortInSorts(s[1..], before);
      InsertSorts(s[0], SortIn(s[1..], before), before);
      assert s == [s[0]] + s[1..];
    }
  }

  /** Elements that neither precede nor follow each other are equal. */
  ghost predicate Identifies<T>(s: seq<T>, before: (T, T) -> bool) {
    forall x, y :: x in s && y in s && !before(x, y) && !before(y, x) ==> x == y
  }

  /** Then there is only one ordered permutation. */
  lemma {:induction false} OrderedIsUnique<T>(a: seq<T>, b: seq<T>, before: (T, T) -> bool)
    requires Ordered(a, before) && Ordered(b, before) && multiset(a) == multiset(b) && Identifies(a, before)
    ensures a == b
  {
    assert |a| == |multiset(a)| == |multiset(b)| == |b|;
    if a != [] {
      HeadsAgree(a, b, before);
      TailsPermute(a, b);
      OrderedIsUnique(a[1..], b[1..], before);
      assert a == [a[0]] + a[1..] && b == [b[0]] + b[1..];
    }
  }

  lemma HeadsAgree<T>(a: seq<T>, b: seq<T>, before: (T, T) -> bool)
    requires a != [] && b != [] && Ordered(a, before) && Ordered(b, before) && multiset(a) == multiset(b)
    requires Identifies(a, before)
    ensures a[0] == b[0]
  {
    assert a[0] in multiset(b) && b[0] in multiset(a);
    var i :| 0 <= i < |b| && b[i] == a[0];
    var j :| 0 <= j < |a| && a[j] == b[0];
    if i > 0 && j > 0 {
      assert !before(b[i], b[0]) && !before(a[j], a[0]);
    }
  }

  lemma TailsPermute<T>(a: seq<T>, b: seq<T>)
    requires a != [] && b != [] && a[0] == b[0] && multiset(a) == multiset(b)
    ensures multiset(a[1..]) == multiset(b[1..])
  {
    RemoveAt(a, 0);
    RemoveAt(b, 0);
    assert Without(a, 0) == a[1..] && Without(b, 0) == b[1..];
    CancelOne(multiset(a[1..]), multiset(b[1..]), a[0]);
  }

  // ----- order by key

  function ByKey<T>(key: T -> Key): (T, T) -> bool {
    (x, y) => KeyBefore(key(x), key(y))
  }

  predicate Sorted<T>(s: seq<T>, key: T -> Key) {
    Ordered(s, ByKey(key))
  }

  predicate DistinctKeys<T>(s: seq<T>, key: T -> Key) {
    forall i, j :: 0 <= i < j < |s| ==> key(s[i]) != key(s[j])
  }

  function SortBy<T>(s: seq<T>, key: T -> Key): seq<T> {
    SortIn(s, ByKey(key))
  }

  lemma ByKeyIsWeak<T(!new)>(key: T -> Key)
    ensures WeakOrder(ByKey(key))
  {
    var before := ByKey(key);
    forall x, y | before(x, y) ensures !before(y, x) {
      KeyBeforeIsTotal(key(x), key(y));
    }
    forall x, y, z | !before(x, y) && !before(y, z) ensures !before(x, z) {
      NotBeforeIsTransitive(key(x), key(y), key(z));
    }
  }

  lemma NotBeforeIsTransitive(a: Key, b: Key, c: Key)
    requires !KeyBefore(a, b) && !KeyBefore(b, c)
    ensures !KeyBefore(a, c)
  {
    KeyBeforeIsTotal(a, b);
    KeyBeforeIsTotal(b, c);
    KeyBeforeIsTotal(a, c);
    if KeyBefore(c, b) && KeyBefore(b, a) {
      KeyBeforeIsTransitive(c, b, a);
    }
  }

  /** A stable sort leaves a sorted list as it is. */
  lemma {:induction false} SortedIsFixed<T>(s: seq<T>, key: T -> Key)
    requires Sorted(s, key)
    ensures SortBy(s, key) == s
  {
    SortInFixes(s, ByKey(key));
  }

  lemma {:induction false} SortInFixes<T>(s: seq<T>, before: (T, T) -> bool)
    requires Ordered(s, before)
    ensures SortIn(s, before) == s
  {
    if s != [] {
      assert forall i, j :: 0 <= i < j < |s[1..]| ==> s[1..][j] == s[j + 1] && s[1..][i] == s[i + 1];
      SortInFixes(s[1..], before);
      assert s == [s[0]] + s[1..];
    }
  }

  lemma SortSorts<T(!new)>(s: seq<T>, key: T -> Key)
    ensures Sorted(SortBy(s, key), key) && multiset(SortBy(s, key)) == multiset(s)
  {
    ByKeyIsWeak(key);
    SortInSorts(s, ByKey(key));
  }

  /** Elements that share a key are equal; distinct keys are the usual case. */
  ghost predicate KeysIdentify<T>(s: seq<T>, key: T -> Key) {
    forall x, y :: x in s && y in s && key(x) == key(y) ==> x == y
  }

  ghost predicate SortOf<T>(sorted: seq<T>, s: seq<T>, key: T -> Key) {
    Sorted(sorted, key) && multiset(sorted) == multiset(s)
  }

  /** When keys identify, there is only one sorted permutation, whatever the algorithm. */
  lemma SortedIsUnique<T>(a: seq<T>, b: seq<T>, key: T -> Key)
    requires Sorted(a, key) && Sorted(b, key) && multiset(a) == multiset(b) && KeysIdentify(a, key)
    ensures a == b
  {
    forall x, y | x in a && y in a && !ByKey(key)(x, y) && !ByKey(key)(y, x) ensures x == y {
      KeyBeforeIsTotal(key(x), key(y));
    }
    OrderedIsUnique(a, b, ByKey(key));
  }

  /** Two lists have the same sort exactly when they hold the same elements equally often. */
  lemma SameSortIffPermutation<T>(a: seq<T>, b: seq<T>, sa: seq<T>, sb: seq<T>, key: T -> Key)
    requires SortOf(sa, a, key) && SortOf(sb, b, key) && KeysIdentify(a, key)
    ensures sa == sb <==> multiset(a) == multiset(b)
  {
    SameElements(sa, a);
    if multiset(a) == multiset(b) {
      SortedIsUnique(sa, sb, key);
    }
  }

  // ----- when a sort is not unique

  function Swapped<T>(s: seq<T>, i: nat, j: nat): seq<T>
    requires i < |s| && j < |s|
  {
    s[i := s[j]][j := s[i]]
  }

  /** Exchanging two elements with one key gives another sort of the same list. */
  lemma SwapKeepsSort<T>(sorted: seq<T>, s: seq<T>, key: T -> Key, i: nat, j: nat)
    requires SortOf(sorted, s, key) && i < j < |sorted| && key(sorted[i]) == key(sorted[j])
    ensures SortOf(Swapped(sorted, i, j), s, key)
  {
    var other := Swapped(sorted, i, j);
    assert forall k :: 0 <= k < |sorted| ==> key(other[k]) == key(sorted[k]);
    SwapPermutes(sorted, i, j);
  }

  lemma SwapPermutes<T>(s: seq<T>, i: nat, j: nat)
    requires i < j < |s|
    ensures multiset(Swapped(s, i, j)) == multiset(s)
  {
    var front, middle, back := s[..i], s[i + 1..j], s[j + 1..];
    assert s == front + [s[i]] + middle + [s[j]] + back;
    assert Swapped(s, i, j) == front + [s[j]] + middle + [s[i]] + back;
  }

  /** Two unequal elements with one key leave the order open: there are two different sorts. */
  lemma TwoSorts<T(!new)>(s: seq<T>, key: T -> Key) returns (sa: seq<T>, sb: seq<T>)
    requires !KeysIdentify(s, key)
    ensures SortOf(sa, s, key) && SortOf(sb, s, key) && sa != sb
  {
    var x, y :| x in s && y in s && key(x) == key(y) && x != y;
    sa := SortBy(s, key);
    SortSorts(s, key);
    SameElements(s, sa);
    var i :| 0 <= i < |sa| && sa[i] == x;
    var j :| 0 <= j < |sa| && sa[j] == y;
    if i < j {
      sb := Swapped(sa, i, j);
      SwapKeepsSort(sa, s, key, i, j);
    } else {
      sb := Swapped(sa, j, i);
      SwapKeepsSort(sa, s, key, j, i);
    }
    assert sb[i] == y;
  }

  // ----- permutations

  lemma SameElements<T>(a: seq<T>, b: seq<T>)
    requires multiset(a) == multiset(b)
    ensures forall x :: x in a <==> x in b
  {
    assert forall x :: x in a <==> x in multiset(a);
    assert forall x :: x in b <==> x in multiset(b);
  }

  lemma DistinctKeysPermute<T>(a: seq<T>, b: seq<T>, key: T -> Key)
    requires multiset(a) == multiset(b) && DistinctKeys(a, key)
    ensures DistinctKeys(b, key)
  {
    forall i, j | 0 <= i < j < |b| ensures key(b[i]) != key(b[j]) {
      assert b[i] in multiset(a) && b[j] in multiset(a);
      var m :| 0 <= m < |a| && a[m] == b[i];
      var n :| 0 <= n < |a| && a[n] == b[j];
      if m == n {
        TwoPlaces(b, i, j);
        OnePlace(a, m, key);
      }
    }
  }

  lemma TwoPlaces<T>(s: seq<T>, i: nat, j: nat)
    requires i < j < |s| && s[i] == s[j]
    ensures multiset(s)[s[i]] >= 2
  {
    assert s == s[..i] + [s[i]] + s[i + 1..j] + [s[j]] + s[j + 1..];
  }

  lemma OnePlace<T>(s: seq<T>, m: nat, key: T -> Key)
    requires m < |s| && DistinctKeys(s, key)
    ensures multiset(s)[s[m]] == 1
  {
    assert s == s[..m] + [s[m]] + s[m + 1..];
    assert s[m] !in s[..m] && s[m] !in s[m + 1..];
  }

  function Mapped<T, U>(s: seq<T>, f: T -> U): seq<U> {
    seq(|s|, i requires 0 <= i < |s| => f(s[i]))
  }

  function Without<T>(s: seq<T>, k: nat): seq<T>
    requires k < |s|
  {
    s[..k] + s[k + 1..]
  }

  lemma RemoveAt<T>(s: seq<T>, k: nat)
    requires k < |s|
    ensures multiset(s) == multiset(Without(s, k)) + multiset{s[k]}
  {
    assert s == s[..k] + [s[k]] + s[k + 1..];
  }

  lemma CancelOne<T>(a: multiset<T>, b: multiset<T>, x: T)
    requires a + multiset{x} == b + multiset{x}
    ensures a == b
  {
    assert a == (a + multiset{x}) - multiset{x} == b;
  }

  /** Mapping keeps permutations. */
  lemma {:induction false} MappedPermutes<T, U>(a: seq<T>, b: seq<T>, f: T -> U)
    requires multiset(a) == multiset(b)
    ensures multiset(Mapped(a, f)) == multiset(Mapped(b, f))
  {
    assert |a| == |multiset(a)| == |multiset(b)| == |b|;
    if a != [] {
      assert a[0] in multiset(b);
      var k :| 0 <= k < |b| && b[k] == a[0];
      RemoveAt(a, 0);
      RemoveAt(b, k);
      CancelOne(multiset(Without(a, 0)), multiset(Without(b, k)), a[0]);
      MappedPermutes(Without(a, 0), Without(b, k), f);
      MappedWithout(a, 0, f);
      MappedWithout(b, k, f);
    }
  }

  lemma MappedWithout<T, U>(s: seq<T>, k: nat, f: T -> U)
    requires k < |s|
    ensures multiset(Mapped(s, f)) == multiset(Mapped(Without(s, k), f)) + multiset{f(s[k])}
  {
    RemoveAt(Mapped(s, f), k);
    assert Without(Mapped(s, f), k) == Mapped(Without(s, k), f);
  }

  // ----- counting

  function CountIf<T>(s: seq<T>, p: T -> bool): nat {
    if s == [] then 0 else CountIf(s[..|s| - 1], p) + (if p(s[|s| - 1]) then 1 else 0)
  }

  lemma {:induction false} CountIsSome<T>(s: seq<T>, p: T -> bool)
    ensures CountIf(s, p) >= 1 <==> exists i :: 0 <= i < |s| && p(s[i])
  {
    if s != [] {
      var rest := s[..|s| - 1];
      CountIsSome(rest, p);
      assert forall i :: 0 <= i < |rest| ==> rest[i] == s[i];
    }
  }

  /** Exactly one element has the property. */
  ghost predicate OnlyAt<T>(s: seq<T>, p: T -> bool, i: int) {
    0 <= i < |s| && p(s[i]) && forall k :: 0 <= k < |s| && k != i ==> !p(s[k])
  }

  lemma {:induction false} CountIsOne<T>(s: seq<T>, p: T -> bool)
    ensures CountIf(s, p) == 1 <==> exists i :: OnlyAt(s, p, i)
  {
    if s != [] {
      var rest, last := s[..|s| - 1], |s| - 1;
      CountIsOne(rest, p);
      CountIsSome(rest, p);
      assert forall i :: 0 <= i < |rest| ==> rest[i] == s[i];
      if CountIf(s, p) == 1 {
        if p(s[last]) {
          assert OnlyAt(s, p, last);
        } else {
          var i :| OnlyAt(rest, p, i);
          assert OnlyAt(s, p, i);
        }
      }
      if i :| OnlyAt(s, p, i) {
        assert i < last ==> OnlyAt(rest, p, i);
      }
    }
  }
}
