/** Listing a repository through the custody child and supervisor, a page of 64 objects at a time. */
module CustodyPaging {
  import opened Text
  import opened InventoryDigests
  import opened CustodyVerify

  /** A Go slice: its length fits an int. */
  type Inventory = s: seq<ExpectedObject> | |s| < TWO_63

  datatype Page = Page(objects: seq<ExpectedObject>, next: Int64, done: bool)

  const PAGE_SIZE: int := 64

  // ----- the serving side, used by the child and by the supervisor

  function ServePage(inventory: Option<Inventory>, cursor: Int64): Option<Page> {
    if inventory.None? || cursor < 0 || cursor > |inventory.value| then None
    else
      var end := if cursor + PAGE_SIZE > |inventory.value| then |inventory.value| else cursor + PAGE_SIZE;
      Some(Page(inventory.value[cursor..end], end, end == |inventory.value|))
  }

  predicate WithinBounds(objects: seq<ExpectedObject>, maxObjects: Int64, maxBytes: Int64) {
    |objects| <= maxObjects && Total(objects) <= maxBytes
  }

  predicate CountedSizes(objects: seq<ExpectedObject>) {
    forall i :: 0 <= i < |objects| ==> objects[i].bytes >= 0
  }

  /** What the child answers from: its repository, when within the session's bounds. */
  function Offered(objects: Inventory, maxObjects: Int64, maxBytes: Int64): Option<Inventory> {
    if WithinBounds(objects, maxObjects, maxBytes) then Some(objects) else None
  }

  /** The child's own listing. Sizes are counts of bytes read, and a session with a bound below one is never started. */
  method CustodyInventory(objects: Inventory, maxObjects: Int64, maxBytes: Int64) returns (inventory: Option<Inventory>)
    requires CountedSizes(objects) && maxObjects > 0 && maxBytes > 0
    ensures inventory == Offered(objects, maxObjects, maxBytes)
  {
    if |objects| > maxObjects {
      return None;
    }
    var bytes: Int64 := 0;
    for i := 0 to |objects|
      invariant 0 <= bytes <= maxBytes && bytes == Total(objects[..i])
    {
      assert objects[..i + 1][..i] == objects[..i];
      if objects[i].bytes > maxBytes - bytes {
        TotalRises(objects, i + 1);
        return None;
      }
      bytes := bytes + objects[i].bytes;
    }
    assert objects[..|objects|] == objects;
    inventory := Some(objects);
  }

  lemma {:induction false} TotalRises(objects: seq<ExpectedObject>, i: nat)
    requires i <= |objects| && CountedSizes(objects)
    ensures Total(objects[..i]) <= Total(objects)
    decreases |objects| - i
  {
    if i == |objects| {
      assert objects[..i] == objects;
    } else {
      assert objects[..i + 1][..i] == objects[..i];
      TotalRises(objects, i + 1);
    }
  }

  // ----- the asking side

  /** What the other side answers to the k-th request; nothing is assumed of it. */
  type Replies = (nat, Int64) -> Option<Page>

  predicate Progress(page: Page, cursor: Int64) {
    page.next >= cursor && (page.done || page.next > cursor)
  }

  function Collect(replies: Replies, maxObjects: Int64, k: nat, cursor: Int64,
                   sofar: seq<ExpectedObject>): (r: Option<seq<ExpectedObject>>)
    ensures r.Some? ==> |sofar| <= |r.value| <= maxObjects && r.value[..|sofar|] == sofar
    decreases TWO_63 - cursor
  {
    var page := replies(k, cursor);
    if page.None? || !Progress(page.value, cursor) then None
    else
      var all := sofar + page.value.objects;
      if |all| > maxObjects then None
      else if page.value.done then Some(all)
      else Collect(replies, maxObjects, k + 1, page.value.next, all)
  }

  /** The client loop: whatever is answered, it ends, and returns at most the session's number of objects. */
  method ListInventory(replies: Replies, maxObjects: Int64) returns (result: Option<seq<ExpectedObject>>)
    ensures result == Collect(replies, maxObjects, 0, 0, [])
    ensures result.Some? ==> |result.value| <= maxObjects
  {
    var all: seq<ExpectedObject> := [];
    var cursor: Int64 := 0;
    var k := 0;
    while true
      invariant Collect(replies, maxObjects, 0, 0, []) == Collect(replies, maxObjects, k, cursor, all)
      decreases TWO_63 - cursor
    {
      var page := replies(k, cursor);
      if page.None? || page.value.next < cursor || (!page.value.done && page.value.next <= cursor) {
        return None;
      }
      all := all + page.value.objects;
      if |all| > maxObjects {
        return None;
      }
      if page.value.done {
        return Some(all);
      }
      cursor := page.value.next;
      k := k + 1;
    }
    result := None;
  }

  // ----- one level, then two

  /** Every request is answered from the same listing. */
  ghost predicate AnsweredFrom(replies: Replies, inventory: Option<Inventory>) {
    forall k, cursor :: replies(k, cursor) == ServePage(inventory, cursor)
  }

  lemma {:induction false} CollectsRest(replies: Replies, objects: Inventory, maxObjects: Int64, k: nat, cursor: Int64)
    requires AnsweredFrom(replies, Some(objects)) && 0 <= cursor <= |objects|
    ensures Collect(replies, maxObjects, k, cursor, objects[..cursor]) ==
      if |objects| <= maxObjects then Some(objects) else None
    decreases |objects| - cursor
  {
    var page := ServePage(Some(objects), cursor).value;
    assert replies(k, cursor) == Some(page);
    assert objects[..cursor] + page.objects == objects[..page.next];
    if page.done {
      assert objects[..page.next] == objects;
    } else {
      CollectsRest(replies, objects, maxObjects, k + 1, page.next);
    }
  }

  /** Paging through an unchanged listing returns exactly it, in order, when it is within bounds, and an error when
      not. */
  lemma PagingIsExact(replies: Replies, inventory: Option<Inventory>, maxObjects: Int64)
    requires AnsweredFrom(replies, inventory)
    ensures Collect(replies, maxObjects, 0, 0, []) ==
      if inventory.Some? && |inventory.value| <= maxObjects then Some(inventory.value) else None
  {
    assert replies(0, 0) == ServePage(inventory, 0);
    if inventory.Some? {
      assert inventory.value[..0] == [];
      CollectsRest(replies, inventory.value, maxObjects, 0, 0);
    }
  }

  /** The supervisor answers each page from a fresh listing of its own through the child. */
  ghost predicate AnsweredThrough(outer: Replies, inner: nat -> Replies, maxObjects: Int64) {
    forall k, cursor :: outer(k, cursor) == ServePage(Listing(inner(k), maxObjects), cursor)
  }

  function Listing(replies: Replies, maxObjects: Int64): Option<Inventory> {
    var all := Collect(replies, maxObjects, 0, 0, []);
    if all.Some? then Some(all.value) else None
  }

  /** Through supervisor and child, the controller receives exactly the child's repository when it is within the
      session's bounds, and an error otherwise. */
  lemma TwoLevelsAreExact(outer: Replies, inner: nat -> Replies, objects: Inventory, maxObjects: Int64, maxBytes: Int64)
    requires forall k :: AnsweredFrom(inner(k), Offered(objects, maxObjects, maxBytes))
    requires AnsweredThrough(outer, inner, maxObjects)
    ensures Collect(outer, maxObjects, 0, 0, []) ==
      if WithinBounds(objects, maxObjects, maxBytes) then Some(objects) else None
  {
    var offered := Offered(objects, maxObjects, maxBytes);
    forall k, cursor ensures outer(k, cursor) == ServePage(offered, cursor) {
      assert AnsweredFrom(inner(k), offered);
      PagingIsExact(inner(k), offered, maxObjects);
    }
    assert AnsweredFrom(outer, offered);
    PagingIsExact(outer, offered, maxObjects);
  }

  // ----- refusals

  /** The sizes from the front. */
  function SumOfSizes(objects: seq<ExpectedObject>): int {
    if objects == [] then 0 else objects[0].bytes + SumOfSizes(objects[1..])
  }

  lemma {:induction false} SumOfTwo(a: seq<ExpectedObject>, b: ExpectedObject)
    ensures SumOfSizes(a + [b]) == SumOfSizes(a) + b.bytes
  {
    if a != [] {
      SumOfTwo(a[1..], b);
      assert (a + [b])[1..] == a[1..] + [b];
    } else {
      assert a + [b] == [b];
    }
  }

  lemma {:induction false} SumsAgree(objects: seq<ExpectedObject>)
    ensures SumOfSizes(objects) == Total(objects)
  {
    if objects != [] {
      SumsAgree(objects[..|objects| - 1]);
      SumOfTwo(objects[..|objects| - 1], objects[|objects| - 1]);
      assert objects[..|objects| - 1] + [objects[|objects| - 1]] == objects;
    }
  }

  /** A repository is offered exactly when neither its objects nor their sizes exceed the session's bounds. */
  lemma OfferedExactly(objects: Inventory, maxObjects: Int64, maxBytes: Int64)
    ensures Offered(objects, maxObjects, maxBytes) ==
            if |objects| <= maxObjects && SumOfSizes(objects) <= maxBytes then Some(objects) else None
  {
    SumsAgree(objects);
  }

  /** A page that goes back, or that neither ends nor goes on, refuses the whole listing. */
  lemma StalledPageIsRefused(replies: Replies, maxObjects: Int64, k: nat, cursor: Int64, sofar: seq<ExpectedObject>)
    requires replies(k, cursor).Some?
    requires var page := replies(k, cursor).value; page.next < cursor || (!page.done && page.next == cursor)
    ensures Collect(replies, maxObjects, k, cursor, sofar).None?
  {
  }
}
