/** Listing recovery points page by page through signed cursors. */
module Pages {
  import opened Text
  import opened Cursors

  /** The listed ids at one revision, in the store's byte order. */
  datatype Store = Store(ids: seq<string>, revision: Revision)

  datatype Reply = Page(items: seq<string>, next: Option<string>) | Conflict | Broken

  /** How a listing issues and accepts its cursors; RealPort below is the codec's. */
  datatype Port = Port(issue: (Revision, string, int) -> Option<string>,
                       accept: (string, int) -> Option<(Revision, string)>)

  predicate Ascending(ids: seq<string>) {
    forall i, j :: 0 <= i < j < |ids| ==> Before(ids[i], ids[j])
  }

  predicate WellKept(s: Store) {
    && Ascending(s.ids)
    && forall i :: 0 <= i < |s.ids| ==> PathToken(s.ids[i])
  }

  // ----- one request

  /** `point_id > after ORDER BY point_id`. */
  function Following(ids: seq<string>, after: string): seq<string> {
    if ids == [] then [] else (if Before(after, ids[0]) then [ids[0]] else []) + Following(ids[1..], after)
  }

  function Listed(ids: seq<string>, after: string, limit: nat): seq<string> {
    var rest := Following(ids, after);
    if |rest| > limit then rest[..limit] else rest
  }

  /** At most `limit` ids, and whether another follows. */
  function PageItems(ids: seq<string>, after: string, limit: nat): (seq<string>, bool) {
    var found := Listed(ids, after, limit + 1);
    if |found| > limit then (found[..limit], true) else (found, false)
  }

  /** The snapshot and the id to continue after. */
  function PageRequest(port: Port, current: Store, cursor: string, now: int): Option<(Revision, string)> {
    if cursor == "" then Some((current.revision, "")) else port.accept(cursor, now)
  }

  function Finished(port: Port, snapshot: Revision, items: seq<string>, hasMore: bool, now: int): Reply {
    if !hasMore then Page(items, None)
    else
      var last := if items == [] then "" else items[|items| - 1];
      if !PathToken(last) then Broken
      else
        var token := port.issue(snapshot, last, now);
        if token.None? then Conflict else Page(items, token)
  }

  /** One page. The revision and the list are read at different times, so the store may differ between them. */
  function Serve(port: Port, limit: nat, current: Store, listed: Store, cursor: string, now: int): Reply {
    var page := PageRequest(port, current, cursor, now);
    if page.None? || listed.revision != page.value.0 then Conflict
    else
      var (items, hasMore) := PageItems(listed.ids, page.value.1, limit);
      Finished(port, page.value.0, items, hasMore, now)
  }

  // ----- what one page holds

  lemma {:induction false} FollowingAll(ids: seq<string>, after: string)
    requires forall i :: 0 <= i < |ids| ==> Before(after, ids[i])
    ensures Following(ids, after) == ids
  {
    if ids != [] {
      FollowingAll(ids[1..], after);
      assert ids == [ids[0]] + ids[1..];
    }
  }

  /** The ids after the p-th are the rest of the list. */
  lemma {:induction false} FollowingRest(ids: seq<string>, p: nat)
    requires Ascending(ids) && 0 < p <= |ids|
    ensures Following(ids, ids[p - 1]) == ids[p..]
  {
    var after := ids[p - 1];
    BeforeIsTotal(after, ids[0]);
    if p == 1 {
      FollowingAll(ids[1..], after);
    } else {
      assert Before(ids[0], ids[p - 1]);
      FollowingRest(ids[1..], p - 1);
      assert ids[1..][p - 1..] == ids[p..];
    }
  }

  function AfterID(ids: seq<string>, p: nat): string
    requires p <= |ids|
  {
    if p == 0 then "" else ids[p - 1]
  }

  function EndOf(ids: seq<string>, p: nat, limit: nat): nat {
    if p + limit < |ids| then p + limit else |ids|
  }

  lemma ItemsAt(s: Store, p: nat, limit: nat)
    requires WellKept(s) && p <= |s.ids|
    ensures PageItems(s.ids, AfterID(s.ids, p), limit) ==
      (s.ids[p..EndOf(s.ids, p, limit)], EndOf(s.ids, p, limit) < |s.ids|)
  {
    if p == 0 {
      FollowingAll(s.ids, "");
    } else {
      FollowingRest(s.ids, p);
    }
    var found := Listed(s.ids, AfterID(s.ids, p), limit + 1);
    assert found == s.ids[p..][..|found|];
    if EndOf(s.ids, p, limit) < |s.ids| {
      assert |found| == limit + 1 && found == s.ids[p..p + limit + 1];
      assert found[..limit] == s.ids[p..p + limit];
    } else {
      assert found == s.ids[p..] == s.ids[p..EndOf(s.ids, p, limit)];
    }
  }

  // ----- cursors of a snapshot

  /** Clock readings are finitely many, so a token of bounded size can tell them apart. */
  predicate Instant(t: int) {
    0 <= t < 0x8000_0000_0000_0000
  }

  predicate InTime(at: int, now: int) {
    Unix(now) <= Unix(at + LIFETIME)
  }

  /** A cursor for `id` can be issued at `at`, and is accepted for its lifetime, for what it was issued for. */
  ghost predicate Issues(port: Port, revision: Revision, id: string, at: int) {
    var token := port.issue(revision, id, at);
    && token.Some? && token.value != ""
    && forall now :: port.accept(token.value, now) == if InTime(at, now) then Some((revision, id)) else None
  }

  ghost predicate Faithful(port: Port, s: Store) {
    forall p, at :: 0 <= p < |s.ids| && Instant(at) ==> Issues(port, s.revision, s.ids[p], at)
  }

  /** The cursor that continues after the first p ids of a snapshot, issued at `at`. */
  predicate ContinuesAt(port: Port, s: Store, p: nat, cursor: string, at: int) {
    && p <= |s.ids| && Instant(at)
    && if p == 0 then cursor == "" else port.issue(s.revision, s.ids[p - 1], at) == Some(cursor)
  }

  lemma PageStateOf(port: Port, s: Store, current: Store, p: nat, cursor: string, at: int, now: int)
    requires Faithful(port, s) && ContinuesAt(port, s, p, cursor, at) && (p == 0 ==> current == s)
    ensures PageRequest(port, current, cursor, now) ==
      if p == 0 || InTime(at, now) then Some((s.revision, AfterID(s.ids, p))) else None
  {
    if p > 0 {
      assert Issues(port, s.revision, s.ids[p - 1], at);
    }
  }

  /** The next ids, with a cursor that continues after them exactly while more remain. */
  predicate NextSlice(port: Port, s: Store, limit: nat, p: nat, now: int, reply: Reply)
    requires p <= |s.ids|
  {
    var end := EndOf(s.ids, p, limit);
    && reply.Page? && reply.items == s.ids[p..end] && (reply.next.Some? <==> end < |s.ids|)
    && (reply.next.Some? ==> ContinuesAt(port, s, end, reply.next.value, now))
  }

  lemma PageIsNextSlice(port: Port, limit: nat, s: Store, p: nat, cursor: string, at: int, now: int)
    requires Faithful(port, s) && WellKept(s) && limit >= 1 && ContinuesAt(port, s, p, cursor, at) && InTime(at, now)
    requires Instant(now)
    ensures NextSlice(port, s, limit, p, now, Serve(port, limit, s, s, cursor, now))
  {
    PageStateOf(port, s, s, p, cursor, at, now);
    ItemsAt(s, p, limit);
    var end := EndOf(s.ids, p, limit);
    if end < |s.ids| {
      assert s.ids[p..end][|s.ids[p..end]| - 1] == s.ids[end - 1];
      assert PathToken(s.ids[end - 1]);
      assert Issues(port, s.revision, s.ids[end - 1], now);
    }
  }

  // ----- the whole walk

  /** Everything the pages from `cursor` on return, following next-cursors for at most `rounds` requests, and whether
      the last page was reached. `serve(k, _)` answers the k-th request. */
  function Follow(serve: (nat, string) -> Reply, k: nat, cursor: string, rounds: nat): (seq<string>, bool)
    decreases rounds
  {
    if rounds == 0 then ([], false)
    else
      var reply := serve(k, cursor);
      if !reply.Page? then ([], false)
      else if reply.next.None? then (reply.items, true)
      else
        var (rest, ended) := Follow(serve, k + 1, reply.next.value, rounds - 1);
        (reply.items + rest, ended)
  }

  predicate StepAt(clock: nat -> int, k: nat) {
    Instant(clock(k)) && InTime(clock(k), clock(k + 1))
  }

  /** Each request comes within the lifetime of a cursor issued by the one before. */
  ghost predicate InStep(clock: nat -> int) {
    forall k: nat :: StepAt(clock, k)
  }

  /** Whenever the k-th request, at `now`, carries a live cursor for position p, it gets the next slice. */
  ghost predicate Slices(serve: (nat, string) -> Reply, port: Port, s: Store, limit: nat, k: nat, p: nat,
                         cursor: string, at: int, now: int) {
    ContinuesAt(port, s, p, cursor, at) && InTime(at, now) ==> NextSlice(port, s, limit, p, now, serve(k, cursor))
  }

  lemma {:induction false} FollowFrom(serve: (nat, string) -> Reply, port: Port, limit: nat, s: Store,
                                      clock: nat -> int, k: nat, p: nat, cursor: string, at: int, rounds: nat)
    requires forall k: nat, p: nat, cursor, at :: Slices(serve, port, s, limit, k, p, cursor, at, clock(k))
    requires limit >= 1 && InStep(clock) && ContinuesAt(port, s, p, cursor, at) && InTime(at, clock(k))
    requires rounds > |s.ids| - p
    ensures Follow(serve, k, cursor, rounds) == (s.ids[p..], true)
    decreases rounds
  {
    assert StepAt(clock, k) && Slices(serve, port, s, limit, k, p, cursor, at, clock(k));
    var end := EndOf(s.ids, p, limit);
    assert s.ids[p..end] + s.ids[end..] == s.ids[p..];
    if end < |s.ids| {
      FollowFrom(serve, port, limit, s, clock, k + 1, end, serve(k, cursor).next.value, clock(k), rounds - 1);
    } else {
      assert s.ids[p..end] == s.ids[p..];
    }
  }

  /** Following next-cursors over one snapshot visits every id exactly once, in order, and ends, provided each request
      comes within the lifetime of the cursor it follows. */
  lemma WalkVisitsEverythingOnce(serve: (nat, string) -> Reply, port: Port, limit: nat, s: Store, clock: nat -> int)
    requires Faithful(port, s) && WellKept(s) && limit >= 1 && InStep(clock)
    requires forall k: nat, cursor :: serve(k, cursor) == Serve(port, limit, s, s, cursor, clock(k))
    ensures Follow(serve, 0, "", |s.ids| + 1) == (s.ids, true)
    ensures forall i, j :: 0 <= i < j < |s.ids| ==> s.ids[i] != s.ids[j]
  {
    forall k: nat, p: nat, cursor, at ensures Slices(serve, port, s, limit, k, p, cursor, at, clock(k)) {
      if ContinuesAt(port, s, p, cursor, at) && InTime(at, clock(k)) {
        assert StepAt(clock, k);
        PageIsNextSlice(port, limit, s, p, cursor, at, clock(k));
      }
    }
    assert StepAt(clock, 0) && InTime(clock(0), clock(0));
    FollowFrom(serve, port, limit, s, clock, 0, 0, "", clock(0), |s.ids| + 1);
    forall i, j | 0 <= i < j < |s.ids| ensures s.ids[i] != s.ids[j] {
      BeforeIsTotal(s.ids[i], s.ids[j]);
    }
  }

  // ----- walks over a store that changes meanwhile

  /** With any store behind the request: the next slice of the snapshot the cursor belongs to, or no page at all. */
  lemma PageOrRefusal(port: Port, limit: nat, s: Store, p: nat, cursor: string, at: int, current: Store, listed: Store,
                      now: int)
    requires Faithful(port, s) && WellKept(s) && limit >= 1 && ContinuesAt(port, s, p, cursor, at) && Instant(now)
    requires p == 0 ==> current == s
    requires listed.revision == s.revision ==> listed == s
    ensures var reply := Serve(port, limit, current, listed, cursor, now);
      reply.Page? ==> NextSlice(port, s, limit, p, now, reply)
  {
    PageStateOf(port, s, current, p, cursor, at, now);
    if listed == s && (p == 0 || InTime(at, now)) {
      ItemsAt(s, p, limit);
      var end := EndOf(s.ids, p, limit);
      if end < |s.ids| {
        assert s.ids[p..end][|s.ids[p..end]| - 1] == s.ids[end - 1];
        assert PathToken(s.ids[end - 1]);
        assert Issues(port, s.revision, s.ids[end - 1], now);
      }
    }
  }

  ghost predicate SlicesOrRefuses(serve: (nat, string) -> Reply, port: Port, s: Store, limit: nat, k: nat, p: nat,
                                  cursor: string, at: int, now: int) {
    && Instant(now)
    && (ContinuesAt(port, s, p, cursor, at) && (p == 0 ==> k == 0) && serve(k, cursor).Page? ==>
          NextSlice(port, s, limit, p, now, serve(k, cursor)))
  }

  lemma {:induction false} FollowChanging(serve: (nat, string) -> Reply, port: Port, limit: nat, s: Store,
                                          clock: nat -> int, k: nat, p: nat, cursor: string, at: int, rounds: nat)
    requires forall k: nat, p: nat, cursor, at :: SlicesOrRefuses(serve, port, s, limit, k, p, cursor, at, clock(k))
    requires limit >= 1 && ContinuesAt(port, s, p, cursor, at) && (p == 0 ==> k == 0)
    ensures var (rest, ended) := Follow(serve, k, cursor, rounds);
      rest <= s.ids[p..] && (ended ==> rest == s.ids[p..])
    decreases rounds
  {
    assert SlicesOrRefuses(serve, port, s, limit, k, p, cursor, at, clock(k));
    var reply := serve(k, cursor);
    if rounds > 0 && reply.Page? {
      var end := EndOf(s.ids, p, limit);
      assert s.ids[p..end] + s.ids[end..] == s.ids[p..];
      if reply.next.Some? {
        FollowChanging(serve, port, limit, s, clock, k + 1, end, reply.next.value, clock(k), rounds - 1);
      } else {
        assert s.ids[p..end] == s.ids[p..];
      }
    }
  }

  /** Whatever store is behind each request, as long as one revision means one list: a walk returns a prefix of the ids
      of the snapshot it started in, nothing skipped and nothing repeated, and it reaches an end only with all of
      them. */
  lemma WalkNeverSkips(serve: (nat, string) -> Reply, port: Port, limit: nat, current: nat -> Store,
                       listed: nat -> Store, clock: nat -> int, rounds: nat)
    requires Faithful(port, current(0)) && WellKept(current(0)) && limit >= 1 && forall k: nat :: Instant(clock(k))
    requires forall k: nat :: listed(k).revision == current(0).revision ==> listed(k) == current(0)
    requires forall k: nat, cursor :: serve(k, cursor) == Serve(port, limit, current(k), listed(k), cursor, clock(k))
    ensures var (visited, ended) := Follow(serve, 0, "", rounds);
      visited <= current(0).ids && (ended ==> visited == current(0).ids)
  {
    var s := current(0);
    forall k: nat, p: nat, cursor, at ensures SlicesOrRefuses(serve, port, s, limit, k, p, cursor, at, clock(k)) {
      assert Instant(clock(k));
      if ContinuesAt(port, s, p, cursor, at) && (p == 0 ==> k == 0) {
        PageOrRefusal(port, limit, s, p, cursor, at, current(k), listed(k), clock(k));
      }
    }
    FollowChanging(serve, port, limit, s, clock, 0, 0, "", clock(0), rounds);
    assert s.ids[0..] == s.ids;
  }

  /** Once the revision has moved on, a continued walk gets a conflict, never a page; so does a first page whose two
      reads straddle the change. */
  lemma MovedRevisionConflicts(port: Port, limit: nat, s: Store, p: nat, cursor: string, at: int, current: Store,
                               listed: Store, now: int)
    requires Faithful(port, s) && ContinuesAt(port, s, p, cursor, at) && (p == 0 ==> current == s)
    requires listed.revision != s.revision
    ensures Serve(port, limit, current, listed, cursor, now) == Conflict
  {
    PageStateOf(port, s, current, p, cursor, at, now);
  }

  // ----- the codec behind the port

  datatype Query = Query(endpointID: string, queryDigest: string, scopeDigest: string, grantRevision: int)

  function BindingFor(q: Query, snapshot: Revision): Binding {
    Binding(1, q.endpointID, q.queryDigest, q.scopeDigest, q.grantRevision, snapshot, 0)
  }

  function IssueWith(c: Codec, q: Query, revision: Revision, id: string, now: int): Option<string>
    requires Keyed(c)
  {
    EncodeCursor(c, BindingFor(q, revision), Position([id], id), now)
  }

  function AcceptWith(c: Codec, q: Query, cursor: string, now: int): Option<(Revision, string)> {
    var decoded := DecodeCursor(c, cursor, BindingFor(q, ANY), now);
    if decoded.None? then None
    else
      var p := decoded.value.position;
      if |p.sortValues| != 1 || p.immutableID == "" || p.sortValues[0] != p.immutableID || !PathToken(p.immutableID)
      then None
      else Some((decoded.value.snapshot, p.immutableID))
  }

  ghost predicate RealPort(port: Port, c: Codec, q: Query) {
    && Keyed(c)
    && (forall revision, id, now :: port.issue(revision, id, now) == IssueWith(c, q, revision, id, now))
    && (forall cursor, now :: port.accept(cursor, now) == AcceptWith(c, q, cursor, now))
  }

  /** JSON gives back what was written, and a token for this id stays within the cursor limit. */
  ghost predicate Expressible(c: Codec, q: Query, revision: Revision, id: string, at: int) {
    && Lawful(c, BindingFor(q, revision), Position([id], id), at)
    && IssueWith(c, q, revision, id, at).Some?
  }

  /** The signed cursors are a faithful port for every listing whose tokens fit. */
  lemma RealPortIsFaithful(port: Port, c: Codec, q: Query, s: Store)
    requires RealPort(port, c, q) && WellKept(s) && ValidBinding(BindingFor(q, ANY))
    requires forall p, at :: 0 <= p < |s.ids| && Instant(at) ==> Expressible(c, q, s.revision, s.ids[p], at)
    ensures Faithful(port, s)
  {
    forall p, at | 0 <= p < |s.ids| && Instant(at) ensures Issues(port, s.revision, s.ids[p], at) {
      assert Expressible(c, q, s.revision, s.ids[p], at);
      RealTokenIsAccepted(port, c, q, s.revision, s.ids[p], at);
    }
  }

  lemma RealTokenIsAccepted(port: Port, c: Codec, q: Query, revision: Revision, id: string, at: int)
    requires RealPort(port, c, q) && ValidBinding(BindingFor(q, ANY)) && PathToken(id)
    requires Expressible(c, q, revision, id, at)
    ensures Issues(port, revision, id, at)
  {
    var token := IssueWith(c, q, revision, id, at).value;
    assert port.issue(revision, id, at) == Some(token);
    TokenIsNotEmpty(c, BindingFor(q, revision), Position([id], id), at);
    forall now ensures port.accept(token, now) == if InTime(at, now) then Some((revision, id)) else None {
      IssuedTokenIsAccepted(c, BindingFor(q, revision), Position([id], id), at, BindingFor(q, ANY), now);
    }
  }

  lemma TokenIsNotEmpty(c: Codec, b: Binding, p: Position, now: int)
    requires Keyed(c) && EncodeCursor(c, b, p, now).Some?
    ensures EncodeCursor(c, b, p, now).value != ""
  {
  }

  /** A cursor is accepted exactly when its token decodes to one sort value that is also the id, a path token. */
  lemma AcceptedCursorNamesAnID(c: Codec, q: Query, cursor: string, now: int, revision: Revision, id: string)
    ensures AcceptWith(c, q, cursor, now) == Some((revision, id)) <==>
      && PathToken(id)
      && exists at :: DecodeCursor(c, cursor, BindingFor(q, ANY), now) ==
                      Some(Decoded(Position([id], id), revision, at))
  {
    var decoded := DecodeCursor(c, cursor, BindingFor(q, ANY), now);
    if AcceptWith(c, q, cursor, now) == Some((revision, id)) {
      var p := decoded.value.position;
      assert p.sortValues == [id];
      assert decoded == Some(Decoded(Position([id], id), revision, decoded.value.evaluationAt));
    }
  }
}
