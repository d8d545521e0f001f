/** Signed page cursors. */
module Cursors {
  import opened Text
  import opened Base64Url

  datatype Revision = Revision(state: int, epoch: int)

  const ANY := Revision(-1, -1)

  datatype Binding = Binding(
    schemaMajor: int, endpointID: string, queryDigest: string, scopeDigest: string, grantRevision: int,
    snapshot: Revision, evaluationAt: int)

  datatype Position = Position(sortValues: seq<string>, immutableID: string)

  datatype Decoded = Decoded(position: Position, snapshot: Revision, evaluationAt: int)

  datatype Payload = Payload(
    version: int, schemaMajor: int, endpointID: string, queryDigest: string, scopeDigest: string, grantRevision: int,
    snapshot: Revision, sortValues: seq<string>, immutableID: string, expiresAt: int, evaluationAt: string)

  /** The parts kept abstract: JSON, the keyed HMAC-SHA-256 and the RFC 3339 time format. Times are nanoseconds, and 0
      is the zero time. */
  datatype Codec = Codec(
    marshal: Payload -> string, unmarshal: string -> Option<Payload>, mac: string -> string,
    stamp: int -> string, parseStamp: string -> Option<int>)

  const MAX_CURSOR: int := 2048
  const MAX_BODY: int := 1536
  const MAC_BYTES: int := 32
  const LIFETIME: int := 900_000_000_000

  function Unix(t: int): int {
    t / 1_000_000_000
  }

  /** Everything written is bytes, and HMAC-SHA-256 yields 32 of them. */
  ghost predicate Keyed(c: Codec) {
    && (forall p :: IsBytes(c.marshal(p)))
    && (forall body :: |c.mac(body)| == MAC_BYTES && IsBytes(c.mac(body)))
  }

  predicate ValidBinding(b: Binding) {
    && b.schemaMajor == 1 && 1 <= |b.endpointID| <= 128 && 1 <= |b.queryDigest| <= 128 && 1 <= |b.scopeDigest| <= 128
    && b.grantRevision > 0 && ((b.snapshot.state >= 0 && b.snapshot.epoch >= 0) || b.snapshot == ANY)
  }

  function PayloadOf(c: Codec, b: Binding, p: Position, now: int): Payload {
    Payload(1, b.schemaMajor, b.endpointID, b.queryDigest, b.scopeDigest, b.grantRevision, b.snapshot, p.sortValues,
            p.immutableID, Unix(now + LIFETIME), if b.evaluationAt != 0 then c.stamp(b.evaluationAt) else "")
  }

  predicate ValidPosition(p: Position) {
    1 <= |p.sortValues| <= 4 && 1 <= |p.immutableID| <= 256
  }

  function EncodeCursor(c: Codec, b: Binding, p: Position, now: int): Option<string>
    requires Keyed(c)
  {
    var body := c.marshal(PayloadOf(c, b, p, now));
    if !ValidBinding(b) || !ValidPosition(p) then None
    else
      var token := Encode(body) + "." + Encode(c.mac(body));
      if |token| > MAX_CURSOR then None else Some(token)
  }

  function PayloadMatches(c: Codec, p: Payload, b: Binding, now: int): Option<Decoded> {
    var at := if p.evaluationAt == "" then Some(0) else c.parseStamp(p.evaluationAt);
    if at.None? || (p.evaluationAt != "" && p.evaluationAt != c.stamp(at.value)) then None
    else if p.version != 1 || p.schemaMajor != b.schemaMajor || p.endpointID != b.endpointID
         || p.queryDigest != b.queryDigest || p.scopeDigest != b.scopeDigest || p.grantRevision != b.grantRevision
         || (b.snapshot != ANY && p.snapshot != b.snapshot)
         || (b.evaluationAt != 0 && at.value != b.evaluationAt) || Unix(now) > p.expiresAt
         || !(1 <= |p.sortValues| <= 4) || p.immutableID == "" then None
    else Some(Decoded(Position(p.sortValues, p.immutableID), p.snapshot, at.value))
  }

  function DecodeCursor(c: Codec, token: string, b: Binding, now: int): Option<Decoded> {
    if token == "" || |token| > MAX_CURSOR || !ValidBinding(b) then None
    else
      var parts := SplitOn(token, '.');
      if |parts| != 2 then None
      else
        var body, mac := Decode(parts[0]), Decode(parts[1]);
        if body.None? || !(1 <= |body.value| <= MAX_BODY) || mac.None? || |mac.value| != MAC_BYTES
           || mac.value != c.mac(body.value) then None
        else
          var payload := c.unmarshal(body.value);
          if payload.None? then None else PayloadMatches(c, payload.value, b, now)
  }

  /** JSON and the time format give back what was written; a body is never empty. */
  ghost predicate Lawful(c: Codec, b: Binding, p: Position, now: int) {
    && Keyed(c) && c.marshal(PayloadOf(c, b, p, now)) != ""
    && c.unmarshal(c.marshal(PayloadOf(c, b, p, now))) == Some(PayloadOf(c, b, p, now))
    && (b.evaluationAt != 0 ==>
          c.stamp(b.evaluationAt) != "" && c.parseStamp(c.stamp(b.evaluationAt)) == Some(b.evaluationAt))
  }

  /** Equal except that `other` may leave the snapshot or the evaluation time open. */
  predicate Covers(other: Binding, b: Binding) {
    && ValidBinding(other) && other.schemaMajor == b.schemaMajor && other.endpointID == b.endpointID
    && other.queryDigest == b.queryDigest && other.scopeDigest == b.scopeDigest
    && other.grantRevision == b.grantRevision
    && (other.snapshot == ANY || other.snapshot == b.snapshot)
    && (other.evaluationAt == 0 || other.evaluationAt == b.evaluationAt)
  }

  /** A token of at most 2048 bytes leaves at most 1503 for the body, so the body limit never refuses an issued
      token. */
  lemma BodyFits(body: string, mac: string)
    requires IsBytes(body) && IsBytes(mac) && |mac| == MAC_BYTES && |Encode(body) + "." + Encode(mac)| <= MAX_CURSOR
    ensures |body| <= 1503 < MAX_BODY
  {
  }

  lemma TokenSplits(body: string, mac: string)
    requires IsBytes(body) && IsBytes(mac)
    ensures SplitOn(Encode(body) + "." + Encode(mac), '.') == [Encode(body), Encode(mac)]
  {
    assert '.' !in Encode(body) && '.' !in Encode(mac);
    assert Encode(body) + "." + Encode(mac) == Encode(body) + ['.'] + Encode(mac);
    SplitAtSeparator(Encode(body), Encode(mac), '.');
    SplitPlain(Encode(mac), '.');
  }

  /** An issued token is accepted under exactly the bindings that cover the one it was issued for, for its lifetime, and
      yields the position and snapshot it was issued for. */
  lemma IssuedTokenIsAccepted(c: Codec, b: Binding, p: Position, now: int, other: Binding, later: int)
    requires Lawful(c, b, p, now) && EncodeCursor(c, b, p, now).Some?
    ensures DecodeCursor(c, EncodeCursor(c, b, p, now).value, other, later) ==
      if Covers(other, b) && Unix(later) <= Unix(now + LIFETIME) then Some(Decoded(p, b.snapshot, b.evaluationAt))
      else None
  {
    var payload := PayloadOf(c, b, p, now);
    var body := c.marshal(payload);
    BodyFits(body, c.mac(body));
    TokenSplits(body, c.mac(body));
    RoundTrip(body);
    RoundTrip(c.mac(body));
  }

  // ----- every accepted token

  /** An accepted token is a body and its keyed digest, and the body is a payload of this very binding that has not
      expired; what is returned is the payload's position, snapshot and evaluation time. */
  lemma AcceptedTokenIsSigned(c: Codec, token: string, b: Binding, now: int) returns (body: string, p: Payload, at: int)
    requires DecodeCursor(c, token, b, now).Some?
    ensures Usable(b) && 1 <= |token| <= 2048 && |SplitOn(token, '.')| == 2
    ensures Decode(SplitOn(token, '.')[0]) == Some(body) && Decode(SplitOn(token, '.')[1]) == Some(c.mac(body))
    ensures |c.mac(body)| == 32 && 1 <= |body| <= 1536 && c.unmarshal(body) == Some(p)
    ensures p.version == 1 == p.schemaMajor && p.endpointID == b.endpointID && p.queryDigest == b.queryDigest
    ensures p.scopeDigest == b.scopeDigest && p.grantRevision == b.grantRevision
    ensures b.snapshot == Revision(-1, -1) || p.snapshot == b.snapshot
    ensures now / 1_000_000_000 <= p.expiresAt && 1 <= |p.sortValues| <= 4 && p.immutableID != ""
    ensures if p.evaluationAt == "" then at == 0
            else c.parseStamp(p.evaluationAt) == Some(at) && c.stamp(at) == p.evaluationAt
    ensures b.evaluationAt == 0 || at == b.evaluationAt
    ensures DecodeCursor(c, token, b, now) == Some(Decoded(Position(p.sortValues, p.immutableID), p.snapshot, at))
  {
    body := Decode(SplitOn(token, '.')[0]).value;
    p := c.unmarshal(body).value;
    at := if p.evaluationAt == "" then 0 else c.parseStamp(p.evaluationAt).value;
  }

  /** Of this schema, with an endpoint, a query and a scope of at most 128 bytes each, a grant revision, and a snapshot
      that is open or not negative. */
  predicate Usable(b: Binding) {
    && b.schemaMajor == 1 && b.grantRevision >= 1 && b.endpointID != "" && b.queryDigest != "" && b.scopeDigest != ""
    && |b.endpointID| <= 128 && |b.queryDigest| <= 128 && |b.scopeDigest| <= 128
    && (b.snapshot == Revision(-1, -1) || (b.snapshot.state >= 0 && b.snapshot.epoch >= 0))
  }

  /** A token is issued exactly for a usable binding and a position of one to four values and an id, when it fits. */
  lemma IssuedExactly(c: Codec, b: Binding, p: Position, now: int)
    requires Keyed(c)
    ensures var body := c.marshal(PayloadOf(c, b, p, now)); var token := Encode(body) + "." + Encode(c.mac(body));
      EncodeCursor(c, b, p, now) ==
      if Usable(b) && 1 <= |p.sortValues| <= 4 && 1 <= |p.immutableID| <= 256 && |token| <= 2048 then Some(token)
      else None
    ensures var q := PayloadOf(c, b, p, now);
      && q.version == 1 && q.expiresAt == (now + 900_000_000_000) / 1_000_000_000 && q.immutableID == p.immutableID
      && q.sortValues == p.sortValues && q.snapshot == b.snapshot
  {
  }
}
