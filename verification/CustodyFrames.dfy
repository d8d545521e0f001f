/** Length-prefixed custody frames over a byte stream that may deliver its bytes in any pieces. */
module CustodyFrames {
  import opened Text
  import opened InventoryDigests

  datatype Frame = Frame(verb: string, nonceDigest: string, payload: string, ok: bool, code: string)

  /** The JSON encoder and strict decoder, kept abstract. */
  type Encoder = Frame -> string
  type Decoder = string -> Option<Frame>

  const MAX_FRAME: int := 65536

  // ----- streams

  function Joined(chunks: seq<string>): string {
    if chunks == [] then "" else chunks[0] + Joined(chunks[1..])
  }

  /** An io.Reader: each read takes from the front of the next piece; no pieces left is the end of the stream. */
  class Stream {
    var chunks: seq<string>

    constructor (pieces: seq<string>)
      ensures chunks == pieces
    {
      chunks := pieces;
    }

    ghost function Content(): string
      reads this
    {
      Joined(chunks)
    }

    method Read(limit: nat) returns (data: string, eof: bool)
      modifies this
      ensures old(chunks) == [] <==> eof
      ensures eof ==> data == "" && chunks == []
      ensures |data| <= limit && old(Content()) == data + Content()
      ensures !eof ==> |chunks| < |old(chunks)| || (|chunks| == |old(chunks)| && |data| == limit)
    {
      if chunks == [] {
        return "", true;
      }
      eof := false;
      var first := chunks[0];
      if |first| <= limit {
        data := first;
        chunks := chunks[1..];
      } else {
        data := first[..limit];
        chunks := [first[limit..]] + chunks[1..];
        assert chunks[1..] == old(chunks)[1..];
        assert first == data + first[limit..];
      }
    }

    /** io.ReadFull: exactly `count` bytes, or failure when the stream ends first. */
    method ReadFull(count: nat) returns (data: Option<string>)
      modifies this
      ensures data.Some? <==> |old(Content())| >= count
      ensures data.Some? ==> data.value == old(Content())[..count] && Content() == old(Content())[count..]
    {
      var got := "";
      while |got| < count
        invariant |got| <= count && old(Content()) == got + Content()
        decreases |chunks|, count - |got|
      {
        var more, eof := Read(count - |got|);
        if eof {
          return None;
        }
        assert old(Content()) == got + (more + Content());
        got := got + more;
      }
      data := Some(got);
    }
  }

  // ----- one frame

  function SizeBytes(n: nat): string {
    BigEndian(n, 4)
  }

  function SizeOf(s: string): int
    requires |s| == 4
  {
    ((s[0] as int * 256 + s[1] as int) * 256 + s[2] as int) * 256 + s[3] as int
  }

  lemma SizeRoundTrip(n: nat)
    requires n < 0x1_0000_0000
    ensures SizeOf(SizeBytes(n)) == n
  {
    var s := SizeBytes(n);
    assert BigEndian(n, 4) == BigEndian(n / 256, 3) + [(n % 256) as char];
    assert BigEndian(n / 256, 3) == BigEndian(n / 256 / 256, 2) + [(n / 256 % 256) as char];
    assert BigEndian(n / 256 / 256, 2) == BigEndian(n / 256 / 256 / 256, 1) + [(n / 256 / 256 % 256) as char];
    assert BigEndian(n / 256 / 256 / 256, 1) ==
           BigEndian(n / 256 / 256 / 256 / 256, 0) + [(n / 256 / 256 / 256 % 256) as char];
    assert s[3] as int == n % 256 && s[2] as int == n / 256 % 256 && s[1] as int == n / 256 / 256 % 256;
    assert s[0] as int == n / 256 / 256 / 256 % 256 == n / 256 / 256 / 256;
  }

  predicate Writable(enc: Encoder, f: Frame) {
    1 <= |enc(f)| <= MAX_FRAME
  }

  function Written(enc: Encoder, f: Frame): string {
    SizeBytes(|enc(f)|) + enc(f)
  }

  method WriteCustodyFrame(enc: Encoder, f: Frame) returns (written: Option<string>)
    ensures written == if Writable(enc, f) then Some(Written(enc, f)) else None
  {
    var body := enc(f);
    if |body| == 0 || |body| > MAX_FRAME {
      return None;
    }
    var n := |body|;
    var size := [(n / 0x1000000 % 256) as char, (n / 0x10000 % 256) as char, (n / 0x100 % 256) as char,
                 (n % 256) as char];
    SizeWritten(n);
    written := Some(size + body);
  }

  lemma SizeWritten(n: nat)
    ensures SizeBytes(n) == [(n / 0x1000000 % 256) as char, (n / 0x10000 % 256) as char, (n / 0x100 % 256) as char,
                             (n % 256) as char]
  {
    assert n / 256 / 256 == n / 0x10000 && n / 256 / 256 / 256 == n / 0x1000000;
    assert BigEndian(n / 256 / 256 / 256, 1) ==
           BigEndian(n / 256 / 256 / 256 / 256, 0) + [(n / 256 / 256 / 256 % 256) as char];
    assert BigEndian(n / 256 / 256, 2) == BigEndian(n / 256 / 256 / 256, 1) + [(n / 256 / 256 % 256) as char];
    assert BigEndian(n / 256, 3) == BigEndian(n / 256 / 256, 2) + [(n / 256 % 256) as char];
  }

  predicate Acceptable(f: Frame) {
    f.verb != "" && |f.nonceDigest| == 71
  }

  /** The frame at the front of the bytes, and how many bytes it takes. */
  function FrontFrame(dec: Decoder, bytes: string): Option<(Frame, nat)> {
    if |bytes| < 4 then None
    else
      var n := SizeOf(bytes[..4]);
      if n <= 0 || n > MAX_FRAME || |bytes| < 4 + n then None
      else
        var f := dec(bytes[4..4 + n]);
        if f.None? || !Acceptable(f.value) then None else Some((f.value, 4 + n))
  }

  /** What is read depends on the bytes alone, not on the pieces they come in. */
  method ReadCustodyFrame(dec: Decoder, input: Stream) returns (frame: Option<Frame>)
    modifies input
    ensures var front := FrontFrame(dec, old(input.Content()));
      && frame.Some? == front.Some?
      && (front.Some? ==> frame == Some(front.value.0) && front.value.1 <= |old(input.Content())|
                          && input.Content() == old(input.Content())[front.value.1..])
  {
    ghost var bytes := input.Content();
    var size := input.ReadFull(4);
    if size.None? {
      return None;
    }
    var n := SizeOf(size.value);
    if n <= 0 || n > MAX_FRAME {
      return None;
    }
    var body := input.ReadFull(n);
    if body.None? {
      return None;
    }
    assert bytes[4..][..n] == bytes[4..4 + n] && bytes[4..][n..] == bytes[4 + n..];
    var f := dec(body.value);
    if f.None? || f.value.verb == "" || |f.value.nonceDigest| != 71 {
      return None;
    }
    frame := f;
  }

  // ----- frames back to back

  predicate Sendable(enc: Encoder, dec: Decoder, f: Frame) {
    Writable(enc, f) && Acceptable(f) && dec(enc(f)) == Some(f)
  }

  function AllWritten(enc: Encoder, frames: seq<Frame>): string {
    if frames == [] then "" else Written(enc, frames[0]) + AllWritten(enc, frames[1..])
  }

  lemma FrontOfWritten(enc: Encoder, dec: Decoder, f: Frame, rest: string)
    requires Sendable(enc, dec, f)
    ensures FrontFrame(dec, Written(enc, f) + rest) == Some((f, |Written(enc, f)|))
    ensures (Written(enc, f) + rest)[|Written(enc, f)|..] == rest
  {
    var bytes := Written(enc, f) + rest;
    assert bytes[..4] == SizeBytes(|enc(f)|);
    SizeRoundTrip(|enc(f)|);
    assert bytes[4..4 + |enc(f)|] == enc(f);
  }

  /** A frame cut short anywhere is not read. */
  lemma CutFrameIsRefused(enc: Encoder, dec: Decoder, f: Frame, k: nat)
    requires Writable(enc, f) && k < |Written(enc, f)|
    ensures FrontFrame(dec, Written(enc, f)[..k]).None?
  {
    if k >= 4 {
      assert Written(enc, f)[..k][..4] == SizeBytes(|enc(f)|);
      SizeRoundTrip(|enc(f)|);
    }
  }

  function Fronts(dec: Decoder, bytes: string, count: nat): seq<Frame> {
    if count == 0 then []
    else
      var front := FrontFrame(dec, bytes);
      if front.None? then [] else [front.value.0] + Fronts(dec, bytes[front.value.1..], count - 1)
  }

  lemma FrontsStep(dec: Decoder, bytes: string, count: nat, front: Option<(Frame, nat)>)
    requires count > 0 && front == FrontFrame(dec, bytes)
    ensures front.None? ==> Fronts(dec, bytes, count) == []
    ensures front.Some? ==>
      && front.value.1 <= |bytes|
      && Fronts(dec, bytes, count) == [front.value.0] + Fronts(dec, bytes[front.value.1..], count - 1)
  {
  }

  /** Reads frames until the first failure or the end. */
  method ReadAll(dec: Decoder, input: Stream, count: nat) returns (frames: seq<Frame>)
    modifies input
    ensures frames == Fronts(dec, old(input.Content()), count)
    decreases count
  {
    frames := [];
    if count > 0 {
      FrontsStep(dec, input.Content(), count, FrontFrame(dec, input.Content()));
      var frame := ReadCustodyFrame(dec, input);
      if frame.Some? {
        var rest := ReadAll(dec, input, count - 1);
        frames := [frame.value] + rest;
      }
    }
  }

  lemma FrontsOfWritten(enc: Encoder, dec: Decoder, f: Frame, tail: string, count: nat)
    requires Sendable(enc, dec, f) && count > 0
    ensures Fronts(dec, Written(enc, f) + tail, count) == [f] + Fronts(dec, tail, count - 1)
  {
    FrontOfWritten(enc, dec, f, tail);
    FrontsStep(dec, Written(enc, f) + tail, count, FrontFrame(dec, Written(enc, f) + tail));
  }

  /** Frames written back to back are read back as the same list, whatever follows them. */
  lemma {:induction false} ReadsBackWhatWasWritten(enc: Encoder, dec: Decoder, frames: seq<Frame>, rest: string)
    requires forall i :: 0 <= i < |frames| ==> Sendable(enc, dec, frames[i])
    ensures Fronts(dec, AllWritten(enc, frames) + rest, |frames|) == frames
  {
    if frames != [] {
      var tail := AllWritten(enc, frames[1..]) + rest;
      ReadsBackWhatWasWritten(enc, dec, frames[1..], rest);
      assert AllWritten(enc, frames) + rest == Written(enc, frames[0]) + tail;
      FrontsOfWritten(enc, dec, frames[0], tail, |frames|);
      assert frames == [frames[0]] + frames[1..];
    }
  }

  /** The round trip through a stream that delivers the written bytes in any pieces at all. */
  method SendAndReceive(enc: Encoder, dec: Decoder, frames: seq<Frame>, pieces: seq<string>)
      returns (received: seq<Frame>)
    requires (forall i :: 0 <= i < |frames| ==> Sendable(enc, dec, frames[i]))
    requires Joined(pieces) == AllWritten(enc, frames)
    ensures received == frames
  {
    var input := new Stream(pieces);
    received := ReadAll(dec, input, |frames|);
    ReadsBackWhatWasWritten(enc, dec, frames, "");
    assert AllWritten(enc, frames) + "" == AllWritten(enc, frames);
  }

  lemma SizeIsExact(s: string)
    requires |s| == 4 && forall i :: 0 <= i < 4 ==> s[i] as int < 256
    ensures 0 <= SizeOf(s) && SizeBytes(SizeOf(s)) == s
  {
    var a, b, c, d := s[0] as int, s[1] as int, s[2] as int, s[3] as int;
    var n := SizeOf(s);
    SizeWritten(n);
    assert n % 256 == d && n / 256 == (a * 256 + b) * 256 + c;
    assert n / 0x100 % 256 == c && n / 256 / 256 == a * 256 + b;
    assert n / 0x10000 == a * 256 + b && n / 0x1000000 == a;
    assert s == [s[0], s[1], s[2], s[3]];
  }

  /** The bytes begin with the size of a body of 1 to 65536 bytes and the body, of `size` bytes together, and the body
      decodes to this frame, which has a verb and a nonce digest of 71 bytes. */
  ghost predicate BeginsWith(dec: Decoder, bytes: string, f: Frame, size: nat, body: string) {
    && 1 <= |body| <= 65536 && SizeBytes(|body|) + body <= bytes && size == 4 + |body|
    && dec(body) == Some(f) && f.verb != "" && |f.nonceDigest| == 71
  }

  /** A frame is read exactly from bytes that begin with it. */
  lemma FrontIsExact(dec: Decoder, bytes: string, f: Frame, size: nat)
    requires forall i :: 0 <= i < |bytes| ==> bytes[i] as int < 256
    ensures FrontFrame(dec, bytes) == Some((f, size)) <==> exists body :: BeginsWith(dec, bytes, f, size, body)
  {
    if FrontFrame(dec, bytes) == Some((f, size)) {
      var n := SizeOf(bytes[..4]);
      SizeIsExact(bytes[..4]);
      assert bytes[..4] + bytes[4..4 + n] == bytes[..4 + n];
      assert BeginsWith(dec, bytes, f, size, bytes[4..4 + n]);
    }
    if body :| BeginsWith(dec, bytes, f, size, body) {
      var head := SizeBytes(|body|) + body;
      assert bytes[..|head|] == head;
      assert bytes[..4] == head[..4] == SizeBytes(|body|);
      SizeRoundTrip(|body|);
      assert bytes[4..4 + |body|] == head[4..] == body;
    }
  }
}
