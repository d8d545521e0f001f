/** Unpadded base64url, section 5 of RFC 4648, as cursor tokens use it. */
module Base64Url {
  import opened Text

  predicate IsBytes(s: string) {
    forall i :: 0 <= i < |s| ==> s[i] as int < 256
  }

  function Letter(v: nat): (c: char)
    requires v < 64
    ensures c != '.' && c != '\r' && c != '\n'
  {
    if v < 26 then (65 + v) as char
    else if v < 52 then (71 + v) as char
    else if v < 62 then (v - 4) as char
    else if v == 62 then '-' else '_'
  }

  function Sextet(c: char): (v: Option<nat>)
    ensures v.Some? ==> v.value < 64
  {
    if 'A' <= c <= 'Z' then Some(c as int - 65)
    else if 'a' <= c <= 'z' then Some(c as int - 71)
    else if '0' <= c <= '9' then Some(c as int + 4)
    else if c == '-' then Some(62)
    else if c == '_' then Some(63)
    else None
  }

  lemma SextetOfLetter(v: nat)
    requires v < 64
    ensures Sextet(Letter(v)) == Some(v)
  {
  }

  function Group(a: int, b: int, c: int): string
    requires 0 <= a < 256 && 0 <= b < 256 && 0 <= c < 256
  {
    [Letter(a / 4), Letter(a % 4 * 16 + b / 16), Letter(b % 16 * 4 + c / 64), Letter(c % 64)]
  }

  function Encode(s: string): (t: string)
    requires IsBytes(s)
    ensures |t| == (|s| * 8 + 5) / 6
    ensures forall i :: 0 <= i < |t| ==> t[i] != '.' && t[i] != '\r' && t[i] != '\n'
  {
    if |s| == 0 then ""
    else if |s| == 1 then Group(s[0] as int, 0, 0)[..2]
    else if |s| == 2 then Group(s[0] as int, s[1] as int, 0)[..3]
    else Group(s[0] as int, s[1] as int, s[2] as int) + Encode(s[3..])
  }

  function DropBreaks(t: string): string {
    if t == "" then "" else (if t[0] == '\r' || t[0] == '\n' then "" else [t[0]]) + DropBreaks(t[1..])
  }

  /** Line breaks are skipped and left-over bits ignored, as the library's decoder does. */
  function Decode(t: string): Option<string> {
    DecodeLetters(DropBreaks(t))
  }

  function DecodeLetters(t: string): Option<string> {
    if |t| == 0 then Some("")
    else if |t| == 1 then None
    else
      var a, b := Sextet(t[0]), Sextet(t[1]);
      if a.None? || b.None? then None
      else
        var first := (a.value * 4 + b.value / 16) as char;
        if |t| == 2 then Some([first])
        else
          var c := Sextet(t[2]);
          if c.None? then None
          else
            var second := (b.value % 16 * 16 + c.value / 4) as char;
            if |t| == 3 then Some([first, second])
            else
              var d := Sextet(t[3]);
              if d.None? then None
              else
                var rest := DecodeLetters(t[4..]);
                if rest.None? then None else Some([first, second, (c.value % 4 * 64 + d.value) as char] + rest.value)
  }

  lemma {:induction false} NoBreaksToDrop(t: string)
    requires forall i :: 0 <= i < |t| ==> t[i] != '\r' && t[i] != '\n'
    ensures DropBreaks(t) == t
  {
    if t != "" {
      NoBreaksToDrop(t[1..]);
      assert t == [t[0]] + t[1..];
    }
  }

  lemma GroupRoundTrip(a: int, b: int, c: int)
    requires 0 <= a < 256 && 0 <= b < 256 && 0 <= c < 256
    ensures a / 4 * 4 + (a % 4 * 16 + b / 16) / 16 == a
    ensures (a % 4 * 16 + b / 16) % 16 * 16 + (b % 16 * 4 + c / 64) / 4 == b
    ensures (b % 16 * 4 + c / 64) % 4 * 64 + c % 64 == c
  {
  }

  lemma GroupSextets(a: int, b: int, c: int)
    requires 0 <= a < 256 && 0 <= b < 256 && 0 <= c < 256
    ensures var g := Group(a, b, c);
      && Sextet(g[0]) == Some(a / 4) && Sextet(g[1]) == Some(a % 4 * 16 + b / 16)
      && Sextet(g[2]) == Some(b % 16 * 4 + c / 64) && Sextet(g[3]) == Some(c % 64)
  {
    SextetOfLetter(a / 4);
    SextetOfLetter(a % 4 * 16 + b / 16);
    SextetOfLetter(b % 16 * 4 + c / 64);
    SextetOfLetter(c % 64);
  }

  /** The letters at the front of `t` spell these three bytes. */
  predicate Spells(t: string, a: int, b: int, c: int)
    requires 0 <= a < 256 && 0 <= b < 256 && 0 <= c < 256
  {
    && |t| >= 2 && Sextet(t[0]) == Some(a / 4) && Sextet(t[1]) == Some(a % 4 * 16 + b / 16)
    && (|t| >= 3 ==> Sextet(t[2]) == Some(b % 16 * 4 + c / 64)) && (|t| >= 4 ==> Sextet(t[3]) == Some(c % 64))
  }

  lemma DecodeGroup(t: string, a: int, b: int, c: int)
    requires 0 <= a < 256 && 0 <= b < 256 && 0 <= c < 256 && Spells(t, a, b, c)
    ensures |t| == 2 ==> DecodeLetters(t) == Some([a as char])
    ensures |t| == 3 ==> DecodeLetters(t) == Some([a as char, b as char])
    ensures |t| >= 4 && DecodeLetters(t[4..]).Some? ==>
      DecodeLetters(t) == Some([a as char, b as char, c as char] + DecodeLetters(t[4..]).value)
  {
    GroupRoundTrip(a, b, c);
  }

  /** The first three bytes, with zeros for those missing. */
  function ByteAt(s: string, i: nat): int
    requires IsBytes(s)
    ensures 0 <= ByteAt(s, i) < 256
  {
    if i < |s| then s[i] as int else 0
  }

  lemma EncodeSpells(s: string)
    requires IsBytes(s) && s != ""
    ensures Spells(Encode(s), ByteAt(s, 0), ByteAt(s, 1), ByteAt(s, 2))
  {
    var a, b, c := ByteAt(s, 0), ByteAt(s, 1), ByteAt(s, 2);
    GroupSextets(a, b, c);
    var g := Group(a, b, c);
    assert |s| == 1 ==> Encode(s) == g[..2];
    assert |s| == 2 ==> Encode(s) == g[..3];
    assert |s| >= 3 ==> Encode(s) == g + Encode(s[3..]);
  }

  lemma SpelledShort(t: string, s: string)
    requires IsBytes(s) && 1 <= |s| <= 2 && |t| == |s| + 1 && Spells(t, ByteAt(s, 0), ByteAt(s, 1), ByteAt(s, 2))
    ensures DecodeLetters(t) == Some(s)
  {
    DecodeGroup(t, ByteAt(s, 0), ByteAt(s, 1), ByteAt(s, 2));
    assert s == if |s| == 1 then [s[0]] else [s[0], s[1]];
  }

  lemma SpelledLong(t: string, s: string)
    requires IsBytes(s) && |s| >= 3 && |t| >= 4 && Spells(t, ByteAt(s, 0), ByteAt(s, 1), ByteAt(s, 2))
    requires DecodeLetters(t[4..]) == Some(s[3..])
    ensures DecodeLetters(t) == Some(s)
  {
    DecodeGroup(t, ByteAt(s, 0), ByteAt(s, 1), ByteAt(s, 2));
    assert s == [s[0], s[1], s[2]] + s[3..];
  }

  lemma {:induction false} LettersRoundTrip(s: string)
    requires IsBytes(s)
    ensures DecodeLetters(Encode(s)) == Some(s)
  {
    if s != "" {
      EncodeSpells(s);
      if |s| >= 3 {
        LettersRoundTrip(s[3..]);
        assert Encode(s)[4..] == Encode(s[3..]);
        SpelledLong(Encode(s), s);
      } else {
        SpelledShort(Encode(s), s);
      }
    }
  }

  /** Decoding undoes encoding on every byte string. */
  lemma RoundTrip(s: string)
    requires IsBytes(s)
    ensures Decode(Encode(s)) == Some(s)
  {
    NoBreaksToDrop(Encode(s));
    LettersRoundTrip(s);
  }
}
