/** Byte strings as the program handles them: one `char` stands for one byte of a Go string. */
module Text {

  datatype Option<+T> = None | Some(value: T)

  const NUL: char := '\0'

  predicate NoNul(s: string) {
    forall i :: 0 <= i < |s| ==> s[i] != NUL
  }

  predicate IsLowerHex(c: char) {
    '0' <= c <= '9' || 'a' <= c <= 'f'
  }

  function Repeated(c: char, n: nat): (s: string)
    ensures |s| == n && forall i :: 0 <= i < n ==> s[i] == c
  {
    if n == 0 then "" else Repeated(c, n - 1) + [c]
  }

  /** `^sha256:[0-9a-f]{64}$`, the shape of every digest in the repository. */
  predicate ValidFingerprint(s: string) {
    |s| == 71 && s[..7] == "sha256:" && forall i :: 7 <= i < 71 ==> IsLowerHex(s[i])
  }

  /** A retained object's name: the lower-case hexadecimal SHA-256 of its bytes. */
  predicate ValidObjectName(s: string) {
    |s| == 64 && forall i :: 0 <= i < |s| ==> IsLowerHex(s[i])
  }

  /** `^[a-z][a-z0-9._:-]{0,127}$`, the identifier pattern of the API and of authorization. */
  predicate PathToken(s: string) {
    && 1 <= |s| <= 128
    && 'a' <= s[0] <= 'z'
    && forall i :: 0 <= i < |s| ==> PathTokenChar(s[i])
  }

  predicate PathTokenChar(c: char) {
    'a' <= c <= 'z' || '0' <= c <= '9' || c == '.' || c == '_' || c == ':' || c == '-'
  }

  lemma PathTokenHasNoNul(s: string)
    requires PathToken(s)
    ensures NoNul(s)
  {
    forall i | 0 <= i < |s| ensures s[i] != NUL {
      assert PathTokenChar(s[i]);
    }
  }

  /** Two texts cut at their first NUL: the pieces are determined by the whole. */
  lemma FirstNulSplits(a: string, b: string, x: string, y: string)
    requires NoNul(a) && NoNul(b)
    requires a + [NUL] + x == b + [NUL] + y
    ensures a == b && x == y
  {
    var whole := a + [NUL] + x;
    assert whole[|a|] == NUL;
    assert (b + [NUL] + y)[|b|] == NUL;
    assert |a| == |b|;
    assert a == whole[..|a|] == b;
    assert x == whole[|a| + 1..] == y;
  }

  // ----- strings.Split and the patterns that use it

  function SplitOn(s: string, c: char): (parts: seq<string>)
    ensures |parts| >= 1
    ensures forall i :: 0 <= i < |parts| ==> c !in parts[i]
  {
    if s == "" then [""]
    else
      var rest := SplitOn(s[1..], c);
      if s[0] == c then [""] + rest else [[s[0]] + rest[0]] + rest[1..]
  }

  function JoinWith(parts: seq<string>, c: char): string
    requires |parts| >= 1
  {
    if |parts| == 1 then parts[0] else parts[0] + [c] + JoinWith(parts[1..], c)
  }

  /** Joining the split pieces gives the text back. */
  lemma {:induction false} JoinAfterSplit(s: string, c: char)
    ensures JoinWith(SplitOn(s, c), c) == s
  {
    if s != "" {
      var rest := SplitOn(s[1..], c);
      JoinAfterSplit(s[1..], c);
      if s[0] == c {
        assert ([""] + rest)[1..] == rest;
        assert JoinWith([""] + rest, c) == "" + [c] + s[1..];
      } else {
        var parts := [[s[0]] + rest[0]] + rest[1..];
        if |rest| > 1 {
          assert parts[1..] == rest[1..];
          assert JoinWith(parts, c) == [s[0]] + rest[0] + [c] + JoinWith(rest[1..], c);
          assert JoinWith(rest, c) == rest[0] + [c] + JoinWith(rest[1..], c);
        }
        assert JoinWith(parts, c) == [s[0]] + JoinWith(rest, c);
      }
    }
  }

  lemma {:induction false} SplitPlain(s: string, c: char)
    requires c !in s
    ensures SplitOn(s, c) == [s]
  {
    if s != "" {
      assert forall x :: x in s[1..] ==> x in s;
      SplitPlain(s[1..], c);
      assert s == [s[0]] + s[1..];
    }
  }

  lemma {:induction false} SplitAtSeparator(a: string, b: string, c: char)
    requires c !in a
    ensures SplitOn(a + [c] + b, c) == [a] + SplitOn(b, c)
  {
    var s := a + [c] + b;
    if a == "" {
      assert s[1..] == b;
    } else {
      assert s[0] == a[0] && s[1..] == a[1..] + [c] + b;
      assert forall x :: x in a[1..] ==> x in a;
      SplitAtSeparator(a[1..], b, c);
      assert a == [a[0]] + a[1..];
      assert ([a[1..]] + SplitOn(b, c))[1..] == SplitOn(b, c);
    }
  }

  /** Splitting the joined pieces gives the pieces back when none holds the separator. */
  lemma {:induction false} SplitAfterJoin(parts: seq<string>, c: char)
    requires |parts| >= 1 && forall i :: 0 <= i < |parts| ==> c !in parts[i]
    ensures SplitOn(JoinWith(parts, c), c) == parts
  {
    if |parts| == 1 {
      SplitPlain(parts[0], c);
    } else {
      SplitAfterJoin(parts[1..], c);
      SplitAtSeparator(parts[0], JoinWith(parts[1..], c), c);
    }
  }

  function LowerChar(c: char): char {
    if 'A' <= c <= 'Z' then (c as int + 32) as char else c
  }

  predicate HasLowerPrefix(s: string, prefix: string) {
    |prefix| <= |s| && forall i :: 0 <= i < |prefix| ==> LowerChar(s[i]) == prefix[i]
  }

  // ----- decimal integers (strconv.FormatInt, base 10)

  function DigitChar(d: nat): char
    requires d < 10
  {
    (48 + d) as char
  }

  function Digits(n: nat): (s: string)
    ensures |s| > 0 && forall i :: 0 <= i < |s| ==> '0' <= s[i] <= '9'
  {
    if n < 10 then [DigitChar(n)] else Digits(n / 10) + [DigitChar(n % 10)]
  }

  function DigitsValue(s: string): int {
    if s == "" then 0 else DigitsValue(s[..|s| - 1]) * 10 + (s[|s| - 1] as int - 48)
  }

  lemma {:induction false} ValueOfDigits(n: nat)
    ensures DigitsValue(Digits(n)) == n
  {
    if n >= 10 {
      ValueOfDigits(n / 10);
      assert Digits(n)[..|Digits(n)| - 1] == Digits(n / 10);
    }
  }

  function FormatInt(n: int): string {
    if n < 0 then "-" + Digits(-n) else Digits(n)
  }

  function ParseInt(s: string): int
    requires s != ""
  {
    if s[0] == '-' then -DigitsValue(s[1..]) else DigitsValue(s)
  }

  lemma ParseAfterFormat(n: int)
    ensures FormatInt(n) != "" && ParseInt(FormatInt(n)) == n
  {
    if n < 0 {
      ValueOfDigits(-n);
      assert FormatInt(n)[1..] == Digits(-n);
    } else {
      ValueOfDigits(n);
      assert '0' <= Digits(n)[0];
    }
  }

  lemma FormatIntInjective(a: int, b: int)
    requires FormatInt(a) == FormatInt(b)
    ensures a == b
  {
    ParseAfterFormat(a);
    ParseAfterFormat(b);
  }

  lemma FormatIntHasNoNul(n: int)
    ensures NoNul(FormatInt(n))
  {
    var digits := if n < 0 then Digits(-n) else Digits(n);
    assert NoNul(digits);
  }

  /** Texts joined by NUL determine their NUL-free pieces. */
  lemma JoinNulInjective(a: seq<string>, b: seq<string>)
    requires |a| >= 1 && |b| >= 1
    requires (forall i :: 0 <= i < |a| ==> NoNul(a[i])) && (forall i :: 0 <= i < |b| ==> NoNul(b[i]))
    requires JoinWith(a, NUL) == JoinWith(b, NUL)
    ensures a == b
  {
    SplitAfterJoin(a, NUL);
    SplitAfterJoin(b, NUL);
  }

  // ----- byte order of strings (Go's `<` and strings.Compare)

  predicate Before(a: string, b: string) {
    if b == "" then false
    else if a == "" then true
    else a[0] < b[0] || (a[0] == b[0] && Before(a[1..], b[1..]))
  }

  lemma {:induction false} BeforeIsTotal(a: string, b: string)
    ensures Before(a, b) || a == b || Before(b, a)
    ensures !(Before(a, b) && Before(b, a))
    ensures !Before(a, a)
  {
    if a != "" {
      BeforeIsTotal(a[1..], if b == "" then "" else b[1..]);
      if b != "" && a[0] == b[0] && a[1..] == b[1..] {
        assert a == [a[0]] + a[1..] == b;
      }
    }
  }

  lemma {:induction false} BeforeIsTransitive(a: string, b: string, c: string)
    requires Before(a, b) && Before(b, c)
    ensures Before(a, c)
  {
    if a != "" && a[0] == b[0] && b[0] == c[0] {
      BeforeIsTransitive(a[1..], b[1..], c[1..]);
    }
  }
}
