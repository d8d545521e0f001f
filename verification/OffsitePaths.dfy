/** Slash-separated names: lexical cleaning and joining, and the offsite token and prefix checks. */
module OffsitePaths {
  import opened Text

  predicate HasSuffix(s: string, suffix: string) {
    |suffix| <= |s| && s[|s| - |suffix|..] == suffix
  }

  function TrimSuffix(s: string, suffix: string): string {
    if HasSuffix(s, suffix) then s[..|s| - |suffix|] else s
  }

  // ----- path.Clean and path.Join

  /** One path element applied to the elements kept so far. */
  function Push(kept: seq<string>, part: string, rooted: bool): seq<string> {
    if part == "" || part == "." then kept
    else if part != ".." then kept + [part]
    else if kept != [] && kept[|kept| - 1] != ".." then kept[..|kept| - 1]
    else if rooted then kept
    else kept + [part]
  }

  function Kept(parts: seq<string>, rooted: bool): seq<string> {
    if parts == [] then [] else Push(Kept(parts[..|parts| - 1], rooted), parts[|parts| - 1], rooted)
  }

  predicate Rooted(s: string) {
    s != "" && s[0] == '/'
  }

  function Clean(s: string): string {
    var kept := Kept(SplitOn(s, '/'), Rooted(s));
    if kept == [] then (if Rooted(s) then "/" else ".")
    else (if Rooted(s) then "/" else "") + JoinWith(kept, '/')
  }

  /** path.Join of two elements. */
  function PathJoin(a: string, b: string): string {
    if a == "" && b == "" then ""
    else if a == "" then Clean(b)
    else Clean(a + "/" + b)
  }

  predicate PlainPart(part: string) {
    part != "" && part != "." && part != ".." && '/' !in part
  }

  lemma {:induction false} KeptIsSlashFree(parts: seq<string>, rooted: bool)
    requires forall i :: 0 <= i < |parts| ==> '/' !in parts[i]
    ensures forall i :: 0 <= i < |Kept(parts, rooted)| ==> '/' !in Kept(parts, rooted)[i]
  {
    if parts != [] {
      KeptIsSlashFree(parts[..|parts| - 1], rooted);
    }
  }

  /** A relative name that cleaning leaves alone consists of exactly the elements cleaning keeps. */
  lemma CleanNameIsItsParts(s: string)
    requires s != "" && s != "." && !Rooted(s) && Clean(s) == s
    ensures Kept(SplitOn(s, '/'), false) == SplitOn(s, '/')
  {
    var kept := Kept(SplitOn(s, '/'), false);
    KeptIsSlashFree(SplitOn(s, '/'), false);
    assert s == JoinWith(kept, '/');
    SplitAfterJoin(kept, '/');
  }

  lemma {:induction false} SplitAtLast(a: string, b: string, c: char)
    requires c !in b
    ensures SplitOn(a + [c] + b, c) == SplitOn(a, c) + [b]
  {
    var s := a + [c] + b;
    if a == "" {
      assert s == [c] + b;
      assert s[1..] == b;
      SplitPlain(b, c);
    } else {
      assert s[0] == a[0] && s[1..] == a[1..] + [c] + b;
      SplitAtLast(a[1..], b, c);
      var rest := SplitOn(a[1..], c);
      assert (rest + [b])[0] == rest[0] && (rest + [b])[1..] == rest[1..] + [b];
    }
  }

  lemma {:induction false} JoinLast(parts: seq<string>, part: string, c: char)
    requires |parts| >= 1
    ensures JoinWith(parts + [part], c) == JoinWith(parts, c) + [c] + part
  {
    if |parts| == 1 {
      assert (parts + [part])[1..] == [part];
    } else {
      JoinLast(parts[1..], part, c);
      assert (parts + [part])[1..] == parts[1..] + [part];
    }
  }

  /** Joining a clean relative name and a plain element is concatenation, and clean again. */
  lemma JoinIsPlain(base: string, part: string)
    requires base != "" && base != "." && !Rooted(base) && Clean(base) == base && PlainPart(part)
    ensures PathJoin(base, part) == base + "/" + part
    ensures Clean(base + "/" + part) == base + "/" + part
  {
    var s := base + "/" + part;
    assert s == base + ['/'] + part && !Rooted(s);
    SplitAtLast(base, part, '/');
    CleanNameIsItsParts(base);
    var parts := SplitOn(base, '/');
    assert SplitOn(s, '/')[..|parts|] == parts;
    assert Kept(SplitOn(s, '/'), false) == parts + [part];
    JoinLast(parts, part, '/');
    JoinAfterSplit(base, '/');
  }

  // ----- tokens and prefixes

  predicate TokenTail(c: char) {
    'a' <= c <= 'z' || '0' <= c <= '9' || c == '.' || c == '_' || c == '-'
  }

  /** `^[a-z][a-z0-9._-]{0,127}$` */
  predicate OffsiteToken(s: string) {
    1 <= |s| <= 128 && 'a' <= s[0] <= 'z' && forall i :: 0 <= i < |s| ==> TokenTail(s[i])
  }

  lemma TokenIsPlain(s: string)
    requires OffsiteToken(s)
    ensures PlainPart(s)
  {
    assert TokenTail(s[0]);
    assert s[0] != '.';
  }

  predicate UpAt(s: string, i: int) {
    0 <= i && i + 2 < |s| && s[i] == '.' && s[i + 1] == '.' && s[i + 2] == '/'
  }

  /** The text "../" occurs. */
  predicate ContainsUp(s: string) {
    exists i :: 0 <= i < |s| && UpAt(s, i)
  }

  predicate OffsitePrefix(s: string) {
    && s != "" && |s| <= 512 && s[0] != '/' && '\\' !in s && Clean(s) == s && s != "." && !ContainsUp(s)
  }

  /** A prefix stays one under a plain element exactly when it stays short enough and does not end in two dots. */
  lemma PrefixExtends(base: string, part: string)
    requires OffsitePrefix(base) && PlainPart(part) && '\\' !in part && '.' !in part
    ensures OffsitePrefix(base + "/" + part) <==> |base| + 1 + |part| <= 512 && !HasSuffix(base, "..")
  {
    JoinIsPlain(base, part);
    var s := base + "/" + part;
    assert forall i :: UpAt(s, i) && i + 2 < |base| ==> UpAt(base, i);
    assert HasSuffix(base, "..") ==> UpAt(s, |base| - 2);
    assert forall i :: UpAt(s, i) ==> i + 2 <= |base|;
    assert s != ".";
  }

  lemma KeptAlone(part: string)
    requires PlainPart(part)
    ensures Kept([part], false) == [part]
  {
    var parts := [part];
    assert parts[..0] == [];
  }

  /** A plain element is a prefix by itself. */
  lemma PlainNameIsPrefix(s: string)
    requires PlainPart(s) && |s| <= 512 && '\\' !in s
    ensures OffsitePrefix(s)
  {
    SplitPlain(s, '/');
    KeptAlone(s);
    assert s[0] != '/';
    assert forall i :: 0 <= i < |s| ==> !UpAt(s, i);
  }
}
