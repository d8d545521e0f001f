/** API requests over SSH: one header line, then exactly the declared payload. */
module SshFrames {
  import opened Text

  datatype Header = Header(
    protocol: string, version: string, requestID: string, sshPrincipalID: string, deviceID: string, operation: string,
    arguments: seq<string>, payloadDigest: string, declaredPayloadBytes: int, actualPayloadBytes: int,
    recoveryEpoch: int)

  datatype Request = Request(header: Header, verb: string, path: string, payload: string, actualPayloadBytes: int)

  /** The parts kept abstract: JSON, the generated schema, UTF-8 validity and SHA-256. */
  datatype Codec = Codec(
    encode: Header -> string, decode: string -> Option<Header>, schemaAccepts: Header -> bool, utf8: string -> bool,
    hash: string -> string)

  const MAX_HEADER: int := 16384
  const MAX_PAYLOAD: int := 8388608

  // ----- operations and arguments

  predicate PathChar(c: char) {
    'A' <= c <= 'Z' || 'a' <= c <= 'z' || '0' <= c <= '9' || c == '.' || c == '_' || c == ':' || c == '-'
  }

  predicate PathSegment(s: string) {
    s != "" && forall i :: 0 <= i < |s| ==> PathChar(s[i])
  }

  /** `^/api/v1/[A-Za-z0-9._:-]+(?:/[A-Za-z0-9._:-]+)*$` */
  predicate OperationPath(s: string) {
    var parts := SplitOn(s, '/');
    && |parts| >= 4 && parts[0] == "" && parts[1] == "api" && parts[2] == "v1"
    && forall i :: 3 <= i < |parts| ==> PathSegment(parts[i])
  }

  /** The characters of a path leave no room for a space. */
  lemma OperationPathHasNoSpace(s: string)
    requires OperationPath(s)
    ensures ' ' !in s
  {
    var parts := SplitOn(s, '/');
    forall i | 0 <= i < |parts| ensures ' ' !in parts[i] {
      if i >= 3 {
        assert PathSegment(parts[i]);
      }
    }
    NoSpaceInJoin(parts);
    JoinAfterSplit(s, '/');
  }

  lemma {:induction false} NoSpaceInJoin(parts: seq<string>)
    requires |parts| >= 1 && forall i :: 0 <= i < |parts| ==> ' ' !in parts[i]
    ensures ' ' !in JoinWith(parts, '/')
  {
    if |parts| > 1 {
      NoSpaceInJoin(parts[1..]);
    }
  }

  function ParseOperation(operation: string): Option<(string, string)> {
    if operation == "sqlite-query" || |operation| == 0 || |operation| > 512 then None
    else
      var parts := SplitOn(operation, ' ');
      if |parts| != 2 || (parts[0] != "GET" && parts[0] != "POST") || !OperationPath(parts[1]) then None
      else Some((parts[0], parts[1]))
  }

  /** Parsing accepts exactly the printed operations, and returns what was printed. */
  lemma ParseOperationIsExact(operation: string, verb: string, path: string)
    ensures ParseOperation(operation) == Some((verb, path)) <==>
      && operation == verb + " " + path && |operation| <= 512 && (verb == "GET" || verb == "POST")
      && OperationPath(path)
  {
    if ParseOperation(operation) == Some((verb, path)) {
      JoinAfterSplit(operation, ' ');
      assert SplitOn(operation, ' ')[1..] == [path];
      assert operation == verb + [' '] + path;
    }
    if operation == verb + " " + path && (verb == "GET" || verb == "POST") && OperationPath(path) {
      OperationPathHasNoSpace(path);
      assert operation == verb + [' '] + path;
      SplitAtSeparator(verb, path, ' ');
      SplitPlain(path, ' ');
      assert operation[0] == verb[0];
    }
  }

  const FORBIDDEN: string := "/\\;&|`$><(){}[]*?!~\"'"

  predicate ValidArgument(c: Codec, a: string) {
    && 1 <= |a| <= 512 && c.utf8(a)
    && forall i :: 0 <= i < |a| ==> a[i] as int > 0x20 && a[i] as int != 0x7f && a[i] !in FORBIDDEN
  }

  function ValidateHeader(c: Codec, h: Header): Option<(string, string)> {
    if h.protocol != "vegastack-labs.api-ssh" || h.version != "1.0.0" || !c.schemaAccepts(h) then None
    else if exists i :: 0 <= i < |h.arguments| && !ValidArgument(c, h.arguments[i]) then None
    else ParseOperation(h.operation)
  }

  /** A header is valid exactly when it is of this protocol and version, the schema accepts it, its operation is a
      printed verb and path, and every argument is UTF-8 of 1 to 512 bytes without controls, spaces and the listed
      characters. */
  lemma ValidHeaderIsExact(c: Codec, h: Header, verb: string, path: string)
    ensures ValidateHeader(c, h) == Some((verb, path)) <==>
      && h.protocol == "vegastack-labs.api-ssh" && h.version == "1.0.0" && c.schemaAccepts(h)
      && h.operation == verb + " " + path && |h.operation| <= 512 && (verb == "GET" || verb == "POST")
      && OperationPath(path)
      && forall i :: 0 <= i < |h.arguments| ==> ProperArgument(c, h.arguments[i])
  {
    ParseOperationIsExact(h.operation, verb, path);
    forall i | 0 <= i < |h.arguments| ensures ValidArgument(c, h.arguments[i]) <==> ProperArgument(c, h.arguments[i]) {
      ArgumentIsExact(c, h.arguments[i]);
    }
  }

  predicate ProperArgument(c: Codec, a: string) {
    && a != "" && |a| <= 512 && c.utf8(a)
    && forall x :: x in a ==> x > ' ' && x != '\U{7f}' && x !in "/\\;&|`$><(){}[]*?!~\"'"
  }

  lemma ArgumentIsExact(c: Codec, a: string)
    ensures ValidArgument(c, a) <==> ProperArgument(c, a)
  {
    assert forall i :: 0 <= i < |a| ==> a[i] in a;
  }

  /** A path is an operation's exactly when it is the prefix of this API followed by one or more segments. */
  lemma OperationPathIsExact(s: string)
    ensures OperationPath(s) <==>
      exists segments :: segments != [] && AllSegments(segments) && s == JoinWith(["", "api", "v1"] + segments, '/')
  {
    if OperationPath(s) {
      var parts := SplitOn(s, '/');
      JoinAfterSplit(s, '/');
      assert parts == ["", "api", "v1"] + parts[3..];
      assert AllSegments(parts[3..]);
    }
    if segments :| segments != [] && AllSegments(segments) && s == JoinWith(["", "api", "v1"] + segments, '/') {
      var parts := ["", "api", "v1"] + segments;
      forall i | 0 <= i < |parts| ensures '/' !in parts[i] {
        if i >= 3 {
          assert parts[i] == segments[i - 3];
        }
      }
      SplitAfterJoin(parts, '/');
    }
  }

  predicate SegmentChar(c: char) {
    || ('A' <= c && c <= 'Z') || ('a' <= c && c <= 'z') || ('0' <= c && c <= '9') || c in {'.', '_', ':', '-'}
  }

  /** Not empty, and only letters, digits, dot, underscore, colon and hyphen. */
  predicate AllSegments(segments: seq<string>) {
    forall i :: 0 <= i < |segments| ==>
      |segments[i]| >= 1 && forall k :: 0 <= k < |segments[i]| ==> SegmentChar(segments[i][k])
  }

  // ----- writing

  predicate PayloadMatches(c: Codec, h: Header, payload: string) {
    && |payload| <= MAX_PAYLOAD && h.declaredPayloadBytes == |payload| && h.actualPayloadBytes == |payload|
    && c.hash(payload) == h.payloadDigest
  }

  function WriteRequest(c: Codec, h: Header, payload: string): Option<string> {
    if ValidateHeader(c, h).None? || !PayloadMatches(c, h, payload) then None else Some(c.encode(h) + "\n" + payload)
  }

  // ----- reading

  /** Up to and including the first newline, if it comes within the limit. */
  function HeaderLine(input: string): Option<string> {
    var parts := SplitOn(input, '\n');
    if |parts| < 2 || |parts[0]| + 1 < 3 || |parts[0]| > MAX_HEADER then None else Some(parts[0])
  }

  method ReadHeaderLine(input: string) returns (line: Option<string>)
    ensures line == HeaderLine(input)
  {
    var n := 0;
    while n < |input| && input[n] != '\n'
      invariant 0 <= n <= |input| && '\n' !in input[..n]
    {
      n := n + 1;
    }
    if n == |input| {
      assert input[..n] == input;
      SplitPlain(input, '\n');
      return None;
    }
    assert input == input[..n] + ['\n'] + input[n + 1..];
    SplitAtSeparator(input[..n], input[n + 1..], '\n');
    if n + 1 < 3 || n > MAX_HEADER {
      return None;
    }
    line := Some(input[..n]);
  }

  function ReadRequest(c: Codec, input: string): Option<Request> {
    var line := HeaderLine(input);
    if line.None? then None
    else
      var header := c.decode(line.value);
      if header.None? then None
      else
        var target := ValidateHeader(c, header.value);
        if target.None? || |input| < |line.value| + 1 then None
        else
          var rest := input[|line.value| + 1..];
          if !PayloadMatches(c, header.value, rest) then None
          else Some(Request(header.value, target.value.0, target.value.1, rest, |rest|))
  }

  /** The reader in steps: the line, the header, then at most one byte more than declared. */
  method ReceiveRequest(c: Codec, input: string) returns (request: Option<Request>)
    ensures request == ReadRequest(c, input)
  {
    var line := ReadHeaderLine(input);
    if line.None? {
      return None;
    }
    LineFits(input);
    var header := c.decode(line.value);
    if header.None? {
      return None;
    }
    var target := ValidateHeader(c, header.value);
    if target.None? {
      return None;
    }
    var h := header.value;
    if h.declaredPayloadBytes < 0 || h.declaredPayloadBytes > MAX_PAYLOAD {
      return None;
    }
    var rest := input[|line.value| + 1..];
    var payload := if |rest| > h.declaredPayloadBytes + 1 then rest[..h.declaredPayloadBytes + 1] else rest;
    if |payload| != h.declaredPayloadBytes || |payload| != h.actualPayloadBytes || c.hash(payload) != h.payloadDigest {
      return None;
    }
    request := Some(Request(h, target.value.0, target.value.1, payload, |payload|));
  }

  lemma LineFits(input: string)
    requires HeaderLine(input).Some?
    ensures |input| >= |HeaderLine(input).value| + 1
  {
    JoinAfterSplit(input, '\n');
  }

  lemma HeaderLineOf(line: string, rest: string)
    requires '\n' !in line
    ensures HeaderLine(line + "\n" + rest) == if 2 <= |line| <= MAX_HEADER then Some(line) else None
  {
    assert line + "\n" + rest == line + ['\n'] + rest;
    SplitAtSeparator(line, rest, '\n');
  }

  /** With a header line in front, a stream is accepted exactly when what follows has the declared length and digest. */
  lemma AcceptedExactly(c: Codec, h: Header, line: string, rest: string)
    requires '\n' !in line && c.decode(line) == Some(h) && ValidateHeader(c, h).Some?
    ensures ReadRequest(c, line + "\n" + rest).Some? <==>
      && 2 <= |line| <= 16384 && |rest| == h.declaredPayloadBytes == h.actualPayloadBytes <= 8388608
      && c.hash(rest) == h.payloadDigest
    ensures ReadRequest(c, line + "\n" + rest).Some? ==>
      ReadRequest(c, line + "\n" + rest).value ==
        Request(h, ValidateHeader(c, h).value.0, ValidateHeader(c, h).value.1, rest, |rest|)
  {
    HeaderLineOf(line, rest);
    assert (line + "\n" + rest)[|line| + 1..] == rest;
  }

  /** What was written is read back exactly when its header line has at most 16384 bytes; a payload one byte shorter or
      longer, or of any other length, is refused. */
  lemma RequestRoundTrip(c: Codec, h: Header, payload: string, other: string)
    requires WriteRequest(c, h, payload).Some?
    requires c.decode(c.encode(h)) == Some(h) && '\n' !in c.encode(h) && |c.encode(h)| >= 2
    ensures ReadRequest(c, WriteRequest(c, h, payload).value) ==
      (if |c.encode(h)| <= MAX_HEADER
       then Some(Request(h, ValidateHeader(c, h).value.0, ValidateHeader(c, h).value.1, payload, |payload|)) else None)
    ensures |other| != |payload| ==> ReadRequest(c, c.encode(h) + "\n" + other).None?
  {
    AcceptedExactly(c, h, c.encode(h), payload);
    AcceptedExactly(c, h, c.encode(h), other);
  }
}
