/** Request paths of the repository server: what the two parsers accept, and that printing undoes parsing. */
module ObjectPaths {
  import opened Text
  import opened OffsitePaths

  datatype ObjectRequest = ObjectRequest(
    repositoryID: string, objectType: string, name: string, isConfig: bool, isLock: bool, retained: bool,
    isRepositoryRoot: bool, isList: bool)

  predicate ValidObjectSegment(s: string) {
    && s != "" && s != "." && s != ".." && |s| <= 128
    && forall i :: 0 <= i < |s| ==> s[i] != NUL && s[i] != '/' && s[i] != '\\'
  }

  function TrimSlash(path: string): string {
    if path != "" && path[0] == '/' then path[1..] else path
  }

  const RETAINED: set<string> := {"keys", "data", "index", "snapshots"}

  // ----- objects

  predicate AllValid(segments: seq<string>) {
    forall i :: 0 <= i < |segments| ==> ValidObjectSegment(segments[i])
  }

  function ObjectOf(segments: seq<string>, expected: string): Option<ObjectRequest> {
    if !(2 <= |segments| <= 3) || !AllValid(segments) || segments[0] != expected then None
    else
      var kind := segments[1];
      if kind == "config" then
        (if |segments| == 2 then Some(ObjectRequest(expected, kind, "config", true, false, true, false, false))
         else None)
      else if (kind !in RETAINED && kind != "locks") || |segments| != 3 || !ValidObjectName(segments[2]) then None
      else Some(ObjectRequest(expected, kind, segments[2], false, kind == "locks", kind in RETAINED, false, false))
  }

  function ObjectAt(path: string, expected: string): Option<ObjectRequest> {
    if expected == "" || !ValidObjectSegment(expected) then None else ObjectOf(SplitOn(TrimSlash(path), '/'), expected)
  }

  method ParseObjectPath(path: string, expected: string) returns (request: Option<ObjectRequest>)
    ensures request == ObjectAt(path, expected)
  {
    if expected == "" || !ValidObjectSegment(expected) {
      return None;
    }
    var segments := SplitOn(TrimSlash(path), '/');
    if |segments| < 2 || |segments| > 3 {
      return None;
    }
    for i := 0 to |segments|
      invariant forall k :: 0 <= k < i ==> ValidObjectSegment(segments[k])
    {
      if !ValidObjectSegment(segments[i]) {
        return None;
      }
    }
    if segments[0] != expected {
      return None;
    }
    var kind := segments[1];
    var result := ObjectRequest(segments[0], kind, "", false, false, false, false, false);
    if kind == "config" {
      if |segments| != 2 {
        return None;
      }
      return Some(result.(isConfig := true, retained := true, name := "config"));
    }
    if kind in RETAINED {
      result := result.(retained := true);
    } else if kind == "locks" {
      result := result.(isLock := true);
    } else {
      return None;
    }
    if |segments| != 3 || !ValidObjectName(segments[2]) {
      return None;
    }
    request := Some(result.(name := segments[2]));
  }

  /** A request for one object of this repository. */
  predicate ObjectShaped(r: ObjectRequest, expected: string) {
    && ValidObjectSegment(expected) && r.repositoryID == expected && !r.isRepositoryRoot && !r.isList
    && (if r.isConfig then r.objectType == "config" && r.name == "config" && r.retained && !r.isLock
        else && ValidObjectName(r.name) && (r.retained <==> r.objectType in RETAINED)
             && (r.isLock <==> r.objectType == "locks")
             && r.retained != r.isLock)
  }

  function Segments(r: ObjectRequest): seq<string> {
    if r.isConfig then [r.repositoryID, r.objectType] else [r.repositoryID, r.objectType, r.name]
  }

  function Printed(r: ObjectRequest): string {
    JoinWith(Segments(r), '/')
  }

  lemma ShapedSegments(r: ObjectRequest, expected: string)
    requires ObjectShaped(r, expected)
    ensures AllValid(Segments(r)) && forall i :: 0 <= i < |Segments(r)| ==> '/' !in Segments(r)[i]
  {
    if !r.isConfig {
      HexIsSegment(r.name);
    }
  }

  lemma HexIsSegment(s: string)
    requires ValidObjectName(s)
    ensures ValidObjectSegment(s)
  {
    assert forall i :: 0 <= i < |s| ==> IsLowerHex(s[i]);
  }

  /** After at most one leading slash, a path is accepted exactly when it is the printed form of the request
      returned. */
  lemma ObjectPathIsExact(path: string, expected: string, r: ObjectRequest)
    ensures ObjectAt(path, expected) == Some(r) <==> ObjectShaped(r, expected) && TrimSlash(path) == Printed(r)
  {
    var trimmed := TrimSlash(path);
    if ObjectAt(path, expected) == Some(r) {
      JoinAfterSplit(trimmed, '/');
      var segments := SplitOn(trimmed, '/');
      assert segments == Segments(r);
    }
    if ObjectShaped(r, expected) && trimmed == Printed(r) {
      ShapedSegments(r, expected);
      SplitAfterJoin(Segments(r), '/');
    }
  }

  // ----- the repository root and type listings

  const LISTABLE: set<string> := {"keys", "data", "index", "snapshots", "locks"}

  function RepositoryAt(path: string, expected: string): Option<ObjectRequest> {
    if expected == "" || !ValidObjectSegment(expected) then None
    else
      var trimmed := TrimSlash(path);
      if trimmed == expected || trimmed == expected + "/" then
        Some(ObjectRequest(expected, "", "", false, false, false, true, false))
      else if !HasSuffix(trimmed, "/") then None
      else
        var segments := SplitOn(TrimSuffix(trimmed, "/"), '/');
        if |segments| != 2 || segments[0] != expected || !ValidObjectSegment(segments[1]) || segments[1] !in LISTABLE
        then None
        else Some(ObjectRequest(expected, segments[1], "", false, false, false, false, true))
  }

  lemma ListablesAreSegments(kind: string)
    requires kind in LISTABLE
    ensures ValidObjectSegment(kind) && '/' !in kind
  {
  }

  /** The accepted paths are the repository itself, with or without a closing slash, and its listable directories. */
  lemma RepositoryPathIsExact(path: string, expected: string)
    ensures RepositoryAt(path, expected).Some? <==>
      && ValidObjectSegment(expected)
      && (TrimSlash(path) == expected || TrimSlash(path) == expected + "/"
          || exists kind :: kind in LISTABLE && TrimSlash(path) == expected + "/" + kind + "/")
    ensures RepositoryAt(path, expected).Some? && RepositoryAt(path, expected).value.isList ==>
      TrimSlash(path) == expected + "/" + RepositoryAt(path, expected).value.objectType + "/"
  {
    var trimmed := TrimSlash(path);
    var found := RepositoryAt(path, expected);
    if found.Some? && found.value.isList {
      JoinAfterSplit(TrimSuffix(trimmed, "/"), '/');
      var segments := SplitOn(TrimSuffix(trimmed, "/"), '/');
      assert segments[1..] == [segments[1]];
      assert trimmed == TrimSuffix(trimmed, "/") + "/";
      assert trimmed == expected + "/" + segments[1] + "/";
    }
    forall kind | ValidObjectSegment(expected) && kind in LISTABLE && trimmed == expected + "/" + kind + "/"
      ensures found.Some?
    {
      ListablesAreSegments(kind);
      assert trimmed[|trimmed| - 1..] == "/";
      assert TrimSuffix(trimmed, "/") == expected + ['/'] + kind;
      SplitAtSeparator(expected, kind, '/');
      SplitPlain(kind, '/');
    }
  }

  // ----- the two parsers together

  lemma EndsInSlash(s: string)
    requires HasSuffix(s, "/")
    ensures SplitOn(s, '/')[|SplitOn(s, '/')| - 1] == ""
  {
    var front := s[..|s| - 1];
    assert s == front + ['/'] + "";
    SplitAtLast(front, "", '/');
  }

  /** No path is both, every accepted object is retained or a lock and never both, and no accepted path has an empty,
      dot or dot-dot element. */
  lemma ParsersAreDisjointAndSafe(path: string, expected: string)
    ensures !(ObjectAt(path, expected).Some? && RepositoryAt(path, expected).Some?)
    ensures ObjectAt(path, expected).Some? ==>
      && ObjectAt(path, expected).value.retained != ObjectAt(path, expected).value.isLock
      && AllValid(SplitOn(TrimSlash(path), '/'))
    ensures RepositoryAt(path, expected).Some? ==> AllValid(SplitOn(TrimSuffix(TrimSlash(path), "/"), '/'))
  {
    var trimmed := TrimSlash(path);
    if RepositoryAt(path, expected).Some? {
      SplitPlain(expected, '/');
      assert expected[|expected| - 1..] == [expected[|expected| - 1]];
      assert (expected + "/")[|expected|..] == "/";
      if HasSuffix(trimmed, "/") {
        EndsInSlash(trimmed);
      }
    }
  }

  /** A repository is served exactly when its id is one plain path element of at most 128 bytes. */
  lemma RepositoryIsServedExactly(id: string)
    ensures ObjectAt(id + "/config", id).Some? <==>
      && 1 <= |id| <= 128 && id != "." && id != ".." && NUL !in id && '/' !in id && '\\' !in id
    ensures RepositoryAt(id, id).Some? <==> ObjectAt(id + "/config", id).Some?
  {
    SegmentIsPlain(id);
    if ValidObjectSegment(id) {
      ConfigIsServed(id);
    }
  }

  lemma SegmentIsPlain(id: string)
    ensures ValidObjectSegment(id) <==>
      && 1 <= |id| <= 128 && id != "." && id != ".." && NUL !in id && '/' !in id && '\\' !in id
  {
    assert forall i :: 0 <= i < |id| ==> id[i] in id;
  }

  lemma ConfigIsServed(id: string)
    requires ValidObjectSegment(id)
    ensures ObjectAt(id + "/config", id).Some? && RepositoryAt(id, id).Some?
  {
    var r := ObjectRequest(id, "config", "config", true, false, true, false, false);
    var path := id + "/config";
    assert path[0] == id[0] && TrimSlash(path) == path;
    assert Segments(r)[1..] == ["config"] && JoinWith(["config"], '/') == "config";
    assert Printed(r) == id + ['/'] + "config" == path;
    ObjectPathIsExact(id + "/config", id, r);
  }
}
