/** Validation of project paths (internal/projectpath), and what it accepts. */
module ProjectPath {
  import opened Util
  import opened Splitting

  datatype PathError =
    | EmptyPath | LeadingSlash | Backslash | Nul | EmptySegment | TraversalSegment | BadCharacters

  predicate IsPathChar(c: char) { IsAlnum(c) || c in {'_', '.', '-', '/'} }

  predicate MatchesGrammar(path: string) {
    path != "" && IsAlnum(path[0]) && forall i :: 0 <= i < |path| ==> IsPathChar(path[i])
  }

  function FirstBadSegment(segments: seq<string>): Option<PathError> {
    if segments == [] then None
    else if segments[0] == "" then Some(EmptySegment)
    else if segments[0] == "." || segments[0] == ".." then Some(TraversalSegment)
    else FirstBadSegment(segments[1..])
  }

  /** None where the path is accepted. */
  function Validate(path: string): Option<PathError> {
    if path == "" then Some(EmptyPath)
    else if path[0] == '/' then Some(LeadingSlash)
    else if '\\' in path then Some(Backslash)
    else if '\0' in path then Some(Nul)
    else
      var bad := FirstBadSegment(SplitOn(path, '/'));
      if bad.Some? then bad
      else if !MatchesGrammar(path) then Some(BadCharacters)
      else None
  }

  // ----- what is accepted -----

  predicate IsSegmentChar(c: char) { IsAlnum(c) || c in {'_', '.', '-'} }

  predicate IsSegment(s: string) {
    s != "" && s != "." && s != ".." && forall i :: 0 <= i < |s| ==> IsSegmentChar(s[i])
  }

  /** A route: segments, the first of which starts with a letter or a digit. */
  predicate IsRoute(segments: seq<string>) {
    && segments != []
    && (forall k :: 0 <= k < |segments| ==> IsSegment(segments[k]))
    && IsAlnum(segments[0][0])
  }

  lemma {:induction false} NoBadSegment(segments: seq<string>)
    ensures FirstBadSegment(segments).None?
            <==> forall k :: 0 <= k < |segments| ==> segments[k] != "" && segments[k] != "." && segments[k] != ".."
  {
    if segments != [] {
      NoBadSegment(segments[1..]);
      assert forall k :: 1 <= k < |segments| ==> segments[k] == segments[1..][k - 1];
    }
  }

  lemma {:induction false} JoinChars(parts: seq<string>)
    requires forall k :: 0 <= k < |parts| ==> '/' !in parts[k]
    ensures (forall i :: 0 <= i < |Join(parts, "/")| ==> IsPathChar(Join(parts, "/")[i]))
            <==> forall k :: 0 <= k < |parts| ==> forall i :: 0 <= i < |parts[k]| ==> IsSegmentChar(parts[k][i])
  {
    if parts != [] {
      var tail := parts[1..];
      JoinChars(tail);
      assert forall k :: 1 <= k < |parts| ==> parts[k] == tail[k - 1];
      var s, p, t := Join(parts, "/"), parts[0], Join(tail, "/");
      if tail == [] {
        assert s == p;
      } else {
        assert s == p + "/" + t;
        assert forall i :: 0 <= i < |p| ==> s[i] == p[i];
        assert forall i :: 0 <= i < |t| ==> s[|p| + 1 + i] == t[i];
        assert forall k :: 0 <= k < |tail| ==> tail[k] == parts[k + 1];
      }
    }
  }

  lemma JoinFirst(parts: seq<string>)
    requires parts != [] && parts[0] != ""
    ensures Join(parts, "/") != "" && Join(parts, "/")[0] == parts[0][0]
  {
  }

  /** Validation accepts exactly the routes: the chain of tests has no gap and no redundancy in effect. */
  lemma ValidateIff(path: string)
    ensures Validate(path).None? <==> IsRoute(SplitOn(path, '/'))
  {
    var parts := SplitOn(path, '/');
    JoinSplit(path, '/');
    NoBadSegment(parts);
    JoinChars(parts);
    if path == "" {
    } else if parts[0] != "" {
      JoinFirst(parts);
      if IsRoute(parts) {
        assert forall i :: 0 <= i < |path| ==> IsPathChar(path[i]);
      }
    }
  }

  lemma {:induction false} BadSegmentKind(segments: seq<string>)
    ensures var bad := FirstBadSegment(segments);
            bad.None? || bad == Some(EmptySegment) || bad == Some(TraversalSegment)
  {
    if segments != [] { BadSegmentKind(segments[1..]); }
  }

  ghost predicate HasBadSegment(segments: seq<string>) {
    exists k :: 0 <= k < |segments| && (segments[k] == "" || segments[k] == "." || segments[k] == "..")
  }

  lemma {:induction false} BadSegmentIff(segments: seq<string>)
    ensures FirstBadSegment(segments).Some? <==> HasBadSegment(segments)
  {
    if segments != [] {
      BadSegmentIff(segments[1..]);
      assert forall k :: 1 <= k < |segments| ==> segments[k] == segments[1..][k - 1];
      assert forall k :: 0 <= k < |segments[1..]| ==> segments[1..][k] == segments[k + 1];
    }
  }

  /** What a refused path is told: the first of these that is so. */
  lemma ErrorIs(path: string)
    ensures Validate(path) == Some(EmptyPath) <==> path == ""
    ensures Validate(path) == Some(LeadingSlash) <==> path != "" && path[0] == '/'
    ensures path != "" && path[0] != '/' ==>
              && (Validate(path) == Some(Backslash) <==> '\\' in path)
              && (Validate(path) == Some(Nul) <==> '\\' !in path && '\0' in path)
    ensures path != "" && path[0] != '/' && '\\' !in path && '\0' !in path ==>
              (Validate(path) == Some(EmptySegment) || Validate(path) == Some(TraversalSegment)
               <==> HasBadSegment(SplitOn(path, '/')))
  {
    BadSegmentIff(SplitOn(path, '/'));
    BadSegmentKind(SplitOn(path, '/'));
  }

  /** The accepted paths are the joined routes, one path for each route. */
  lemma RoutesAccepted(segments: seq<string>)
    requires IsRoute(segments)
    ensures Validate(Join(segments, "/")).None? && SplitOn(Join(segments, "/"), '/') == segments
  {
    SplitJoin(segments, '/');
    ValidateIff(Join(segments, "/"));
  }
}
