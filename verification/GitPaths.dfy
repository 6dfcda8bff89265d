/**
  Repository paths of the git fetch reconciler (internal/reconciler/gitfetch): the disk path of a
  project, and the containment check that joins it onto the repositories root. Path cleaning is the
  lexical cleaning of Go's path/filepath on Unix.
 */
module GitPaths {
  import opened Util
  import opened ProjectPath
  import opened Splitting

  // ----- cleaned paths -----

  /** A cleaned path: leading ".." elements of a relative path, then names. */
  datatype Clean = Clean(rooted: bool, ups: nat, names: seq<string>)

  /** An element that is neither empty, nor "." or "..", and holds no separator. */
  predicate IsName(s: string) { s != "" && s != "." && s != ".." && '/' !in s }

  ghost predicate WellFormed(c: Clean) {
    (c.rooted ==> c.ups == 0) && forall k :: 0 <= k < |c.names| ==> IsName(c.names[k])
  }

  function Step(c: Clean, element: string): Clean {
    if element == "" || element == "." then c
    else if element == ".." then
      if c.names != [] then c.(names := c.names[..|c.names| - 1])
      else if c.rooted then c
      else c.(ups := c.ups + 1)
    else c.(names := c.names + [element])
  }

  function Walk(c: Clean, elements: seq<string>): Clean
    decreases |elements|
  {
    if elements == [] then c else Walk(Step(c, elements[0]), elements[1..])
  }

  function Cleaned(path: string): Clean {
    Walk(Clean(path != "" && path[0] == '/', 0, []), SplitOn(path, '/'))
  }

  function Ups(n: nat): seq<string> { seq(n, _ => "..") }

  function Elements(c: Clean): seq<string> { Ups(c.ups) + c.names }

  function Render(c: Clean): string {
    if Elements(c) == [] then (if c.rooted then "/" else ".")
    else (if c.rooted then "/" else "") + Join(Elements(c), "/")
  }

  // ----- joining -----

  /** What filepath.Join hands to the cleaner; only two empty arguments are not cleaned. */
  function JoinText(root: string, rel: string): string {
    if root == "" then rel else root + "/" + rel
  }

  function JoinPath(root: string, rel: string): string {
    if JoinText(root, rel) == "" then "" else Render(Cleaned(JoinText(root, rel)))
  }

  /** containedJoin: None where the joined path fails the prefix test. */
  function ContainedJoin(root: string, rel: string): Option<string> {
    var joined, cleanRoot := JoinPath(root, rel), Render(Cleaned(root));
    if joined == cleanRoot || cleanRoot + "/" <= joined then Some(joined) else None
  }

  // ----- disk paths -----

  datatype DiskError = NoRoutePath | InvalidRoute(error: PathError)

  datatype DiskPath = Found(path: string) | Failed(error: DiskError)

  predicate IsHexDigit(c: char) { IsDigit(c) || 'a' <= c <= 'f' }

  /** A lowercase hexadecimal SHA-256 digest; the digest function itself is a parameter. */
  predicate IsDigest(h: string) { |h| == 64 && forall i :: 0 <= i < |h| ==> IsHexDigit(h[i]) }

  function HashedPath(h: string): string
    requires IsDigest(h)
  {
    "@hashed" + "/" + h[0..2] + "/" + h[2..4] + "/" + (h + ".git")
  }

  /** repoDiskPath, with the digest of the project id. */
  function RepoDiskPath(hashed: bool, route: string, digest: string): DiskPath
    requires IsDigest(digest)
  {
    if hashed then Found(HashedPath(digest))
    else if route == "" then Failed(NoRoutePath)
    else if Validate(route).Some? then Failed(InvalidRoute(Validate(route).value))
    else Found(route + ".git")
  }

  lemma HashedText(h: string)
    requires IsDigest(h)
    ensures HashedPath(h) == "@hashed/" + h[0..2] + "/" + h[2..4] + "/" + h + ".git"
  {
    assert "@hashed" + "/" == "@hashed/";
    Regroup("@hashed/" + h[0..2] + "/" + h[2..4] + "/", h, ".git");
  }

  /** The path of every project, and the projects that have none. */
  lemma DiskPathIs(hashed: bool, route: string, digest: string)
    requires IsDigest(digest)
    ensures hashed ==>
              RepoDiskPath(hashed, route, digest)
              == Found("@hashed/" + digest[0..2] + "/" + digest[2..4] + "/" + digest + ".git")
    ensures !hashed && IsRoute(SplitOn(route, '/')) ==> RepoDiskPath(hashed, route, digest) == Found(route + ".git")
    ensures !hashed && !IsRoute(SplitOn(route, '/')) ==> RepoDiskPath(hashed, route, digest).Failed?
    ensures RepoDiskPath(hashed, route, digest) == Failed(NoRoutePath) <==> !hashed && route == ""
  {
    HashedText(digest);
    ValidateIff(route);
  }

  // ----- cleaning is stable -----

  lemma StepWellFormed(c: Clean, element: string)
    requires WellFormed(c) && '/' !in element
    ensures WellFormed(Step(c, element))
    ensures Step(c, element).rooted == c.rooted && Step(c, element).ups >= c.ups
  {
  }

  lemma {:induction false} WalkWellFormed(c: Clean, elements: seq<string>)
    requires WellFormed(c) && forall k :: 0 <= k < |elements| ==> '/' !in elements[k]
    ensures WellFormed(Walk(c, elements))
    ensures Walk(c, elements).rooted == c.rooted && Walk(c, elements).ups >= c.ups
    decreases |elements|
  {
    if elements != [] {
      StepWellFormed(c, elements[0]);
      WalkWellFormed(Step(c, elements[0]), elements[1..]);
    }
  }

  lemma CleanedWellFormed(path: string)
    ensures WellFormed(Cleaned(path))
    ensures Cleaned(path).rooted <==> path != "" && path[0] == '/'
  {
    JoinSplit(path, '/');
    WalkWellFormed(Clean(path != "" && path[0] == '/', 0, []), SplitOn(path, '/'));
  }

  lemma {:induction false} WalkConcat(c: Clean, a: seq<string>, b: seq<string>)
    ensures Walk(c, a + b) == Walk(Walk(c, a), b)
    decreases |a|
  {
    if a == [] {
      assert a + b == b;
    } else {
      assert (a + b)[0] == a[0] && (a + b)[1..] == a[1..] + b;
      WalkConcat(Step(c, a[0]), a[1..], b);
    }
  }

  lemma {:induction false} WalkNames(c: Clean, names: seq<string>)
    requires forall k :: 0 <= k < |names| ==> IsName(names[k])
    ensures Walk(c, names) == c.(names := c.names + names)
    decreases |names|
  {
    if names == [] {
      assert c.names + names == c.names;
    } else {
      WalkNames(Step(c, names[0]), names[1..]);
      assert c.names + names == c.names + [names[0]] + names[1..];
    }
  }

  lemma {:induction false} WalkUps(c: Clean, n: nat)
    requires !c.rooted && c.names == []
    ensures Walk(c, Ups(n)) == c.(ups := c.ups + n)
    decreases n
  {
    if n > 0 {
      assert Ups(n)[1..] == Ups(n - 1);
      WalkUps(Step(c, ".."), n - 1);
    }
  }

  lemma ElementsSlashFree(c: Clean)
    requires WellFormed(c)
    ensures forall k :: 0 <= k < |Elements(c)| ==> '/' !in Elements(c)[k] && Elements(c)[k] != ""
    ensures forall k :: 0 <= k < |Elements(c)| ==> Elements(c)[k] == ".." || IsName(Elements(c)[k])
  {
    forall k | 0 <= k < |Elements(c)|
      ensures '/' !in Elements(c)[k] && (Elements(c)[k] == ".." || IsName(Elements(c)[k]))
    {
      if k >= c.ups { assert Elements(c)[k] == c.names[k - c.ups]; } else { assert Elements(c)[k] == ".."; }
    }
  }

  lemma WalkElements(c: Clean)
    requires WellFormed(c)
    ensures Walk(Clean(c.rooted, 0, []), Elements(c)) == c
  {
    var start := Clean(c.rooted, 0, []);
    WalkConcat(start, Ups(c.ups), c.names);
    if c.rooted {
      assert Ups(0) == [];
    } else {
      WalkUps(start, c.ups);
    }
    WalkNames(start.(ups := c.ups), c.names);
    assert [] + c.names == c.names;
  }

  /** The parts of a rendered path. */
  lemma SplitRendered(c: Clean)
    requires WellFormed(c) && Elements(c) != []
    ensures SplitOn(Render(c), '/') == (if c.rooted then [""] else []) + Elements(c)
    ensures Render(c) != "" && (Render(c)[0] == '/' <==> c.rooted)
  {
    ElementsSlashFree(c);
    var es := Elements(c);
    SplitJoin(es, '/');
    JoinFirst(es);
    assert es[0][0] in es[0];
    if c.rooted {
      SplitConcat("", Join(es, "/"), '/');
      assert Render(c) == "" + ['/'] + Join(es, "/");
    } else {
      assert [] + es == es;
      assert Render(c) == Join(es, "/");
    }
  }

  /** Cleaning a cleaned path changes nothing, and no two cleaned paths print alike. */
  lemma RenderedCleans(c: Clean)
    requires WellFormed(c)
    ensures Cleaned(Render(c)) == c
  {
    if Elements(c) == [] {
      assert c.ups == 0 by { assert |Elements(c)| == c.ups + |c.names|; }
      if c.rooted {
        assert "/"[1..] == "";
        assert SplitOn("/", '/') == [""] + [""];
        assert ([""] + [""])[1..] == [""];
      } else {
        SplitChar(".", '/');
      }
    } else {
      SplitRendered(c);
      WalkElements(c);
      if c.rooted {
        assert ([""] + Elements(c))[1..] == Elements(c);
      } else {
        assert [] + Elements(c) == Elements(c);
      }
    }
  }

  // ----- containment -----

  /** The names of a path seen from a working directory. */
  function Resolve(cwd: seq<string>, c: Clean): seq<string> {
    if c.rooted then c.names
    else (if c.ups <= |cwd| then cwd[..|cwd| - c.ups] else []) + c.names
  }

  /**
    Where a walk along path elements leads from a directory, given by its names from the top: an empty
    element and "." stay, ".." goes up one level and stays at the top, a name goes down.
   */
  function Follow(dir: seq<string>, elements: seq<string>): seq<string>
    decreases |elements|
  {
    if elements == [] then dir
    else
      var e := elements[0];
      Follow(if e == "" || e == "." then dir
             else if e == ".." then (if dir == [] then [] else dir[..|dir| - 1])
             else dir + [e], elements[1..])
  }

  /** What a path names, seen from a working directory. */
  function Destination(cwd: seq<string>, path: string): seq<string> {
    Follow(if path != "" && path[0] == '/' then [] else cwd, SplitOn(path, '/'))
  }

  lemma FollowStep(cwd: seq<string>, c: Clean, e: string)
    requires c.rooted ==> c.ups == 0
    ensures Step(c, e).rooted == c.rooted && (c.rooted ==> Step(c, e).ups == 0)
    ensures var dir := Resolve(cwd, c);
            Resolve(cwd, Step(c, e)) == if e == "" || e == "." then dir
                                        else if e == ".." then (if dir == [] then [] else dir[..|dir| - 1])
                                        else dir + [e]
  {
    var base := if c.rooted || c.ups > |cwd| then [] else cwd[..|cwd| - c.ups];
    assert Resolve(cwd, c) == base + c.names;
    if e == ".." && c.names != [] {
      assert (base + c.names)[..|base + c.names| - 1] == base + c.names[..|c.names| - 1];
    } else if e != "" && e != "." && e != ".." {
      Regroup(base, c.names, [e]);
    }
  }

  lemma {:induction false} FollowWalk(cwd: seq<string>, c: Clean, elements: seq<string>)
    requires c.rooted ==> c.ups == 0
    ensures Resolve(cwd, Walk(c, elements)) == Follow(Resolve(cwd, c), elements)
    decreases |elements|
  {
    if elements != [] {
      FollowStep(cwd, c, elements[0]);
      FollowWalk(cwd, Step(c, elements[0]), elements[1..]);
    }
  }

  lemma CleanedMeans(cwd: seq<string>, path: string)
    ensures Resolve(cwd, Cleaned(path)) == Destination(cwd, path)
  {
    var start := Clean(path != "" && path[0] == '/', 0, []);
    assert cwd[..|cwd|] + [] == cwd;
    FollowWalk(cwd, start, SplitOn(path, '/'));
  }

  /** Cleaning keeps what a path names, from every working directory. */
  lemma CleaningKeepsMeaning(cwd: seq<string>, path: string)
    ensures Destination(cwd, Render(Cleaned(path))) == Destination(cwd, path)
  {
    CleanedWellFormed(path);
    RenderedCleans(Cleaned(path));
    CleanedMeans(cwd, path);
    CleanedMeans(cwd, Render(Cleaned(path)));
  }

  /** From every working directory, the path lies at or below the root. */
  ghost predicate Within(root: Clean, path: Clean) {
    forall cwd :: Resolve(cwd, root) <= Resolve(cwd, path)
  }

  /** The root's last cleaned element is a name: not "/", not ".", and not a run of "..". */
  predicate NamedRoot(root: string) { Cleaned(root).names != [] }

  /** The joined path is the root's cleaned path walked further. */
  lemma JoinedWalk(root: string, rel: string)
    requires root != ""
    ensures Cleaned(JoinText(root, rel)) == Walk(Cleaned(root), SplitOn(rel, '/'))
    ensures WellFormed(Cleaned(JoinText(root, rel)))
    ensures Cleaned(JoinText(root, rel)).rooted == Cleaned(root).rooted
    ensures Cleaned(JoinText(root, rel)).ups >= Cleaned(root).ups
  {
    assert root + "/" + rel == root + ['/'] + rel;
    SplitConcat(root, rel, '/');
    var start := Clean(root[0] == '/', 0, []);
    assert (root + "/" + rel)[0] == root[0];
    WalkConcat(start, SplitOn(root, '/'), SplitOn(rel, '/'));
    CleanedWellFormed(root);
    JoinSplit(rel, '/');
    WalkWellFormed(Cleaned(root), SplitOn(rel, '/'));
  }

  /** On named roots, lying within the root is having its elements as a prefix. */
  lemma WithinElements(x: Clean, y: Clean)
    requires WellFormed(x) && WellFormed(y) && x.rooted == y.rooted && y.ups >= x.ups && x.names != []
    ensures Within(x, y) <==> y.ups == x.ups && x.names <= y.names
  {
    if y.ups == x.ups && x.names <= y.names {
      forall cwd ensures Resolve(cwd, x) <= Resolve(cwd, y) {
        var base := if x.rooted || x.ups > |cwd| then [] else cwd[..|cwd| - x.ups];
        assert y.names == x.names + y.names[|x.names|..];
        assert Resolve(cwd, x) == base + x.names;
        assert Resolve(cwd, y) == base + x.names + y.names[|x.names|..];
      }
    } else if y.ups == x.ups {
      var cwd := Ups(x.ups);
      assert Resolve(cwd, x) == x.names && Resolve(cwd, y) == y.names;
    } else {
      // A working directory just deep enough, whose elements are longer than the path's first name.
      var odd := if y.names == [] then "x" else y.names[0] + "x";
      var cwd := seq(y.ups, _ => odd);
      assert Resolve(cwd, y) == y.names by { assert cwd[..0] == []; }
      assert Resolve(cwd, x)[0] == odd;
    }
  }

  lemma ElementsPrefix(x: Clean, y: Clean)
    requires WellFormed(x) && WellFormed(y) && x.names != []
    ensures Elements(x) <= Elements(y) <==> x.ups == y.ups && x.names <= y.names
  {
    var ex, ey := Elements(x), Elements(y);
    assert ex[x.ups] == x.names[0] && IsName(x.names[0]);
    if x.ups == y.ups {
      assert forall k :: 0 <= k < |x.names| ==> x.names[k] == ex[x.ups + k];
      assert forall k :: 0 <= k < |y.names| ==> y.names[k] == ey[x.ups + k];
      assert forall k :: 0 <= k < x.ups ==> ex[k] == ey[k];
    } else if x.ups < y.ups {
      assert ey[x.ups] == "..";
    } else {
      assert ex[y.ups] == "..";
      assert y.names != [] ==> ey[y.ups] == y.names[0] && IsName(y.names[0]);
    }
  }

  lemma {:induction false} JoinAppend(a: seq<string>, b: seq<string>)
    requires a != [] && b != []
    ensures Join(a + b, "/") == Join(a, "/") + "/" + Join(b, "/")
  {
    assert (a + b)[0] == a[0] && (a + b)[1..] == a[1..] + b;
    if |a| > 1 { JoinAppend(a[1..], b); }
  }

  /** The string test of the check is the prefix relation on elements. */
  lemma PrefixTest(x: Clean, y: Clean)
    requires WellFormed(x) && WellFormed(y) && x.rooted == y.rooted && x.names != []
    ensures (Render(y) == Render(x) || Render(x) + "/" <= Render(y)) <==> Elements(x) <= Elements(y)
  {
    var ex, ey := Elements(x), Elements(y);
    if ex <= ey {
      var rest := ey[|ex|..];
      assert ey == ex + rest;
      if rest != [] { JoinAppend(ex, rest); } else { assert ey == ex; }
    } else if Render(x) + "/" <= Render(y) {
      PrefixSplits(x, y);
    } else if Render(y) == Render(x) {
      RenderedCleans(x);
      RenderedCleans(y);
    }
  }

  lemma PrefixSplits(x: Clean, y: Clean)
    requires WellFormed(x) && WellFormed(y) && x.rooted == y.rooted && x.names != []
    requires Render(x) + "/" <= Render(y)
    ensures Elements(x) <= Elements(y)
  {
    var a, b := Render(x), Render(y);
    var t := b[|a| + 1..];
    PrefixText(a, b);
    SplitConcat(a, t, '/');
    SplitRendered(x);
    RenderLength(y);
    SplitRendered(y);
    if x.rooted {
      DropLead([""], Elements(y), Elements(x), SplitOn(t, '/'));
    } else {
      DropLead([], Elements(y), Elements(x), SplitOn(t, '/'));
    }
  }

  lemma PrefixText(a: string, b: string)
    requires a + "/" <= b
    ensures b == a + ['/'] + b[|a| + 1..]
  {
    assert b[..|a| + 1] == a + "/";
  }

  lemma RenderLength(y: Clean)
    requires |Render(y)| >= 2
    ensures Elements(y) != []
  {
  }

  lemma DropLead(lead: seq<string>, whole: seq<string>, a: seq<string>, b: seq<string>)
    requires lead + whole == lead + a + b
    ensures a <= whole
  {
    assert whole == (lead + whole)[|lead|..] == (lead + a + b)[|lead|..] == a + b;
  }

  lemma CleanedEmpty()
    ensures Cleaned("") == Clean(false, 0, [])
  {
    assert [""][1..] == [];
  }

  /** From every working directory, following `rel` from the root stays at or below the root. */
  ghost predicate Inside(root: string, rel: string) {
    forall cwd :: Destination(cwd, root) <= Follow(Destination(cwd, root), SplitOn(rel, '/'))
  }

  lemma JoinMeans(cwd: seq<string>, root: string, rel: string)
    requires root != ""
    ensures Resolve(cwd, Cleaned(JoinText(root, rel))) == Follow(Destination(cwd, root), SplitOn(rel, '/'))
  {
    CleanedWellFormed(root);
    JoinedWalk(root, rel);
    CleanedMeans(cwd, root);
    FollowWalk(cwd, Cleaned(root), SplitOn(rel, '/'));
  }

  lemma WithinIsInside(root: string, rel: string)
    requires root != ""
    ensures Within(Cleaned(root), Cleaned(JoinText(root, rel))) <==> Inside(root, rel)
  {
    forall cwd
      ensures Resolve(cwd, Cleaned(root)) <= Resolve(cwd, Cleaned(JoinText(root, rel)))
              <==> Destination(cwd, root) <= Follow(Destination(cwd, root), SplitOn(rel, '/'))
    {
      CleanedMeans(cwd, root);
      JoinMeans(cwd, root, rel);
    }
  }

  lemma JoinedText(root: string, rel: string)
    requires NamedRoot(root)
    ensures root != "" && WellFormed(Cleaned(JoinText(root, rel)))
    ensures var y := Cleaned(JoinText(root, rel));
            ContainedJoin(root, rel) == if Within(Cleaned(root), y) then Some(Render(y)) else None
  {
    CleanedEmpty();
    var x, y := Cleaned(root), Cleaned(JoinText(root, rel));
    CleanedWellFormed(root);
    JoinedWalk(root, rel);
    WithinElements(x, y);
    ElementsPrefix(x, y);
    PrefixTest(x, y);
  }

  /**
    Below a named root the check is exact, whatever the relative path holds, and what it returns names the
    place that the relative path leads to from the root.
   */
  lemma ContainedJoinExact(root: string, rel: string)
    requires NamedRoot(root)
    ensures ContainedJoin(root, rel).Some? <==> Inside(root, rel)
    ensures ContainedJoin(root, rel).Some? ==> forall cwd ::
              Destination(cwd, ContainedJoin(root, rel).value) == Follow(Destination(cwd, root), SplitOn(rel, '/'))
  {
    var y := Cleaned(JoinText(root, rel));
    JoinedText(root, rel);
    WithinIsInside(root, rel);
    forall cwd ensures Destination(cwd, Render(y)) == Follow(Destination(cwd, root), SplitOn(rel, '/')) {
      RenderedCleans(y);
      CleanedMeans(cwd, Render(y));
      JoinMeans(cwd, root, rel);
    }
  }

  /** The check's verdict on one relative path is right. */
  ghost predicate Exact(root: string, rel: string) {
    ContainedJoin(root, rel).Some? <==> Inside(root, rel)
  }

  lemma ElementA()
    ensures SplitOn("a", '/') == ["a"] && IsName("a")
  {
    SplitChar("a", '/');
    assert "a"[0] == 'a' && "."[0] == '.' && ".."[0] == '.';
  }

  /** Without a name in the root, every single name is refused below "/" and "." although it lies within them. */
  lemma RefusesBelowBareRoot(root: string, name: string)
    requires Cleaned(root).names == [] && Cleaned(root).ups == 0
    requires IsName(name) && SplitOn(name, '/') == [name]
    ensures !Exact(root, name)
  {
    BareJoin(root, name);
    NoPrefix(Cleaned(root), name);
    assert [name][1..] == [];
    assert forall dir :: Follow(dir, [name]) == dir + [name];
  }

  lemma BareJoin(root: string, name: string)
    requires Cleaned(root).names == [] && Cleaned(root).ups == 0
    requires IsName(name) && SplitOn(name, '/') == [name]
    ensures Cleaned(JoinText(root, name)) == Cleaned(root).(names := [name])
  {
    var x := Cleaned(root);
    assert [] + [name] == [name];
    if root != "" {
      JoinedWalk(root, name);
      WalkNames(x, [name]);
    } else {
      WalkNames(Clean(false, 0, []), [name]);
    }
  }

  lemma NoPrefix(x: Clean, name: string)
    requires x.names == [] && x.ups == 0 && IsName(name) && SplitOn(name, '/') == [name]
    ensures var r, t := Render(x), Render(x.(names := [name])); t != r && !(r + "/" <= t)
  {
    var y := x.(names := [name]);
    JoinSplit(name, '/');
    assert '/' !in SplitOn(name, '/')[0];
    assert Elements(y) == [name] && Elements(x) == [];
    if x.rooted {
      assert Render(y) == "/" + name && Render(x) == "/";
      assert name != "" && name[0] in name;
      assert (Render(x) + "/")[1] == '/' && Render(y)[1] == name[0];
    } else {
      assert Render(y) == "" + name == name && Render(x) == ".";
      assert ("." + "/")[1] == '/';
      assert |name| >= 2 ==> name[1] in name;
    }
  }

  lemma {:induction false} UpsJoin(n: nat)
    requires n > 0
    ensures Join(Ups(n + 1), "/") == Join(Ups(n), "/") + "/" + ".."
  {
    assert Ups(n + 1) == Ups(n) + [".."];
    JoinAppend(Ups(n), [".."]);
  }

  /** Below a run of "..", one more ".." leaves the root and is accepted. */
  lemma AcceptsAboveUps(root: string)
    requires Cleaned(root).names == [] && Cleaned(root).ups > 0
    ensures !Exact(root, "..")
  {
    var x, y := Cleaned(root), Cleaned(JoinText(root, ".."));
    CleanedWellFormed(root);
    CleanedEmpty();
    JoinedWalk(root, "..");
    SplitChar("..", '/');
    assert [".."][1..] == [];
    assert y == Step(x, "..") == x.(ups := x.ups + 1);
    UpsJoin(x.ups);
    assert Elements(x) == Ups(x.ups) && Elements(y) == Ups(x.ups + 1);
    assert Render(x) + "/" <= Render(y);
    var cwd := seq(x.ups + 1, _ => "d");
    assert |Resolve(cwd, x)| == 1 && |Resolve(cwd, y)| == 0;
    CleanedMeans(cwd, root);
    JoinMeans(cwd, root, "..");
  }

  /** The check tells containment correctly for every relative path exactly when the root has a name. */
  lemma ContainmentIff(root: string)
    ensures (forall rel :: Exact(root, rel)) <==> NamedRoot(root)
  {
    if NamedRoot(root) {
      forall rel ensures Exact(root, rel) { ContainedJoinExact(root, rel); }
    } else if Cleaned(root).ups == 0 {
      ElementA();
      RefusesBelowBareRoot(root, "a");
    } else {
      AcceptsAboveUps(root);
    }
  }

  // ----- disk paths below the root -----

  lemma RenderExtended(x: Clean, names: seq<string>)
    requires x.names != [] && names != []
    ensures Render(x.(names := x.names + names)) == Render(x) + "/" + Join(names, "/")
  {
    var y, slash := x.(names := x.names + names), if x.rooted then "/" else "";
    Regroup(Ups(x.ups), x.names, names);
    JoinAppend(Elements(x), names);
    assert Elements(y) == Elements(x) + names && |Elements(x)| >= |x.names|;
    assert Render(y) == slash + (Join(Elements(x), "/") + "/" + Join(names, "/"));
    assert Render(x) == slash + Join(Elements(x), "/");
    PrefixedJoin(slash, Join(Elements(x), "/"), Join(names, "/"));
  }

  lemma PrefixedJoin(a: string, b: string, c: string)
    ensures a + (b + "/" + c) == a + b + "/" + c
  {
  }

  lemma WalkedNames(root: string, names: seq<string>)
    requires NamedRoot(root) && names != [] && forall k :: 0 <= k < |names| ==> IsName(names[k])
    ensures root != ""
    ensures Cleaned(JoinText(root, Join(names, "/"))) == Cleaned(root).(names := Cleaned(root).names + names)
  {
    CleanedEmpty();
    JoinedWalk(root, Join(names, "/"));
    SplitJoin(names, '/');
    WalkNames(Cleaned(root), names);
  }

  /** A relative path of plain names lands at its own place below the root. */
  lemma NamesJoin(root: string, names: seq<string>)
    requires NamedRoot(root) && names != [] && forall k :: 0 <= k < |names| ==> IsName(names[k])
    ensures ContainedJoin(root, Join(names, "/")) == Some(Render(Cleaned(root)) + "/" + Join(names, "/"))
  {
    var rel := Join(names, "/");
    WalkedNames(root, names);
    RenderExtended(Cleaned(root), names);
    var joined := JoinPath(root, rel);
    assert joined == Render(Cleaned(root)) + "/" + rel;
    assert Render(Cleaned(root)) + "/" <= joined;
  }

  lemma {:induction false} JoinSuffix(parts: seq<string>, suffix: string)
    requires parts != []
    ensures Join(parts, "/") + suffix == Join(parts[..|parts| - 1] + [parts[|parts| - 1] + suffix], "/")
  {
    var last := parts[|parts| - 1] + suffix;
    var changed := parts[..|parts| - 1] + [last];
    if |parts| == 1 {
      assert changed == [last];
    } else {
      JoinSuffix(parts[1..], suffix);
      assert changed[1..] == parts[1..][..|parts| - 2] + [last];
      assert changed[0] == parts[0];
    }
  }

  /** Every accepted route is fetched at exactly root/route.git. */
  lemma RouteContained(root: string, route: string)
    requires NamedRoot(root) && Validate(route).None?
    ensures ContainedJoin(root, route + ".git") == Some(Render(Cleaned(root)) + "/" + route + ".git")
  {
    var parts := SplitOn(route, '/');
    ValidateIff(route);
    JoinSplit(route, '/');
    JoinSuffix(parts, ".git");
    var n := |parts| - 1;
    var names := parts[..n] + [parts[n] + ".git"];
    forall k | 0 <= k < |names| ensures IsName(names[k]) {
      if k < n { assert names[k] == parts[k] && IsSegment(parts[k]); } else { assert IsSegment(parts[n]); }
    }
    NamesJoin(root, names);
    assert Render(Cleaned(root)) + "/" + route + ".git" == Render(Cleaned(root)) + "/" + (route + ".git");
  }

  lemma HashedNames(h: string)
    requires IsDigest(h)
    ensures var names := ["@hashed", h[0..2], h[2..4], h + ".git"];
            (forall k :: 0 <= k < |names| ==> IsName(names[k])) && Join(names, "/") == HashedPath(h)
  {
    assert IsHexDigit(h[0]) && IsHexDigit(h[2]);
    assert h[0..2][0] == h[0] && h[2..4][0] == h[2];
    assert forall i :: 0 <= i < |h| ==> h[i] != '/';
    HexName(h[0..2]);
    HexName(h[2..4]);
    GitName(h);
    JoinFour("@hashed", h[0..2], h[2..4], h + ".git");
    assert "@hashed"[0] == '@';
  }

  lemma HexName(s: string)
    requires s != "" && forall i :: 0 <= i < |s| ==> IsHexDigit(s[i])
    ensures IsName(s)
  {
    assert IsHexDigit(s[0]);
  }

  lemma GitName(s: string)
    requires s != "" && '/' !in s
    ensures IsName(s + ".git")
  {
    assert |s + ".git"| >= 5;
    assert '/' !in ".git";
  }

  lemma JoinFour(a: string, b: string, c: string, d: string)
    ensures Join([a, b, c, d], "/") == a + "/" + b + "/" + c + "/" + d
  {
    assert [a, b, c, d][1..] == [b, c, d] && [b, c, d][1..] == [c, d] && [c, d][1..] == [d];
    assert Join([c, d], "/") == c + "/" + d;
    assert Join([b, c, d], "/") == b + "/" + (c + "/" + d);
    assert Join([a, b, c, d], "/") == a + "/" + (b + "/" + (c + "/" + d));
  }

  /** Whatever disk path a project gets, legacy or hashed, it is fetched at that path below the root. */
  lemma DiskPathContained(root: string, hashed: bool, route: string, digest: string)
    requires NamedRoot(root) && IsDigest(digest)
    ensures var d := RepoDiskPath(hashed, route, digest);
            d.Found? ==> ContainedJoin(root, d.path) == Some(Render(Cleaned(root)) + "/" + d.path)
  {
    if hashed {
      HashedContained(root, digest);
    } else if route != "" && Validate(route).None? {
      RouteContained(root, route);
      Regroup(Render(Cleaned(root)) + "/", route, ".git");
    }
  }

  lemma HashedContained(root: string, digest: string)
    requires NamedRoot(root) && IsDigest(digest)
    ensures ContainedJoin(root, HashedPath(digest)) == Some(Render(Cleaned(root)) + "/" + HashedPath(digest))
  {
    var names := ["@hashed", digest[0..2], digest[2..4], digest + ".git"];
    HashedNames(digest);
    NamesJoin(root, names);
  }

  lemma Suffixed(a: string, b: string, suffix: string)
    ensures a + suffix == b + suffix ==> a == b
  {
    if a + suffix == b + suffix {
      assert |a| == |b|;
      assert a == (a + suffix)[..|a|];
      assert b == (b + suffix)[..|b|];
    }
  }

  lemma LegacyNotHashed(route: string, digest: string)
    requires IsDigest(digest) && Validate(route).None?
    ensures route + ".git" != HashedPath(digest)
  {
    assert HashedPath(digest)[0] == '@';
    assert (route + ".git")[0] == route[0] && IsAlnum(route[0]);
  }

  /** Two projects share a disk path only if both are legacy with one route, or both hashed with one digest. */
  lemma DiskPathsDistinct(hashed1: bool, route1: string, digest1: string, hashed2: bool, route2: string, digest2: string)
    requires IsDigest(digest1) && IsDigest(digest2)
    requires RepoDiskPath(hashed1, route1, digest1).Found? && RepoDiskPath(hashed2, route2, digest2).Found?
    requires RepoDiskPath(hashed1, route1, digest1) == RepoDiskPath(hashed2, route2, digest2)
    ensures hashed1 == hashed2 && (if hashed1 then digest1 == digest2 else route1 == route2)
  {
    if hashed1 && hashed2 {
      var p1, p2 := HashedPath(digest1), HashedPath(digest2);
      assert |p1| == |p2| == 82;
      assert p1[14..78] == digest1 && p2[14..78] == digest2;
    } else if !hashed1 && !hashed2 {
      Suffixed(route1, route2, ".git");
    } else {
      LegacyNotHashed(if hashed1 then route2 else route1, if hashed1 then digest1 else digest2);
    }
  }
}
