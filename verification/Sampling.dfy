/**
  The repository sample of the consistency sweep (internal/reconciler/consistency): a partial
  Fisher-Yates shuffle in place. Random draws are a parameter; the theorems count them.
 */
module Sampling {
  import opened Util

  // ----- the shuffle -----

  function Swap<T>(s: seq<T>, j: nat): (r: seq<T>)
    requires j < |s|
    ensures |r| == |s|
  {
    s[0 := s[j]][j := s[0]]
  }

  /** The k-th draw picks among the elements not drawn before. */
  predicate IsDraw(m: nat, draw: seq<nat>) {
    |draw| <= m && forall k :: 0 <= k < |draw| ==> draw[k] < m - k
  }

  lemma DrawTail(m: nat, draw: seq<nat>)
    requires IsDraw(m, draw) && draw != []
    ensures draw[0] < m && IsDraw(m - 1, draw[1..])
  {
    forall k | 0 <= k < |draw[1..]| ensures draw[1..][k] < m - 1 - k {
      assert draw[1..][k] == draw[k + 1];
    }
  }

  /** What the pool becomes: each draw moves an element to the front of the rest. */
  function Shuffled<T>(pool: seq<T>, draw: seq<nat>): (r: seq<T>)
    requires IsDraw(|pool|, draw)
    ensures |r| == |pool|
    decreases |draw|
  {
    if draw == [] then pool
    else
      DrawTail(|pool|, draw);
      var s := Swap(pool, draw[0]);
      [s[0]] + Shuffled(s[1..], draw[1..])
  }

  function Sample<T>(pool: seq<T>, draw: seq<nat>): (r: seq<T>)
    requires IsDraw(|pool|, draw)
    ensures |r| == |draw|
  {
    Shuffled(pool, draw)[..|draw|]
  }

  /** int(float64(len) * pct), clamped to at least one and at most all repositories. */
  function SampleSize(m: nat, pct: real): (n: nat)
    requires m > 0 && pct > 0.0
    ensures 1 <= n <= m
  {
    var n := (m as real * pct).Floor;
    if n < 1 then 1 else if n > m then m else n
  }

  /** The share of the repositories rounded down, but at least one and no more than there are. */
  lemma SampleSizeIs(m: nat, pct: real)
    requires m > 0 && pct > 0.0
    ensures 1.0 <= m as real * pct < m as real + 1.0 ==> SampleSize(m, pct) as real <= m as real * pct < SampleSize(m, pct) as real + 1.0
    ensures m as real * pct < 1.0 ==> SampleSize(m, pct) == 1
    ensures m as real * pct >= m as real ==> SampleSize(m, pct) == m
  {
    var x := m as real * pct;
    assert x.Floor as real <= x < x.Floor as real + 1.0;
  }

  lemma DrawBound(m: nat, draw: seq<nat>, i: nat)
    requires IsDraw(m, draw) && i <= |draw|
    ensures IsDraw(m - i, draw[i..])
  {
    forall k | 0 <= k < |draw[i..]| ensures draw[i..][k] < m - i - k {
      assert draw[i..][k] == draw[i + k];
    }
  }

  /** One iteration of the loop, seen on the part not yet drawn. */
  lemma ShuffleStep<T>(before: seq<T>, after: seq<T>, draw: seq<nat>, i: nat)
    requires IsDraw(|before|, draw) && i < |draw|
    requires i + draw[i] < |before| && after == before[i := before[i + draw[i]]][i + draw[i] := before[i]]
    ensures IsDraw(|before| - i, draw[i..]) && IsDraw(|before| - i - 1, draw[i + 1..])
    ensures before[..i] + Shuffled(before[i..], draw[i..]) == after[..i + 1] + Shuffled(after[i + 1..], draw[i + 1..])
  {
    DrawBound(|before|, draw, i);
    DrawBound(|before|, draw, i + 1);
    assert draw[i..][0] == draw[i] && draw[i..][1..] == draw[i + 1..];
    var s := Swap(before[i..], draw[i]);
    assert s == after[i..];
    assert s[0] == after[i] && s[1..] == after[i + 1..];
    assert after[..i + 1] == before[..i] + [after[i]];
    Regroup(before[..i], [after[i]], Shuffled(after[i + 1..], draw[i + 1..]));
  }

  /** The swap loop of sampleGitFsck. */
  method Shuffle<T>(a: array<T>, draw: seq<nat>)
    requires IsDraw(a.Length, draw)
    modifies a
    ensures a[..] == Shuffled(old(a[..]), draw)
  {
    assert draw[0..] == draw;
    for i := 0 to |draw|
      invariant IsDraw(a.Length - i, draw[i..])
      invariant Shuffled(old(a[..]), draw) == a[..i] + Shuffled(a[i..], draw[i..])
    {
      ghost var before := a[..];
      assert a[..i] == before[..i] && a[i..] == before[i..];
      assert draw[i] < a.Length - i;
      var j := i + draw[i];
      a[i], a[j] := a[j], a[i];
      assert a[..] == before[i := before[j]][j := before[i]];
      ShuffleStep(before, a[..], draw, i);
      assert a[..][..i + 1] == a[..i + 1] && a[..][i + 1..] == a[i + 1..];
    }
    assert draw[|draw|..] == [] && a[..] == a[..|draw|] + a[|draw|..];
  }

  /** The failing repositories of a list. */
  function Failing<T>(repos: seq<T>, ok: T -> bool): nat {
    if repos == [] then 0 else Failing(repos[..|repos| - 1], ok) + (if ok(repos[|repos| - 1]) then 0 else 1)
  }

  ghost function FailingPlaces<T>(repos: seq<T>, ok: T -> bool): set<int> { set i | 0 <= i < |repos| && !ok(repos[i]) }

  lemma {:induction false} FailingIs<T>(repos: seq<T>, ok: T -> bool)
    ensures Failing(repos, ok) == |set i | 0 <= i < |repos| && !ok(repos[i])|
  {
    if repos == [] {
      assert FailingPlaces(repos, ok) == {};
    } else {
      var n := |repos| - 1;
      FailingIs(repos[..n], ok);
      assert FailingPlaces(repos, ok) == FailingPlaces(repos[..n], ok) + if ok(repos[n]) then {} else {n};
    }
  }

  /** sampleGitFsck after the directory walk: shuffle, then check the drawn repositories in turn. */
  method SampleGitFsck<T>(repos: array<T>, pct: real, draw: seq<nat>, ok: T -> bool) returns (failed: nat)
    requires IsDraw(repos.Length, draw)
    requires pct > 0.0 && repos.Length > 0 ==> |draw| == SampleSize(repos.Length, pct)
    modifies repos
    ensures pct <= 0.0 || repos.Length == 0 ==> failed == 0 && repos[..] == old(repos[..])
    ensures pct > 0.0 && repos.Length > 0 ==>
              && repos[..] == Shuffled(old(repos[..]), draw)
              && failed == |set i | 0 <= i < |draw| && !ok(Sample(old(repos[..]), draw)[i])|
  {
    failed := 0;
    if pct <= 0.0 || repos.Length == 0 {
      return;
    }
    var n := SampleSize(repos.Length, pct);
    Shuffle(repos, draw);
    ghost var sample := repos[..n];
    assert sample == Sample(old(repos[..]), draw);
    for i := 0 to n
      invariant failed == Failing(sample[..i], ok)
    {
      assert sample[..i + 1][..i] == sample[..i] && sample[..i + 1][i] == repos[i];
      if !ok(repos[i]) {
        failed := failed + 1;
      }
    }
    assert sample[..n] == sample;
    FailingIs(sample, ok);
  }

  // ----- the shuffle permutes -----

  lemma SwapPermutes<T>(s: seq<T>, j: nat)
    requires j < |s|
    ensures multiset(Swap(s, j)) == multiset(s)
  {
  }

  /** Nothing is lost, added or repeated in the array. */
  lemma {:induction false} ShufflePermutes<T>(pool: seq<T>, draw: seq<nat>)
    requires IsDraw(|pool|, draw)
    ensures multiset(Shuffled(pool, draw)) == multiset(pool)
    decreases |draw|
  {
    if draw != [] {
      DrawTail(|pool|, draw);
      var s := Swap(pool, draw[0]);
      SwapPermutes(pool, draw[0]);
      ShufflePermutes(s[1..], draw[1..]);
      assert s == [s[0]] + s[1..];
    }
  }

  // ----- one draw for each arrangement -----

  predicate Distinct<T(==)>(s: seq<T>) { forall i, j :: 0 <= i < j < |s| ==> s[i] != s[j] }

  predicate Among<T(==)>(t: seq<T>, pool: seq<T>) { forall i :: 0 <= i < |t| ==> t[i] in pool }

  /** An ordered selection without repetition. */
  predicate IsArrangement<T(==)>(pool: seq<T>, t: seq<T>) { Distinct(t) && Among(t, pool) }

  function Find<T(==)>(s: seq<T>, x: T): (i: nat)
    requires x in s
    ensures i < |s| && s[i] == x
  {
    if s[0] == x then 0 else 1 + Find(s[1..], x)
  }

  /** The pool left after drawing its j-th element. */
  function Rest<T>(pool: seq<T>, j: nat): (r: seq<T>)
    requires j < |pool|
    ensures |r| == |pool| - 1
  {
    Swap(pool, j)[1..]
  }

  lemma RestMembers<T>(pool: seq<T>, j: nat)
    requires Distinct(pool) && j < |pool|
    ensures Distinct(Rest(pool, j))
    ensures forall x :: x in Rest(pool, j) <==> x in pool && x != pool[j]
  {
    var r := Rest(pool, j);
    assert forall i :: 0 <= i < |r| ==> r[i] == if i + 1 == j then pool[0] else pool[i + 1];
    forall x | x in pool && x != pool[j] ensures x in r {
      var i :| 0 <= i < |pool| && pool[i] == x;
      if i == 0 { assert r[j - 1] == x; } else { assert r[i - 1] == x; }
    }
  }

  lemma SampleCons<T>(pool: seq<T>, draw: seq<nat>)
    requires IsDraw(|pool|, draw) && draw != []
    ensures draw[0] < |pool| && IsDraw(|pool| - 1, draw[1..])
    ensures Sample(pool, draw) == [pool[draw[0]]] + Sample(Rest(pool, draw[0]), draw[1..])
  {
    DrawTail(|pool|, draw);
  }

  /** The draw that produces a given arrangement. */
  function DrawOf<T(==)>(pool: seq<T>, t: seq<T>): seq<nat>
    requires Distinct(pool) && IsArrangement(pool, t)
    decreases |t|
  {
    if t == [] then []
    else
      var j := Find(pool, t[0]);
      RestMembers(pool, j);
      ArrangementTail(pool, t);
      [j] + DrawOf(Rest(pool, j), t[1..])
  }

  lemma ArrangementTail<T>(pool: seq<T>, t: seq<T>)
    requires Distinct(pool) && IsArrangement(pool, t) && t != []
    ensures IsArrangement(Rest(pool, Find(pool, t[0])), t[1..])
  {
    RestMembers(pool, Find(pool, t[0]));
    assert forall i :: 0 <= i < |t[1..]| ==> t[1..][i] == t[i + 1];
  }

  lemma DistinctCons<T>(h: T, tail: seq<T>)
    requires h !in tail && Distinct(tail)
    ensures Distinct([h] + tail)
  {
  }

  /** The sample has as many repositories as draws, all different and all from the pool. */
  lemma {:induction false} SampleIsArrangement<T>(pool: seq<T>, draw: seq<nat>)
    requires Distinct(pool) && IsDraw(|pool|, draw)
    ensures IsArrangement(pool, Sample(pool, draw))
    decreases |draw|
  {
    if draw != [] {
      SampleCons(pool, draw);
      var rest := Rest(pool, draw[0]);
      RestMembers(pool, draw[0]);
      SampleIsArrangement(rest, draw[1..]);
      DistinctCons(pool[draw[0]], Sample(rest, draw[1..]));
    }
  }

  lemma FindUnique<T>(pool: seq<T>, j: nat)
    requires Distinct(pool) && j < |pool|
    ensures Find(pool, pool[j]) == j
  {
  }

  /** Different draws give different samples: the draw can be read back from the sample. */
  lemma {:induction false} DrawOfSample<T>(pool: seq<T>, draw: seq<nat>)
    requires Distinct(pool) && IsDraw(|pool|, draw)
    ensures IsArrangement(pool, Sample(pool, draw)) && DrawOf(pool, Sample(pool, draw)) == draw
    decreases |draw|
  {
    SampleIsArrangement(pool, draw);
    if draw != [] {
      SampleCons(pool, draw);
      var rest, t := Rest(pool, draw[0]), Sample(pool, draw);
      RestMembers(pool, draw[0]);
      FindUnique(pool, draw[0]);
      assert t[0] == pool[draw[0]] && t[1..] == Sample(rest, draw[1..]);
      DrawOfSample(rest, draw[1..]);
      assert draw == [draw[0]] + draw[1..];
    }
  }

  lemma {:induction false} DrawOfIsDraw<T>(pool: seq<T>, t: seq<T>)
    requires Distinct(pool) && IsArrangement(pool, t)
    ensures IsDraw(|pool|, DrawOf(pool, t)) && |DrawOf(pool, t)| == |t|
    decreases |t|
  {
    if t != [] {
      var j := Find(pool, t[0]);
      RestMembers(pool, j);
      ArrangementTail(pool, t);
      DrawOfIsDraw(Rest(pool, j), t[1..]);
      var tail, d := DrawOf(Rest(pool, j), t[1..]), DrawOf(pool, t);
      assert d == [j] + tail;
      assert forall k :: 1 <= k < |d| ==> d[k] == tail[k - 1];
    }
  }

  /** Every arrangement is the sample of exactly one draw. */
  lemma {:induction false} SampleOfDrawOf<T>(pool: seq<T>, t: seq<T>)
    requires Distinct(pool) && IsArrangement(pool, t)
    ensures IsDraw(|pool|, DrawOf(pool, t)) && Sample(pool, DrawOf(pool, t)) == t
    decreases |t|
  {
    DrawOfIsDraw(pool, t);
    if t != [] {
      var j := Find(pool, t[0]);
      RestMembers(pool, j);
      ArrangementTail(pool, t);
      SampleOfDrawOf(Rest(pool, j), t[1..]);
      var d := DrawOf(pool, t);
      SampleCons(pool, d);
      assert d[0] == j && d[1..] == DrawOf(Rest(pool, j), t[1..]);
    }
  }

  // ----- counting draws -----

  /** All draws of n out of m. */
  function Draws(m: nat, n: nat): set<seq<nat>>
    requires n <= m
    decreases n
  {
    if n == 0 then {[]}
    else set j: nat, d | 0 <= j < m && d in Draws(m - 1, n - 1) :: [j] + d
  }

  lemma {:induction false} DrawsComplete(m: nat, n: nat, d: seq<nat>)
    requires n <= m
    ensures d in Draws(m, n) <==> |d| == n && IsDraw(m, d)
    decreases n
  {
    if n > 0 {
      if |d| == n && IsDraw(m, d) {
        DrawTail(m, d);
        DrawsComplete(m - 1, n - 1, d[1..]);
        assert d == [d[0]] + d[1..];
      }
      if d in Draws(m, n) {
        var j: nat, t :| 0 <= j < m && t in Draws(m - 1, n - 1) && d == [j] + t;
        DrawsComplete(m - 1, n - 1, t);
        assert forall k :: 1 <= k < |d| ==> d[k] == t[k - 1];
      }
    }
  }

  /** m (m - 1) ... (m - n + 1). */
  function Falling(m: nat, n: nat): nat
    requires n <= m
  {
    if n == 0 then 1 else m * Falling(m - 1, n - 1)
  }

  /** The continuations after a first draw j that keep the draw in `ds`. */
  ghost function After(ds: set<seq<nat>>, j: nat): set<seq<nat>> {
    set d | d in ds && d != [] && d[0] == j :: d[1..]
  }

  ghost function SumAfter(ds: set<seq<nat>>, m: nat): nat {
    if m == 0 then 0 else SumAfter(ds, m - 1) + |After(ds, m - 1)|
  }

  ghost function StartingBelow(ds: set<seq<nat>>, m: nat): set<seq<nat>> {
    set d | d in ds && d != [] && d[0] < m
  }

  ghost function StartingAt(ds: set<seq<nat>>, j: nat): set<seq<nat>> {
    set d | d in ds && d != [] && d[0] == j
  }

  lemma {:induction false} SameSize(a: set<seq<nat>>, j: nat)
    requires forall d :: d in a ==> d != [] && d[0] == j
    ensures |After(a, j)| == |a|
    decreases a
  {
    if a == {} {
      assert After(a, j) == {};
    } else {
      var x :| x in a;
      var rest := a - {x};
      SameSize(rest, j);
      assert x[1..] !in After(rest, j) by {
        forall d | d in rest ensures d[1..] != x[1..] {
          assert d == [j] + d[1..] && x == [j] + x[1..];
        }
      }
      assert After(a, j) == After(rest, j) + {x[1..]};
    }
  }

  /** A set of draws is counted by its first choices. */
  lemma {:induction false} CountByFirst(ds: set<seq<nat>>, m: nat)
    ensures |StartingBelow(ds, m)| == SumAfter(ds, m)
  {
    if m == 0 {
      assert StartingBelow(ds, 0) == {};
    } else {
      CountByFirst(ds, m - 1);
      var at := StartingAt(ds, m - 1);
      SameSize(at, m - 1);
      assert After(at, m - 1) == After(ds, m - 1);
      assert StartingBelow(ds, m) == StartingBelow(ds, m - 1) + at;
      assert StartingBelow(ds, m - 1) !! at;
    }
  }

  lemma AfterDraws(m: nat, n: nat, j: nat)
    requires 0 < n <= m && j < m
    ensures After(Draws(m, n), j) == Draws(m - 1, n - 1)
  {
    forall t ensures t in After(Draws(m, n), j) <==> t in Draws(m - 1, n - 1) {
      if t in After(Draws(m, n), j) {
        var d :| d in Draws(m, n) && d != [] && d[0] == j && d[1..] == t;
        var k: nat, u :| 0 <= k < m && u in Draws(m - 1, n - 1) && d == [k] + u;
        assert d[1..] == u;
      }
      if t in Draws(m - 1, n - 1) {
        var d := [j] + t;
        assert d in Draws(m, n) && d[1..] == t;
      }
    }
  }

  lemma {:induction false} SumConstant(ds: set<seq<nat>>, m: nat, c: nat)
    requires forall j :: 0 <= j < m ==> |After(ds, j)| == c
    ensures SumAfter(ds, m) == m * c
  {
    if m > 0 {
      SumConstant(ds, m - 1, c);
      assert (m - 1) * c + c == m * c;
    }
  }

  lemma DrawsStartBelow(m: nat, n: nat, ds: set<seq<nat>>)
    requires 0 < n <= m && ds <= Draws(m, n)
    ensures StartingBelow(ds, m) == ds
  {
    forall d | d in ds ensures d != [] && d[0] < m { DrawsComplete(m, n, d); }
  }

  /** There are m (m - 1) ... (m - n + 1) draws, one for each arrangement. */
  lemma {:induction false} CountDraws(m: nat, n: nat)
    requires n <= m
    ensures |Draws(m, n)| == Falling(m, n)
    decreases n
  {
    if n > 0 {
      CountDraws(m - 1, n - 1);
      DrawsStartBelow(m, n, Draws(m, n));
      CountByFirst(Draws(m, n), m);
      forall j | 0 <= j < m ensures |After(Draws(m, n), j)| == Falling(m - 1, n - 1) { AfterDraws(m, n, j); }
      SumConstant(Draws(m, n), m, Falling(m - 1, n - 1));
    }
  }

  /** The draws whose sample holds `x`. */
  ghost function DrawsWith<T>(pool: seq<T>, n: nat, x: T): set<seq<nat>>
    requires n <= |pool|
  {
    set d | d in Draws(|pool|, n) && IsDraw(|pool|, d) && x in Sample(pool, d)
  }

  lemma SampleHas<T>(pool: seq<T>, j: nat, t: seq<nat>, x: T)
    requires IsDraw(|pool|, [j] + t)
    ensures j < |pool| && IsDraw(|pool| - 1, t)
    ensures x in Sample(pool, [j] + t) <==> x == pool[j] || x in Sample(Rest(pool, j), t)
  {
    SampleCons(pool, [j] + t);
    assert ([j] + t)[1..] == t;
  }

  lemma DrawCons(m: nat, j: nat, t: seq<nat>)
    requires j < m
    ensures IsDraw(m, [j] + t) <==> IsDraw(m - 1, t)
  {
    var d := [j] + t;
    assert forall k :: 1 <= k < |d| ==> d[k] == t[k - 1];
    assert forall k :: 0 <= k < |t| ==> t[k] == d[k + 1] && m - 1 - k == m - (k + 1);
  }

  lemma AfterHas(ds: set<seq<nat>>, j: nat, t: seq<nat>)
    ensures t in After(ds, j) <==> [j] + t in ds
  {
    var d := [j] + t;
    assert d[1..] == t && d[0] == j;
    if t in After(ds, j) {
      var e :| e in ds && e != [] && e[0] == j && e[1..] == t;
      assert e == d;
    }
  }

  /** What follows the first choice `j` in one draw. */
  lemma DrawsWithCons<T>(pool: seq<T>, n: nat, x: T, j: nat, t: seq<nat>)
    requires Distinct(pool) && 0 < n <= |pool| && j < |pool|
    ensures [j] + t in DrawsWith(pool, n, x)
            <==> if pool[j] == x then t in Draws(|pool| - 1, n - 1) else t in DrawsWith(Rest(pool, j), n - 1, x)
  {
    var m, d := |pool|, [j] + t;
    DrawsComplete(m, n, d);
    DrawsComplete(m - 1, n - 1, t);
    DrawCons(m, j, t);
    if d in Draws(m, n) { SampleHas(pool, j, t, x); }
  }

  /** First choice x: every continuation counts. Another first choice: x is still in the rest. */
  lemma AfterDrawsWith<T>(pool: seq<T>, n: nat, x: T, j: nat)
    requires Distinct(pool) && 0 < n <= |pool| && j < |pool|
    ensures After(DrawsWith(pool, n, x), j)
            == if pool[j] == x then Draws(|pool| - 1, n - 1) else DrawsWith(Rest(pool, j), n - 1, x)
  {
    forall t ensures t in After(DrawsWith(pool, n, x), j)
                     <==> t in if pool[j] == x then Draws(|pool| - 1, n - 1) else DrawsWith(Rest(pool, j), n - 1, x)
    {
      AfterHas(DrawsWith(pool, n, x), j, t);
      DrawsWithCons(pool, n, x, j, t);
    }
  }

  lemma {:induction false} SumWithOne(ds: set<seq<nat>>, m: nat, p: nat, a: nat, b: nat)
    requires forall j :: 0 <= j < m && j != p ==> |After(ds, j)| == b
    requires p < m ==> |After(ds, p)| == a
    ensures SumAfter(ds, m) == if p < m then a + (m - 1) * b else m * b
  {
    if m > 0 {
      SumWithOne(ds, m - 1, p, a, b);
      assert (m - 1) * b + b == m * b;
      if p < m - 1 { assert (m - 2) * b + b == (m - 1) * b; }
    }
  }

  lemma InclusionArithmetic(m: nat, n: nat)
    requires 0 < n <= m
    ensures var f := Falling(m - 1, n - 1);
            f + (m - 1) * Inclusions(m - 1, n - 1) == n * f
  {
    if n > 1 {
      var g := Falling(m - 2, n - 2);
      assert (m - 1) * ((n - 1) * g) == (n - 1) * ((m - 1) * g);
      assert Falling(m - 1, n - 1) == (m - 1) * g;
    }
  }

  /** Draws whose sample holds `x` when the rest of the draw is one shorter. */
  function Inclusions(m: nat, n: nat): nat
    requires n <= m
  {
    if n == 0 then 0 else n * Falling(m - 1, n - 1)
  }

  /** Adding up over the first choices, one of which is `p`. */
  lemma SumInclusions(ds: set<seq<nat>>, m: nat, n: nat, p: nat)
    requires 0 < n <= m && p < m && ds <= Draws(m, n)
    requires |After(ds, p)| == Falling(m - 1, n - 1)
    requires forall j :: 0 <= j < m && j != p ==> |After(ds, j)| == Inclusions(m - 1, n - 1)
    ensures |ds| == Inclusions(m, n)
  {
    DrawsStartBelow(m, n, ds);
    CountByFirst(ds, m);
    SumWithOne(ds, m, p, Falling(m - 1, n - 1), Inclusions(m - 1, n - 1));
    InclusionArithmetic(m, n);
  }

  lemma NoInclusions<T>(pool: seq<T>, x: T)
    ensures DrawsWith(pool, 0, x) == {}
  {
    assert Sample(pool, []) == [];
  }

  /** With another first choice, the rest of the draw is one from the rest of the pool. */
  lemma AfterOther<T>(pool: seq<T>, n: nat, x: T, j: nat, p: nat) returns (rest: seq<T>)
    requires Distinct(pool) && 0 < n <= |pool| && j < |pool| && p < |pool| && p != j && pool[p] == x
    ensures |rest| == |pool| - 1 && Distinct(rest) && x in rest
    ensures After(DrawsWith(pool, n, x), j) == DrawsWith(rest, n - 1, x)
  {
    rest := Rest(pool, j);
    AfterDrawsWith(pool, n, x, j);
    RestMembers(pool, j);
  }

  lemma {:induction false} CountOther<T>(pool: seq<T>, n: nat, x: T, j: nat, p: nat, ds: set<seq<nat>>)
    requires Distinct(pool) && 0 < n <= |pool| && j < |pool| && p < |pool| && p != j && pool[p] == x
    requires ds == DrawsWith(pool, n, x)
    ensures |After(ds, j)| == Inclusions(|pool| - 1, n - 1)
    decreases n, 0
  {
    var rest := AfterOther(pool, n, x, j, p);
    CountInclusions(rest, n - 1, x);
  }

  lemma DrawsWithin<T>(pool: seq<T>, n: nat, x: T)
    requires n <= |pool|
    ensures DrawsWith(pool, n, x) <= Draws(|pool|, n)
  {
  }

  lemma CountChosen<T>(pool: seq<T>, n: nat, x: T, p: nat, ds: set<seq<nat>>)
    requires Distinct(pool) && 0 < n <= |pool| && p < |pool| && pool[p] == x
    requires ds == DrawsWith(pool, n, x)
    ensures |After(ds, p)| == Falling(|pool| - 1, n - 1)
  {
    AfterDrawsWith(pool, n, x, p);
    CountDraws(|pool| - 1, n - 1);
  }

  lemma {:induction false} CountInclusions<T>(pool: seq<T>, n: nat, x: T)
    requires Distinct(pool) && n <= |pool| && x in pool
    ensures |DrawsWith(pool, n, x)| == Inclusions(|pool|, n)
    decreases n, 1
  {
    if n == 0 {
      NoInclusions(pool, x);
    } else {
      var p, ds := Find(pool, x), DrawsWith(pool, n, x);
      DrawsWithin(pool, n, x);
      CountChosen(pool, n, x, p, ds);
      forall j | 0 <= j < |pool| && j != p ensures |After(ds, j)| == Inclusions(|pool| - 1, n - 1) {
        CountOther(pool, n, x, j, p, ds);
      }
      SumInclusions(ds, |pool|, n, p);
    }
  }

  /**
    Every repository is in the sample for the same number of draws, n out of every m: with uniform
    draws each is checked with probability n / m, so the coverage is the configured one.
   */
  lemma EqualInclusion<T>(pool: seq<T>, n: nat, x: T)
    requires Distinct(pool) && n <= |pool| && x in pool
    ensures |pool| * |DrawsWith(pool, n, x)| == n * |Draws(|pool|, n)|
  {
    var m := |pool|;
    CountInclusions(pool, n, x);
    CountDraws(m, n);
    InclusionShare(m, n);
  }

  lemma InclusionShare(m: nat, n: nat)
    requires n <= m
    ensures m * Inclusions(m, n) == n * Falling(m, n)
  {
    if n > 0 { Interchange(m, n, Falling(m - 1, n - 1)); }
  }

  lemma Interchange(m: nat, n: nat, f: nat)
    ensures m * (n * f) == n * (m * f)
  {
  }
}
