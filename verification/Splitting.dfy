/** Splitting text at a character and joining it again (Go's strings.Split and strings.Join). */
module Splitting {
  import opened Util

  /** Splitting one more character in front. */
  function PutFirst(x: char, parts: seq<string>, c: char): (r: seq<string>)
    requires parts != []
    ensures r != []
  {
    if x == c then [""] + parts else [[x] + parts[0]] + parts[1..]
  }

  /** Go's strings.Split with a one-character separator: never empty. */
  function SplitOn(s: string, c: char): (parts: seq<string>)
    ensures parts != []
  {
    if s == "" then [""] else PutFirst(s[0], SplitOn(s[1..], c), c)
  }

  lemma {:induction false} SplitChar(s: string, c: char)
    requires c !in s
    ensures SplitOn(s, c) == [s]
  {
    if s != "" {
      SplitChar(s[1..], c);
      assert [s[0]] + s[1..] == s;
    }
  }

  lemma SplitCons(x: char, s: string, c: char)
    ensures SplitOn([x] + s, c) == PutFirst(x, SplitOn(s, c), c)
  {
    assert ([x] + s)[1..] == s;
  }

  lemma PutFirstConcat(x: char, a: seq<string>, b: seq<string>, c: char)
    requires a != []
    ensures PutFirst(x, a + b, c) == PutFirst(x, a, c) + b
  {
    assert (a + b)[0] == a[0] && (a + b)[1..] == a[1..] + b;
    Regroup([""], a, b);
    Regroup([[x] + a[0]], a[1..], b);
  }

  /** A separator in the text is a boundary between the parts of its two sides. */
  lemma {:induction false} SplitConcat(a: string, b: string, c: char)
    ensures SplitOn(a + [c] + b, c) == SplitOn(a, c) + SplitOn(b, c)
  {
    if a == "" {
      assert "" + [c] == [c];
      SplitCons(c, b, c);
    } else {
      var x, y := a[0], a[1..];
      assert a == [x] + y;
      SplitConcat(y, b, c);
      Regroup([x], y, [c]);
      Regroup([x], y + [c], b);
      SplitCons(x, y + [c] + b, c);
      SplitCons(x, y, c);
      PutFirstConcat(x, SplitOn(y, c), SplitOn(b, c), c);
    }
  }

  lemma JoinCons(p: string, rest: seq<string>, sep: string)
    ensures Join([p] + rest, sep) == if rest == [] then p else p + sep + Join(rest, sep)
  {
    assert ([p] + rest)[1..] == rest;
  }

  /** What joining makes of one more character in front. */
  lemma JoinPutFirst(x: char, parts: seq<string>, c: char)
    requires parts != []
    ensures Join(PutFirst(x, parts, c), [c]) == [x] + Join(parts, [c])
  {
    var p, rest := parts[0], parts[1..];
    assert parts == [p] + rest;
    JoinCons(p, rest, [c]);
    JoinCons([x] + p, rest, [c]);
    JoinCons("", parts, [c]);
    if x == c {
      assert "" + [c] == [x];
    } else if rest != [] {
      Regroup([x], p, [c]);
      Regroup([x], p + [c], Join(rest, [c]));
    }
  }

  /** Joining undoes splitting, and no part holds the separator. */
  lemma {:induction false} JoinSplit(s: string, c: char)
    ensures Join(SplitOn(s, c), [c]) == s
    ensures forall k :: 0 <= k < |SplitOn(s, c)| ==> c !in SplitOn(s, c)[k]
  {
    if s != "" {
      var tail := SplitOn(s[1..], c);
      JoinSplit(s[1..], c);
      assert s == [s[0]] + s[1..];
      JoinPutFirst(s[0], tail, c);
      assert SplitOn(s, c) == PutFirst(s[0], tail, c);
    }
  }

  /** Splitting undoes joining parts without the separator. */
  lemma {:induction false} SplitJoin(parts: seq<string>, c: char)
    requires parts != [] && forall k :: 0 <= k < |parts| ==> c !in parts[k]
    ensures SplitOn(Join(parts, [c]), c) == parts
  {
    SplitChar(parts[0], c);
    if |parts| > 1 {
      SplitJoin(parts[1..], c);
      SplitConcat(parts[0], Join(parts[1..], [c]), c);
      assert parts == [parts[0]] + parts[1..];
    }
  }
}
