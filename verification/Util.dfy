/** Small vocabulary shared by the models: optional values and plain string operations. */
module Util {

  datatype Option<+T> = None | Some(value: T)

  /** The parts with `sep` between neighbours (Go's strings.Join). */
  function Join(parts: seq<string>, sep: string): string {
    if parts == [] then ""
    else if |parts| == 1 then parts[0]
    else parts[0] + sep + Join(parts[1..], sep)
  }

  /** Concatenation is associative. */
  lemma Regroup<T>(a: seq<T>, b: seq<T>, c: seq<T>)
    ensures a + (b + c) == a + b + c
  {
  }

  lemma FourAndRest<T>(a: T, b: T, c: T, d: T, rest: seq<T>)
    ensures [a, b, c, d] + rest == [a, b] + ([c, d] + rest)
  {
  }

  lemma DropConcat<T>(a: seq<T>, b: seq<T>, n: nat)
    requires n <= |a|
    ensures (a + b)[n..] == a[n..] + b
  {
  }

  function Init<T>(s: seq<T>): seq<T>
    requires s != []
  {
    s[..|s| - 1]
  }

  function Last<T>(s: seq<T>): T
    requires s != []
  {
    s[|s| - 1]
  }

  predicate IsDigit(c: char) { '0' <= c <= '9' }

  predicate IsUpper(c: char) { 'A' <= c <= 'Z' }

  predicate IsAlnum(c: char) {
    'a' <= c <= 'z' || IsUpper(c) || IsDigit(c)
  }

  /** The character classes, member by member. */
  lemma CharClasses(c: char)
    ensures IsDigit(c) <==> c in "0123456789"
    ensures IsUpper(c) <==> c in "ABCDEFGHIJKLMNOPQRSTUVWXYZ"
    ensures IsAlnum(c) <==> c in "0123456789" || c in "ABCDEFGHIJKLMNOPQRSTUVWXYZ" || c in "abcdefghijklmnopqrstuvwxyz"
  {
  }

  /** Decimal rendering of an integer (Go's strconv.Itoa and %d). */
  function Decimal(n: int): (s: string)
    ensures |s| > 0
    ensures forall c :: c in s ==> IsDigit(c) || c == '-'
    decreases n < 0, if n < 0 then -n else n
  {
    if n < 0 then "-" + Decimal(-n)
    else if n < 10 then [('0' as int + n) as char]
    else Decimal(n / 10) + [('0' as int + n % 10) as char]
  }

  /** Unicode white space, as strings.TrimSpace removes it. */
  predicate IsWhite(c: char) {
    || '\t' <= c <= '\r' || c == ' ' || c == '\U{85}' || c == '\U{A0}' || c == '\U{1680}'
    || '\U{2000}' <= c <= '\U{200A}' || c == '\U{2028}' || c == '\U{2029}' || c == '\U{202F}'
    || c == '\U{205F}' || c == '\U{3000}'
  }

  function TrimLeft(s: string): string {
    if s != "" && IsWhite(s[0]) then TrimLeft(s[1..]) else s
  }

  function TrimRight(s: string): string {
    if s != "" && IsWhite(s[|s| - 1]) then TrimRight(s[..|s| - 1]) else s
  }

  function TrimSpace(s: string): string { TrimRight(TrimLeft(s)) }

  lemma TrimNothing(s: string)
    requires s != "" && !IsWhite(s[0]) && !IsWhite(s[|s| - 1])
    ensures TrimSpace(s) == s
  {
  }

  lemma {:induction false} TrimLeftIs(s: string) returns (a: string)
    ensures s == a + TrimLeft(s) && forall i :: 0 <= i < |a| ==> IsWhite(a[i])
    ensures TrimLeft(s) != "" ==> !IsWhite(TrimLeft(s)[0])
  {
    if s != "" && IsWhite(s[0]) {
      var b := TrimLeftIs(s[1..]);
      a := [s[0]] + b;
      Regroup([s[0]], b, TrimLeft(s));
      assert s == [s[0]] + s[1..];
    } else {
      a := "";
      assert "" + s == s;
    }
  }

  lemma {:induction false} TrimRightIs(s: string) returns (b: string)
    ensures s == TrimRight(s) + b && forall i :: 0 <= i < |b| ==> IsWhite(b[i])
    ensures TrimRight(s) != "" ==> !IsWhite(Last(TrimRight(s))) && TrimRight(s)[0] == s[0]
  {
    if s != "" && IsWhite(s[|s| - 1]) {
      var c := TrimRightIs(Init(s));
      b := c + [Last(s)];
      Regroup(TrimRight(s), c, [Last(s)]);
      assert s == Init(s) + [Last(s)];
    } else {
      b := "";
      assert s + "" == s;
    }
  }

  /** Trimming takes away the white space around the text and nothing else. */
  lemma TrimSpaceIs(s: string) returns (a: string, b: string)
    ensures s == a + TrimSpace(s) + b
    ensures (forall i :: 0 <= i < |a| ==> IsWhite(a[i])) && forall i :: 0 <= i < |b| ==> IsWhite(b[i])
    ensures TrimSpace(s) != "" ==> !IsWhite(TrimSpace(s)[0]) && !IsWhite(Last(TrimSpace(s)))
  {
    a := TrimLeftIs(s);
    b := TrimRightIs(TrimLeft(s));
    Regroup(a, TrimSpace(s), b);
  }

  /** Go's strings.Contains. */
  predicate Contains(s: string, t: string) {
    exists i :: 0 <= i <= |s| && t <= s[i..]
  }

  function Count(s: string, c: char): nat {
    if s == "" then 0 else (if s[0] == c then 1 else 0) + Count(s[1..], c)
  }

  /** The position of the first `c`, or the length. */
  function Index(s: string, c: char): (i: nat)
    ensures i <= |s| && (i < |s| ==> s[i] == c)
    ensures forall k :: 0 <= k < i ==> s[k] != c
  {
    if s == "" || s[0] == c then 0 else 1 + Index(s[1..], c)
  }

  lemma {:induction false} CountZero(s: string, c: char)
    ensures Count(s, c) == 0 <==> c !in s
  {
    if s != "" {
      CountZero(s[1..], c);
      assert s == [s[0]] + s[1..];
    }
  }

  lemma {:induction false} CountConcat(a: string, b: string, c: char)
    ensures Count(a + b, c) == Count(a, c) + Count(b, c)
  {
    if a == "" {
      assert a + b == b;
    } else {
      assert (a + b)[1..] == a[1..] + b;
      CountConcat(a[1..], b, c);
    }
  }
}
