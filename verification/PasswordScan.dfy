/**
  Masking of passwords in printed text (internal/pgsetup, RedactDSN), as a scan for the pattern
  password=('(?:[^'\\]|\\.)*'|[^\s]*): matches are taken leftmost first, the quoted alternative is
  preferred, and the bare alternative always matches.
 */
module PasswordScan {
  import opened Util
  import opened ConnInfo

  // ----- the redactor -----

  /** The text before a masked value, and what a match is replaced with. */
  datatype RawPattern = RawPattern(key: string, mask: string)

  type Pattern = m: RawPattern | ValidKey(m.key) witness RawPattern("pw", "")

  const DSN_PASSWORD: Pattern := RawPattern("password=", "password=***")

  /** RedactDSN. */
  function RedactDSN(s: string): string { Redact(DSN_PASSWORD, s) }

  /** What the scan lemmas use of the keyword: it is plain, has no space and does not start like "port". */
  predicate ValidKey(key: string) {
    |key| >= 2 && key[0] == 'p' && key[1] != 'o' && ' ' !in key && IsPlain(key)
  }

  predicate IsPlain(s: string) { '\\' !in s && '\'' !in s }

  /** The class \s: no vertical tab, unlike C's isspace. */
  predicate IsPatternSpace(c: char) {
    c == ' ' || c == '\t' || c == '\n' || c == '\r' || c == '\U{0C}'
  }

  function BareLen(s: string): (n: nat)
    ensures n <= |s|
  {
    if s == "" || IsPatternSpace(s[0]) then 0 else 1 + BareLen(s[1..])
  }

  lemma {:induction false} BareLenSpec(s: string)
    ensures BareLen(s) < |s| ==> IsPatternSpace(s[BareLen(s)])
    ensures forall i :: 0 <= i < BareLen(s) ==> !IsPatternSpace(s[i])
  {
    if s != "" && !IsPatternSpace(s[0]) {
      BareLenSpec(s[1..]);
      assert forall i :: 1 <= i < |s| ==> s[i] == s[1..][i - 1];
    }
  }

  /** The length of the text up to and including the closing quote, if there is one. */
  function QuotedLen(s: string): (n: Option<nat>)
    ensures n.Some? ==> 0 < n.value <= |s|
  {
    if s == "" then None
    else if s[0] == '\'' then Some(1)
    else if s[0] == '\\' then
      if |s| >= 2 && s[1] != '\n' then Plus(2, QuotedLen(s[2..])) else None
    else Plus(1, QuotedLen(s[1..]))
  }

  function Plus(k: nat, n: Option<nat>): Option<nat> {
    if n.Some? then Some(k + n.value) else None
  }

  /** The length of the value matched after the keyword. */
  function MatchLen(s: string): (n: nat)
    ensures n <= |s|
  {
    if s != "" && s[0] == '\'' && QuotedLen(s[1..]).Some? then 1 + QuotedLen(s[1..]).value
    else BareLen(s)
  }

  function AfterKey(m: Pattern, s: string): string
    requires m.key <= s
  {
    s[|m.key|..]
  }

  function AfterMatch(s: string): (r: string)
    ensures |r| <= |s|
  {
    s[MatchLen(s)..]
  }

  function Redact(m: Pattern, s: string): string
    decreases |s|
  {
    if s == "" then ""
    else if m.key <= s then m.mask + Redact(m, AfterMatch(AfterKey(m, s)))
    else [s[0]] + Redact(m, s[1..])
  }

  // ----- scanning text in pieces -----

  lemma RedactPasses(m: Pattern, c: char, rest: string)
    requires c != 'p'
    ensures Redact(m, [c] + rest) == [c] + Redact(m, rest)
  {
    var s := [c] + rest;
    assert s[0] == c != m.key[0] && s[1..] == rest;
  }

  lemma {:induction false} RedactSkips(m: Pattern, x: string, rest: string)
    requires 'p' !in x
    ensures Redact(m, x + rest) == x + Redact(m, rest)
  {
    if x == "" {
      assert "" + rest == rest && "" + Redact(m, rest) == Redact(m, rest);
    } else {
      var c, y := x[0], x[1..];
      RedactSkips(m, y, rest);
      RedactPasses(m, c, y + rest);
      Regroup([c], y, rest);
      Regroup([c], y, Redact(m, rest));
      assert x == [c] + y;
    }
  }

  /** Backslash and line break come before any closing quote, so the quoted alternative fails. */
  predicate Broken(s: string)
    decreases |s|
  {
    s != "" && s[0] != '\''
    && if s[0] == '\\' then |s| >= 2 && (s[1] == '\n' || Broken(s[2..])) else Broken(s[1..])
  }

  /** Where the scan goes on behind a keyword, or None if `b` opens a quoted value without ending it. */
  function Resume(b: string): (r: Option<string>)
    ensures r.Some? ==> |r.value| <= |b| && r.value == AfterMatch(b)
  {
    if b != "" && b[0] == '\'' && QuotedLen(b[1..]).None? && !Broken(b[1..]) then None else Some(AfterMatch(b))
  }

  /** The scan of `a` does not end inside a quoted value. */
  predicate Outside(m: Pattern, a: string)
    decreases |a|
  {
    if a == "" then true
    else if m.key <= a then
      var r := Resume(AfterKey(m, a));
      r.Some? && Outside(m, r.value)
    else Outside(m, a[1..])
  }

  /** The redacted form of `a`, up to a value that is not finished. */
  function Head(m: Pattern, a: string): string
    decreases |a|
  {
    if a == "" then ""
    else if m.key <= a then
      m.mask + match Resume(AfterKey(m, a)) case None => "" case Some(r) => Head(m, r)
    else [a[0]] + Head(m, a[1..])
  }

  lemma {:induction false} BareLenConcat(a: string, rest: string)
    ensures BareLen(a) < |a| ==> BareLen(a + rest) == BareLen(a)
    ensures BareLen(a) == |a| ==> BareLen(a + rest) == |a| + BareLen(rest)
  {
    if a == "" {
      assert a + rest == rest;
    } else {
      assert (a + rest)[1..] == a[1..] + rest;
      BareLenConcat(a[1..], rest);
    }
  }

  // The keyword has no space and does not overlap itself, so it cannot start in `a` and end in `rest`.
  lemma KeyWithin(m: Pattern, a: string, rest: string)
    requires a != "" && !(m.key <= a)
    requires rest == "" || rest[0] == ' ' || rest[0] == '\''
    ensures !(m.key <= a + rest)
  {
    if |m.key| <= |a| {
      assert (a + rest)[..|m.key|] == a[..|m.key|];
    } else if rest != "" {
      assert (a + rest)[|a|] == rest[0] != m.key[|a|];
    } else {
      assert a + rest == a;
    }
  }

  lemma BareLenAtSpace(b: string, rest: string)
    requires BareLen(b) < |b| || rest == "" || rest[0] == ' '
    ensures BareLen(b + rest) == BareLen(b)
  {
    BareLenConcat(b, rest);
    assert rest == "" || rest[0] == ' ' ==> BareLen(rest) == 0;
  }

  lemma StepKey(m: Pattern, a: string, rest: string, next: string)
    requires m.key <= a && Resume(AfterKey(m, a) + rest) == Some(next)
    ensures Redact(m, a + rest) == m.mask + Redact(m, next)
    ensures Outside(m, a + rest) == Outside(m, next)
  {
    assert (a + rest)[..|m.key|] == a[..|m.key|];
    DropConcat(a, rest, |m.key|);
  }

  lemma StepChar(m: Pattern, a: string, rest: string)
    requires a != "" && !(m.key <= a)
    requires rest == "" || rest[0] == ' ' || rest[0] == '\''
    ensures Redact(m, a + rest) == [a[0]] + Redact(m, a[1..] + rest)
    ensures Outside(m, a + rest) == Outside(m, a[1..] + rest)
  {
    KeyWithin(m, a, rest);
    DropConcat(a, rest, 1);
  }

  /** A quoted value that ends, or fails, within `s` does so whatever follows. */
  lemma {:induction false} QuotedLenWithin(s: string, rest: string)
    ensures QuotedLen(s).Some? ==> QuotedLen(s + rest) == QuotedLen(s)
    ensures Broken(s) ==> QuotedLen(s + rest).None? && Broken(s + rest)
    decreases |s|
  {
    if s != "" && s[0] != '\'' {
      if s[0] != '\\' {
        DropConcat(s, rest, 1);
        QuotedLenWithin(s[1..], rest);
      } else if |s| >= 2 {
        DropConcat(s, rest, 2);
        QuotedLenWithin(s[2..], rest);
      }
    }
  }

  lemma {:induction false} BrokenStopsBare(s: string)
    requires Broken(s)
    ensures BareLen(s) < |s|
    decreases |s|
  {
    if s[0] != '\\' {
      BrokenStopsBare(s[1..]);
    } else {
      assert s[1..][0] == s[1] && s[1..][1..] == s[2..];
      if s[1] != '\n' { BrokenStopsBare(s[2..]); }
    }
  }

  lemma ResumeBare(b: string, rest: string)
    requires BareLen(b) < |b| || rest == "" || rest[0] == ' '
    ensures (b + rest)[BareLen(b + rest)..] == b[BareLen(b)..] + rest
  {
    BareLenAtSpace(b, rest);
    DropConcat(b, rest, BareLen(b));
  }

  lemma ResumeQuoted(s: string, rest: string)
    requires Resume("'" + s).Some?
    ensures Resume("'" + s + rest) == Some(Resume("'" + s).value + rest)
  {
    var b := "'" + s;
    assert b[1..] == s;
    DropConcat(b, rest, 1);
    QuotedLenWithin(s, rest);
    if QuotedLen(s).Some? {
      DropConcat(b, rest, 1 + QuotedLen(s).value);
    } else {
      BrokenStopsBare(s);
      ResumeBare(b, rest);
    }
  }

  lemma ResumeWithin(b: string, rest: string)
    requires Resume(b).Some? && (rest == "" || rest[0] == ' ')
    ensures Resume(b + rest) == Some(Resume(b).value + rest)
  {
    if b == "" {
      assert "" + rest == rest;
    } else if b[0] == '\'' {
      assert b == "'" + b[1..];
      ResumeQuoted(b[1..], rest);
    } else {
      ResumeBare(b, rest);
    }
  }

  /** Outside a value, text and what follows at the next space are scanned one after the other. */
  lemma {:induction false} OutsideThen(m: Pattern, a: string, rest: string)
    requires Outside(m, a) && (rest == "" || rest[0] == ' ')
    ensures Redact(m, a + rest) == Head(m, a) + Redact(m, rest)
    ensures Outside(m, a + rest) == Outside(m, rest)
    decreases |a|
  {
    if a == "" {
      assert "" + rest == rest && "" + Redact(m, rest) == Redact(m, rest);
    } else if m.key <= a {
      var r := Resume(AfterKey(m, a)).value;
      ResumeWithin(AfterKey(m, a), rest);
      StepKey(m, a, rest, r + rest);
      OutsideThen(m, r, rest);
      Regroup(m.mask, Head(m, r), Redact(m, rest));
    } else {
      StepChar(m, a, rest);
      OutsideThen(m, a[1..], rest);
      Regroup([a[0]], Head(m, a[1..]), Redact(m, rest));
    }
  }

  lemma {:induction false} QuotedLenPlain(x: string, y: string)
    requires IsPlain(x)
    ensures QuotedLen(x + ("'" + y)) == Some(|x| + 1)
    ensures QuotedLen(x).None? && !Broken(x)
  {
    if x == "" {
      assert "" + ("'" + y) == "'" + y;
    } else {
      DropConcat(x, "'" + y, 1);
      QuotedLenPlain(x[1..], y);
    }
  }

  /** A quoted value that is open at the end of `s` takes all plain text up to the next quote. */
  lemma {:induction false} QuotedLenOpen(s: string, x: string, y: string)
    requires QuotedLen(s).None? && !Broken(s) && IsPlain(x) && x != "" && x[0] == ' '
    ensures QuotedLen(s + (x + ("'" + y))) == Some(|s| + |x| + 1)
    ensures QuotedLen(s + x).None? && !Broken(s + x)
    decreases |s|
  {
    var t := x + ("'" + y);
    if s == "" {
      QuotedLenPlain(x, y);
      assert "" + t == t && "" + x == x;
    } else if s[0] != '\\' {
      DropConcat(s, t, 1);
      DropConcat(s, x, 1);
      QuotedLenOpen(s[1..], x, y);
    } else if |s| == 1 {
      assert (s + t)[2..] == x[1..] + ("'" + y) && (s + x)[2..] == x[1..];
      QuotedLenPlain(x[1..], y);
    } else {
      DropConcat(s, t, 2);
      DropConcat(s, x, 2);
      QuotedLenOpen(s[2..], x, y);
    }
  }

  lemma ResumeStays(b: string, x: string)
    requires Resume(b).None? && IsPlain(x) && x != "" && x[0] == ' '
    ensures Resume(b + x).None?
  {
    DropConcat(b, x, 1);
    QuotedLenOpen(b[1..], x, "");
  }

  lemma ResumeAtQuote(s: string, n: nat)
    requires QuotedLen(s) == Some(n)
    ensures Resume("'" + s) == Some(s[n..])
  {
    var b := "'" + s;
    assert b[1..] == s;
    assert b[1 + n..] == s[n..];
  }

  lemma AfterQuote(s: string, x: string, y: string)
    ensures (s + (x + ("'" + y)))[|s| + |x| + 1..] == y
  {
  }

  lemma ResumeOpen(b: string, x: string, y: string)
    requires Resume(b).None? && IsPlain(x) && x != "" && x[0] == ' '
    ensures Resume(b + (x + ("'" + y))) == Some(y)
  {
    var s, t := b[1..], x + ("'" + y);
    assert b == "'" + s;
    QuotedLenOpen(s, x, y);
    ResumeAtQuote(s + t, |s| + |x| + 1);
    AfterQuote(s, x, y);
    Regroup("'", s, t);
  }

  /** Inside a value, the next quote ends it and the scan goes on behind that quote. */
  lemma {:induction false} InsideThen(m: Pattern, a: string, x: string, y: string)
    requires !Outside(m, a) && IsPlain(x) && x != "" && x[0] == ' '
    ensures var s := a + (x + ("'" + y)); Redact(m, s) == Head(m, a) + Redact(m, y) && Outside(m, s) == Outside(m, y)
    decreases |a|
  {
    var rest := x + ("'" + y);
    if !(m.key <= a) {
      StepChar(m, a, rest);
      InsideThen(m, a[1..], x, y);
      Regroup([a[0]], Head(m, a[1..]), Redact(m, y));
    } else {
      var b := AfterKey(m, a);
      if Resume(b).Some? {
        ResumeWithin(b, rest);
        StepKey(m, a, rest, Resume(b).value + rest);
        InsideThen(m, Resume(b).value, x, y);
        Regroup(m.mask, Head(m, Resume(b).value), Redact(m, y));
      } else {
        ResumeOpen(b, x, y);
        StepKey(m, a, rest, y);
        assert m.mask + "" == m.mask;
      }
    }
  }

  lemma {:induction false} InsideStays(m: Pattern, a: string, x: string)
    requires !Outside(m, a) && IsPlain(x) && x != "" && x[0] == ' '
    ensures !Outside(m, a + x)
    decreases |a|
  {
    if !(m.key <= a) {
      StepChar(m, a, x);
      InsideStays(m, a[1..], x);
    } else {
      var b := AfterKey(m, a);
      if Resume(b).Some? {
        ResumeWithin(b, x);
        StepKey(m, a, x, Resume(b).value + x);
        InsideStays(m, Resume(b).value, x);
      } else {
        ResumeStays(b, x);
        assert (a + x)[..|m.key|] == a[..|m.key|];
        DropConcat(a, x, |m.key|);
      }
    }
  }

  lemma {:induction false} OutsideSkips(m: Pattern, x: string, a: string)
    requires 'p' !in x
    ensures Outside(m, x + a) == Outside(m, a)
  {
    if x == "" {
      assert x + a == a;
    } else {
      DropConcat(x, a, 1);
      OutsideSkips(m, x[1..], a);
    }
  }

  lemma {:induction false} NoQuoteOutside(m: Pattern, a: string)
    requires '\'' !in a
    ensures Outside(m, a)
    decreases |a|
  {
    if a != "" {
      if m.key <= a { NoQuoteOutside(m, AfterMatch(AfterKey(m, a))); } else { NoQuoteOutside(m, a[1..]); }
    }
  }

  // ----- printed values under the scan -----

  /**
    The last match that a scan of `v` finds starts exactly at its end: `v` ends in the keyword and no
    earlier keyword shares its last run of non-spaces.
   */
  predicate TailKey(m: Pattern, v: string)
    decreases |v|
  {
    if v == "" then false
    else if m.key <= v then
      var b := AfterKey(m, v);
      b == "" || TailKey(m, b[BareLen(b)..])
    else TailKey(m, v[1..])
  }

  lemma {:induction false} EscapeConcat(a: string, b: string)
    ensures Escape(a + b) == Escape(a) + Escape(b)
  {
    if a == "" {
      assert a + b == b;
    } else {
      assert (a + b)[1..] == a[1..] + b;
      EscapeConcat(a[1..], b);
    }
  }

  lemma {:induction false} EscapePlain(a: string)
    requires IsPlain(a)
    ensures Escape(a) == a
  {
    if a != "" {
      assert a == [a[0]] + a[1..];
      EscapePlain(a[1..]);
    }
  }

  lemma PrefixCons(c: char, k: string, v: string)
    ensures [c] + k <= [c] + v <==> k <= v
  {
    if [c] + k <= [c] + v {
      assert k == ([c] + k)[1..] && ([c] + v)[1..] == v;
      assert forall i :: 0 <= i < |k| ==> k[i] == ([c] + k)[i + 1];
      assert forall i :: 0 <= i < |k| ==> v[i] == ([c] + v)[i + 1];
    }
  }

  /** Escaping neither creates nor destroys plain prefixes. */
  lemma {:induction false} EscapePrefix(k: string, v: string)
    requires IsPlain(k)
    ensures k <= Escape(v) <==> k <= v
  {
    if k != "" && v != "" && k[0] == v[0] {
      EscapePrefix(k[1..], v[1..]);
      PrefixCons(k[0], k[1..], v[1..]);
      PrefixCons(k[0], k[1..], Escape(v[1..]));
      assert k == [k[0]] + k[1..] && v == [v[0]] + v[1..];
    }
  }

  lemma BareLenEscape(v: string)
    ensures var n := BareLen(v);
            && BareLen(Escape(v)) == |Escape(v[..n])|
            && Escape(v)[BareLen(Escape(v))..] == Escape(v[n..])
            && (Escape(v[n..]) == "" <==> n == |v|)
  {
    var n := BareLen(v);
    var a, b := v[..n], v[n..];
    assert v == a + b;
    EscapeConcat(a, b);
    BareLenSpec(v);
    EscapeNoSpace(a);
    BareLenConcat(Escape(a), Escape(b));
    DropConcat(Escape(a), Escape(b), |Escape(a)|);
    EscapeStart(b);
  }

  lemma EscapeStart(b: string)
    ensures Escape(b) == "" <==> b == ""
    ensures b != "" && IsPatternSpace(b[0]) ==> BareLen(Escape(b)) == 0
  {
  }

  lemma {:induction false} EscapeNoSpace(v: string)
    requires forall i :: 0 <= i < |v| ==> !IsPatternSpace(v[i])
    ensures BareLen(Escape(v)) == |Escape(v)|
  {
    if v != "" {
      EscapeNoSpace(v[1..]);
      var c := if v[0] == '\\' || v[0] == '\'' then ['\\', v[0]] else [v[0]];
      BareLenConcat(c, Escape(v[1..]));
      assert BareLen(c) == |c| by {
        assert BareLen(c[1..]) == |c[1..]|;
      }
    }
  }

  lemma EscapeAfterKey(m: Pattern, v: string)
    requires m.key <= v
    ensures m.key <= Escape(v) && AfterKey(m, Escape(v)) == Escape(AfterKey(m, v))
  {
    assert v == m.key + AfterKey(m, v);
    EscapeConcat(m.key, AfterKey(m, v));
    EscapePlain(m.key);
  }

  lemma EscapeAfterFirst(m: Pattern, v: string)
    requires v != "" && !(m.key <= v)
    ensures !(m.key <= Escape(v))
    ensures Escape(v) == (if v[0] == '\\' || v[0] == '\'' then ['\\', v[0]] else [v[0]]) + Escape(v[1..])
  {
    EscapePrefix(m.key, v);
  }

  // One raw character is one or two scanned characters, and neither starts the keyword.
  lemma StepOver(m: Pattern, v: string, e: string)
    requires v != ""
    ensures var x := if v[0] == '\\' || v[0] == '\'' then ['\\', v[0]] else [v[0]];
            !(m.key <= x + e) ==> Outside(m, x + e) == Outside(m, e)
  {
    if v[0] == '\\' || v[0] == '\'' {
      OutsideSkips(m, ['\\', v[0]], e);
    } else {
      assert ([v[0]] + e)[1..] == e;
    }
  }

  /** What a bare match leaves of `t`, an escaped value and its closing quote, if the value has a space. */
  lemma EscapedRestSpace(b: string, e: string, t: string, n: nat)
    requires e == Escape(b) && t == e + "'" && n == BareLen(b) < |b|
    ensures t[BareLen(t)..] == Escape(b[n..]) + "'"
  {
    BareLenEscape(b);
    BareLenConcat(e, "'");
    DropConcat(e, "'", BareLen(e));
  }

  /** And if it has none. */
  lemma EscapedRestNoSpace(b: string, e: string, t: string)
    requires e == Escape(b) && t == e + "'" && BareLen(b) == |b|
    ensures t[BareLen(t)..] == ""
  {
    BareLenEscape(b);
    assert b[..|b|] == b;
    BareLenConcat(e, "'");
    QuoteIsBare();
  }

  lemma QuoteIsBare()
    ensures BareLen("'") == 1
  {
    assert "'"[1..] == "";
  }

  lemma InsideAfterKey(m: Pattern, v: string, text: string)
    requires m.key <= v && text == Escape(v) + "'"
    ensures m.key <= text && AfterKey(m, text) == Escape(AfterKey(m, v)) + "'"
    ensures AfterKey(m, v) != "" ==> AfterKey(m, text)[0] != '\''
  {
    EscapeAfterKey(m, v);
    assert text[..|m.key|] == Escape(v)[..|m.key|];
    DropConcat(Escape(v), "'", |m.key|);
  }

  /** Where the scan goes on behind a keyword inside the quoted value: at the closing quote it opens another. */
  lemma InsideValue(m: Pattern, b: string, t: string)
    requires t == Escape(b) + "'" && (b != "" ==> t[0] != '\'')
    ensures b == "" ==> Resume(t).None?
    ensures b != "" ==> Resume(t) == Some(if BareLen(b) < |b| then Escape(b[BareLen(b)..]) + "'" else "")
  {
    if b == "" {
      assert t == "'" && t[1..] == "";
    } else if BareLen(b) < |b| {
      EscapedRestSpace(b, Escape(b), t, BareLen(b));
    } else {
      EscapedRestNoSpace(b, Escape(b), t);
    }
  }

  /** The inside of a quoted value together with its closing quote. */
  lemma {:induction false} InsideOutside(m: Pattern, v: string)
    ensures Outside(m, Escape(v) + "'") <==> !TailKey(m, v)
    decreases |v|
  {
    var text := Escape(v) + "'";
    if v == "" {
      OutsideSkips(m, "'", "");
      assert text == "'" + "";
    } else if m.key <= v {
      var b := AfterKey(m, v);
      InsideAfterKey(m, v, text);
      InsideValue(m, b, Escape(b) + "'");
      if b != "" && BareLen(b) < |b| { InsideOutside(m, b[BareLen(b)..]); }
    } else {
      EscapeAfterFirst(m, v);
      InsideOutside(m, v[1..]);
      KeyWithin(m, Escape(v), "'");
      StepOver(m, v, Escape(v[1..]) + "'");
      Regroup(if v[0] == '\\' || v[0] == '\'' then ['\\', v[0]] else [v[0]], Escape(v[1..]), "'");
    }
  }

  /** A printed value scanned on its own. */
  lemma ValueOutside(m: Pattern, v: string)
    ensures Outside(m, QuoteValue(v)) <==> !((v == "" || HasTrigger(v)) && TailKey(m, v))
  {
    if v == "" || HasTrigger(v) {
      InsideOutside(m, v);
      assert v == "" ==> Escape(v) == "";
      assert QuoteValue(v) == "'" + (Escape(v) + "'");
      OutsideSkips(m, "'", Escape(v) + "'");
    } else {
      assert forall i :: 0 <= i < |v| ==> !IsQuoteTrigger(v[i]);
      NoQuoteOutside(m, v);
    }
  }

  // ----- the password field -----

  /** A password the redactor masks completely: printed in quotes, or free of pattern whitespace. */
  predicate Hidden(pw: string) {
    HasTrigger(pw) || forall i :: 0 <= i < |pw| ==> !IsPatternSpace(pw[i])
  }

  lemma {:induction false} QuotedLenEscape(v: string, rest: string)
    ensures QuotedLen(Escape(v) + "'" + rest) == Some(|Escape(v)| + 1)
  {
    var s := Escape(v) + "'" + rest;
    if v == "" {
      assert s == "'" + rest;
    } else {
      var tail := Escape(v[1..]) + "'" + rest;
      QuotedLenEscape(v[1..], rest);
      if v[0] == '\\' || v[0] == '\'' {
        assert s == ['\\', v[0]] + tail;
        assert s[2..] == tail;
      } else {
        assert s == [v[0]] + tail;
        assert s[1..] == tail;
      }
    }
  }

  lemma MatchQuoted(v: string, rest: string)
    ensures AfterMatch("'" + Escape(v) + "'" + rest) == rest
  {
    var s := "'" + Escape(v) + "'" + rest;
    assert s == "'" + (Escape(v) + "'" + rest);
    assert s[1..] == Escape(v) + "'" + rest;
    QuotedLenEscape(v, rest);
  }

  lemma MatchBare(v: string, rest: string)
    requires v != "" && !HasTrigger(v)
    requires rest == "" || rest[0] == ' '
    ensures AfterMatch(v + rest) == v[BareLen(v)..] + rest
  {
    assert !IsQuoteTrigger(v[0]);
    ResumeBare(v, rest);
  }

  /** What is left of a printed password after the mask. */
  function Leak(pw: string): string {
    if pw == "" || HasTrigger(pw) then "" else pw[BareLen(pw)..]
  }

  lemma RedactFromKey(m: Pattern, t: string)
    ensures Redact(m, m.key + t) == m.mask + Redact(m, AfterMatch(t))
  {
    assert m.key <= m.key + t && AfterKey(m, m.key + t) == t;
  }

  lemma MatchPassword(pw: string, rest: string)
    requires rest == "" || rest[0] == ' '
    ensures AfterMatch(QuoteValue(pw) + rest) == Leak(pw) + rest
  {
    if pw == "" || HasTrigger(pw) {
      assert pw == "" ==> Escape(pw) == "";
      assert QuoteValue(pw) == "'" + Escape(pw) + "'";
      MatchQuoted(pw, rest);
      assert "" + rest == rest;
    } else {
      MatchBare(pw, rest);
    }
  }

  lemma RedactPassword(m: Pattern, pw: string, rest: string)
    requires rest == "" || rest[0] == ' '
    ensures Redact(m, m.key + QuoteValue(pw) + rest) == m.mask + Redact(m, Leak(pw) + rest)
  {
    Regroup(m.key, QuoteValue(pw), rest);
    RedactFromKey(m, QuoteValue(pw) + rest);
    MatchPassword(pw, rest);
  }

  lemma HiddenIff(m: Pattern, pw: string, rest: string)
    requires rest != "" && rest[0] == ' '
    ensures Redact(m, m.key + QuoteValue(pw) + rest) == Redact(m, m.key + QuoteValue("") + rest) <==> Hidden(pw)
  {
    RedactPassword(m, pw, rest);
    RedactPassword(m, "", rest);
    BareLenSpec(pw);
    assert "" + rest == rest;
    if Hidden(pw) {
      assert Leak(pw) == "" by {
        if pw != "" && !HasTrigger(pw) { assert BareLen(pw) == |pw|; }
      }
    } else {
      var n := BareLen(pw);
      assert n < |pw| && pw[n] != ' ';
      var leaked := Leak(pw) + rest;
      assert leaked[0] == pw[n];
      assert Redact(m, leaked)[0] == pw[n];
      assert Redact(m, rest)[0] == ' ';
      assert (m.mask + Redact(m, leaked))[|m.mask|] != (m.mask + Redact(m, rest))[|m.mask|];
    }
  }

  // ----- what the redactor writes -----

  lemma {:induction false} NothingToMask(m: Pattern, s: string)
    requires !Contains(s, m.key)
    ensures Redact(m, s) == s
  {
    if s != "" {
      assert s[0..] == s;
      forall i | 0 <= i <= |s[1..]| ensures !(m.key <= s[1..][i..]) { assert s[1..][i..] == s[i + 1..]; }
      NothingToMask(m, s[1..]);
      assert s == [s[0]] + s[1..];
    }
  }

  /** A hidden password is replaced as a whole by the mask, and what follows is redacted on its own. */
  lemma MaskedPassword(m: Pattern, before: string, pw: string, rest: string)
    requires Outside(m, before) && Hidden(pw) && rest != "" && rest[0] == ' '
    ensures Redact(m, before + (" " + (m.key + QuoteValue(pw) + rest))) == Head(m, before) + (" " + (m.mask + Redact(m, rest)))
  {
    var field := m.key + QuoteValue(pw) + rest;
    OutsideThen(m, before, " " + field);
    RedactSkips(m, " ", field);
    RedactPassword(m, pw, rest);
    BareLenSpec(pw);
    HiddenLeavesNothing(pw);
    assert "" + rest == rest;
  }

  lemma HiddenLeavesNothing(pw: string)
    requires Hidden(pw)
    ensures Leak(pw) == ""
  {
    BareLenSpec(pw);
    if pw != "" && !HasTrigger(pw) { assert BareLen(pw) == |pw|; }
  }

  /** Text without "password=" is printed as it is. */
  lemma RedactLeavesRest(s: string)
    requires !Contains(s, "password=")
    ensures RedactDSN(s) == s
  {
    NothingToMask(DSN_PASSWORD, s);
  }

  /** Behind such text a hidden password is printed as three stars, and as nothing else. */
  lemma RedactMasks(before: string, pw: string, rest: string)
    requires !Contains(before, "password=") && Hidden(pw) && rest != "" && rest[0] == ' '
    ensures RedactDSN(before + (" " + ("password=" + QuoteValue(pw) + rest))) == before + (" " + ("password=***" + RedactDSN(rest)))
  {
    var m := DSN_PASSWORD;
    NoKeyHead(m, before);
    MaskedPassword(m, before, pw, rest);
  }

  lemma {:induction false} NoKeyHead(m: Pattern, s: string)
    requires !Contains(s, m.key)
    ensures Outside(m, s) && Head(m, s) == s
  {
    if s != "" {
      assert s[0..] == s;
      forall i | 0 <= i <= |s[1..]| ensures !(m.key <= s[1..][i..]) { assert s[1..][i..] == s[i + 1..]; }
      NoKeyHead(m, s[1..]);
      assert s == [s[0]] + s[1..];
    }
  }
}
