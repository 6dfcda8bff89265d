/**
  Connection strings for libpq (internal/config): PostgresConfig.dsnFrom and quoteLibPQValue,
  read back by a reader for the keyword/value grammar of section 34.1.1.1 of the PostgreSQL 16
  documentation.
 */
module ConnInfo {
  import opened Util

  // ----- the printer -----

  datatype Pair = Pair(key: string, val: string)

  datatype PostgresConfig = PostgresConfig(
    host: string, port: int,
    sslMode: string, sslRootCert: string, sslCert: string, sslKey: string)

  /** The characters that make quoteLibPQValue quote: no whitespace but the space itself. */
  predicate IsQuoteTrigger(c: char) { c == ' ' || c == '\'' || c == '\\' }

  predicate HasTrigger(v: string) {
    exists i :: 0 <= i < |v| && IsQuoteTrigger(v[i])
  }

  /** Backslash-escapes backslashes and single quotes. */
  function Escape(v: string): (e: string)
    ensures |e| >= |v|
  {
    if v == "" then ""
    else (if v[0] == '\\' || v[0] == '\'' then ['\\', v[0]] else [v[0]]) + Escape(v[1..])
  }

  function QuoteValue(v: string): string {
    if v == "" then "''"
    else if !HasTrigger(v) then v
    else "'" + Escape(v) + "'"
  }

  function RenderPair(p: Pair): string { p.key + "=" + QuoteValue(p.val) }

  function RenderPairs(pairs: seq<Pair>): string {
    if pairs == [] then ""
    else if |pairs| == 1 then RenderPair(pairs[0])
    else RenderPair(pairs[0]) + " " + RenderPairs(pairs[1..])
  }

  function WithExtra(extra: string): string { if extra == "" then "" else " " + extra }

  function EffectiveSSLMode(p: PostgresConfig): string {
    if p.sslMode == "" then "require" else p.sslMode
  }

  function Unless(key: string, val: string): seq<Pair> {
    if val == "" then [] else [Pair(key, val)]
  }

  /** The pairs of a DSN, in order; an absent password leaves the field out. */
  function DsnPairs(p: PostgresConfig, user: string, password: Option<string>, dbname: string): seq<Pair> {
    [Pair("host", p.host), Pair("port", Decimal(p.port)), Pair("user", user)]
    + (if password.Some? then [Pair("password", password.value)] else [])
    + [Pair("dbname", dbname), Pair("sslmode", EffectiveSSLMode(p))]
    + Unless("sslrootcert", p.sslRootCert) + Unless("sslcert", p.sslCert) + Unless("sslkey", p.sslKey)
  }

  function Dsn(p: PostgresConfig, user: string, password: Option<string>, dbname: string, extra: string): string {
    RenderPairs(DsnPairs(p, user, password, dbname)) + WithExtra(extra)
  }

  lemma {:induction false} RenderSnoc(pairs: seq<Pair>, p: Pair)
    ensures RenderPairs(pairs + [p])
            == RenderPairs(pairs) + (if pairs == [] then "" else " ") + RenderPair(p)
  {
    if pairs == [] {
      assert pairs + [p] == [p];
      assert "" + "" + RenderPair(p) == RenderPair(p);
    } else {
      var tail, text := pairs[1..], RenderPair(pairs[0]) + " ";
      assert (pairs + [p])[1..] == tail + [p];
      RenderSnoc(tail, p);
      if tail == [] {
        assert RenderPairs([p]) == RenderPair(p);
      } else {
        Regroup(text, RenderPairs(tail) + " ", RenderPair(p));
        Regroup(text, RenderPairs(tail), " ");
      }
    }
  }

  method BuildPairs(p: PostgresConfig, user: string, password: Option<string>, dbname: string)
    returns (pairs: seq<Pair>)
    ensures pairs == DsnPairs(p, user, password, dbname)
  {
    pairs := [Pair("host", p.host), Pair("port", Decimal(p.port)), Pair("user", user)];
    if password.Some? {
      pairs := pairs + [Pair("password", password.value)];
    }
    pairs := pairs + [Pair("dbname", dbname), Pair("sslmode", EffectiveSSLMode(p))];
    if p.sslRootCert != "" { pairs := pairs + [Pair("sslrootcert", p.sslRootCert)]; }
    if p.sslCert != "" { pairs := pairs + [Pair("sslcert", p.sslCert)]; }
    if p.sslKey != "" { pairs := pairs + [Pair("sslkey", p.sslKey)]; }
  }

  lemma RenderNext(pairs: seq<Pair>, i: nat)
    requires i < |pairs|
    ensures RenderPairs(pairs[..i + 1]) == RenderPairs(pairs[..i]) + (if i == 0 then "" else " ") + RenderPair(pairs[i])
  {
    assert pairs[..i + 1] == pairs[..i] + [pairs[i]];
    RenderSnoc(pairs[..i], pairs[i]);
  }

  /** The builder loop. */
  method WritePairs(pairs: seq<Pair>) returns (dsn: string)
    ensures dsn == RenderPairs(pairs)
  {
    dsn := "";
    for i := 0 to |pairs|
      invariant dsn == RenderPairs(pairs[..i])
    {
      RenderNext(pairs, i);
      if i > 0 {
        dsn := dsn + " ";
      } else {
        assert dsn + "" == dsn;
      }
      dsn := dsn + RenderPair(pairs[i]);
    }
    assert pairs[..|pairs|] == pairs;
  }

  method DsnFrom(p: PostgresConfig, user: string, password: Option<string>, dbname: string, extra: string)
    returns (dsn: string)
    ensures dsn == Dsn(p, user, password, dbname, extra)
  {
    var pairs := BuildPairs(p, user, password, dbname);
    dsn := WritePairs(pairs);
    dsn := dsn + WithExtra(extra);
  }

  // ----- the reader -----

  /** Whitespace as C's isspace sees it. */
  predicate IsSpace(c: char) {
    c == ' ' || c == '\t' || c == '\n' || c == '\r' || c == '\U{0B}' || c == '\U{0C}'
  }

  function SkipSpaces(s: string): (r: string)
    ensures |r| <= |s|
    ensures r != "" ==> !IsSpace(r[0])
  {
    if s != "" && IsSpace(s[0]) then SkipSpaces(s[1..]) else s
  }

  function KeywordLen(s: string): (n: nat)
    ensures n <= |s|
  {
    if s == "" || s[0] == '=' || IsSpace(s[0]) then 0 else 1 + KeywordLen(s[1..])
  }

  /** A parsed value and the text after it. */
  datatype Value = Value(text: string, rest: string)

  /** A bare value ends at whitespace; a backslash takes the next character literally. */
  function ReadBare(s: string, acc: string): (v: Value)
    ensures |v.rest| <= |s|
    decreases |s|
  {
    if s == "" then Value(acc, "")
    else if IsSpace(s[0]) then Value(acc, s[1..])
    else if s[0] == '\\' then
      if |s| == 1 then Value(acc, "") else ReadBare(s[2..], acc + [s[1]])
    else ReadBare(s[1..], acc + [s[0]])
  }

  function ReadQuoted(s: string, acc: string): (v: Option<Value>)
    ensures v.Some? ==> |v.value.rest| < |s|
    decreases |s|
  {
    if s == "" then None
    else if s[0] == '\'' then Some(Value(acc, s[1..]))
    else if s[0] == '\\' then
      if |s| == 1 then None else ReadQuoted(s[2..], acc + [s[1]])
    else ReadQuoted(s[1..], acc + [s[0]])
  }

  function ReadValue(s: string): (v: Option<Value>)
    ensures v.Some? ==> |v.value.rest| <= |s|
  {
    if s != "" && s[0] == '\'' then ReadQuoted(s[1..], "") else Some(ReadBare(s, ""))
  }

  function Cons(p: Pair, r: Option<seq<Pair>>): Option<seq<Pair>> {
    match r
    case None => None
    case Some(ps) => Some([p] + ps)
  }

  /** The settings of a connection string in order, or None where it is malformed. */
  function Parse(s: string): Option<seq<Pair>>
    decreases |s|
  {
    var t := SkipSpaces(s);
    if t == "" then Some([])
    else
      var k := KeywordLen(t);
      var u := SkipSpaces(t[k..]);
      if k == 0 || u == "" || u[0] != '=' then None
      else match ReadValue(SkipSpaces(u[1..]))
      case None => None
      case Some(v) => Cons(Pair(t[..k], v.text), Parse(v.rest))
  }

  // ----- round trip -----

  predicate IsKeyword(k: string) {
    k != "" && forall i :: 0 <= i < |k| ==> k[i] != '=' && k[i] != '\'' && k[i] != '\\' && !IsSpace(k[i])
  }

  /** A value survives printing and reading: it is printed in quotes, or it has no whitespace at all. */
  predicate Portable(v: string) {
    HasTrigger(v) || forall i :: 0 <= i < |v| ==> !IsSpace(v[i])
  }

  lemma ReadQuotedChar(c: char, tail: string, acc: string)
    requires c != '\\' && c != '\''
    ensures ReadQuoted([c] + tail, acc) == ReadQuoted(tail, acc + [c])
  {
    assert ([c] + tail)[1..] == tail;
  }

  lemma ReadQuotedPair(c: char, tail: string, acc: string)
    ensures ReadQuoted(['\\', c] + tail, acc) == ReadQuoted(tail, acc + [c])
  {
    assert (['\\', c] + tail)[2..] == tail;
  }

  lemma EscapeTail(x: string, e: string, rest: string)
    ensures x + e + "'" + rest == x + (e + "'" + rest)
  {
  }

  lemma {:induction false} ReadQuotedEscape(v: string, rest: string, acc: string)
    ensures ReadQuoted(Escape(v) + "'" + rest, acc) == Some(Value(acc + v, rest))
  {
    if v == "" {
      assert "" + "'" + rest == "'" + rest && ("'" + rest)[1..] == rest;
      assert acc + v == acc;
    } else {
      var c, e := v[0], Escape(v[1..]);
      ReadQuotedEscape(v[1..], rest, acc + [c]);
      Regroup(acc, [c], v[1..]);
      assert v == [c] + v[1..];
      if c == '\\' || c == '\'' {
        EscapeTail(['\\', c], e, rest);
        ReadQuotedPair(c, e + "'" + rest, acc);
      } else {
        EscapeTail([c], e, rest);
        ReadQuotedChar(c, e + "'" + rest, acc);
      }
    }
  }

  /** A bare value is read up to the first whitespace. */
  lemma {:induction false} ReadBarePlain(v: string, rest: string, acc: string)
    requires forall i :: 0 <= i < |v| ==> v[i] != '\\' && !IsSpace(v[i])
    requires rest == "" || IsSpace(rest[0])
    ensures ReadBare(v + rest, acc) == Value(acc + v, if rest == "" then "" else rest[1..])
  {
    if v == "" {
      assert v + rest == rest && acc + v == acc;
    } else {
      assert (v + rest)[1..] == v[1..] + rest;
      assert acc + v == acc + [v[0]] + v[1..];
      ReadBarePlain(v[1..], rest, acc + [v[0]]);
    }
  }

  lemma {:induction false} KeywordLenOf(k: string, rest: string)
    requires forall i :: 0 <= i < |k| ==> k[i] != '=' && !IsSpace(k[i])
    requires rest != "" && rest[0] == '='
    ensures KeywordLen(k + rest) == |k|
  {
    if k == "" {
      assert k + rest == rest;
    } else {
      assert (k + rest)[1..] == k[1..] + rest;
      KeywordLenOf(k[1..], rest);
    }
  }

  /** A keyword, its equal sign and a value, in terms of the value reader. */
  lemma ParseSetting(k: string, text: string)
    requires IsKeyword(k)
    ensures Parse(k + "=" + text)
            == match ReadValue(SkipSpaces(text))
               case None => None
               case Some(v) => Cons(Pair(k, v.text), Parse(v.rest))
  {
    var s := k + "=" + text;
    assert s == k + ("=" + text);
    assert SkipSpaces(s) == s;
    KeywordLenOf(k, "=" + text);
    assert s[|k|..] == "=" + text;
    assert SkipSpaces(s[|k|..]) == s[|k|..];
    assert s[|k|..][1..] == text;
    assert s[..|k|] == k;
  }

  lemma ParseSkips(s: string)
    requires s != "" && IsSpace(s[0])
    ensures Parse(s) == Parse(s[1..])
  {
  }

  lemma ReadOpenQuote(body: string)
    ensures ReadValue(SkipSpaces(['\''] + body)) == ReadQuoted(body, "")
  {
    var text := ['\''] + body;
    assert text[0] == '\'' && SkipSpaces(text) == text && text[1..] == body;
  }

  lemma ReadPrintedQuoted(v: string, rest: string)
    requires v == "" || HasTrigger(v)
    ensures ReadValue(SkipSpaces(QuoteValue(v) + rest)) == Some(Value(v, rest))
  {
    var body := Escape(v) + "'" + rest;
    assert QuoteValue(v) + rest == ['\''] + body;
    ReadOpenQuote(body);
    ReadQuotedEscape(v, rest, "");
    assert "" + v == v;
  }

  lemma ReadPrintedBare(v: string, rest: string)
    requires v != "" && !HasTrigger(v) && Portable(v)
    requires rest == "" || rest[0] == ' '
    ensures ReadValue(SkipSpaces(QuoteValue(v) + rest)) == Some(Value(v, if rest == "" then "" else rest[1..]))
  {
    assert forall i :: 0 <= i < |v| ==> !IsQuoteTrigger(v[i]);
    var text := v + rest;
    assert text[0] == v[0] && SkipSpaces(text) == text;
    ReadBarePlain(v, rest, "");
    assert "" + v == v;
  }

  /** A portable pair followed by a space reads back as itself. */
  lemma ParsePair(p: Pair, rest: string)
    requires IsKeyword(p.key) && Portable(p.val)
    requires rest == "" || rest[0] == ' '
    ensures Parse(RenderPair(p) + rest) == Cons(p, Parse(rest))
  {
    assert RenderPair(p) + rest == p.key + "=" + (QuoteValue(p.val) + rest);
    ParseSetting(p.key, QuoteValue(p.val) + rest);
    if p.val == "" || HasTrigger(p.val) {
      ReadPrintedQuoted(p.val, rest);
    } else {
      ReadPrintedBare(p.val, rest);
      if rest != "" { ParseSkips(rest); }
    }
  }

  // What follows a pair in a DSN: nothing, or a space and a keyword character.
  predicate StartsPlain(rest: string) {
    rest == "" || (|rest| >= 2 && rest[0] == ' '
                   && !IsSpace(rest[1]) && rest[1] != '\'' && rest[1] != '\\')
  }

  /** How a bare value is split at its first whitespace. */
  lemma {:induction false} FirstSpace(v: string) returns (n: nat)
    requires exists i :: 0 <= i < |v| && IsSpace(v[i])
    ensures n < |v| && IsSpace(v[n]) && forall i :: 0 <= i < n ==> !IsSpace(v[i])
  {
    n := 0;
    while !IsSpace(v[n])
      invariant n < |v| && forall i :: 0 <= i < n ==> !IsSpace(v[i])
      decreases |v| - n
    {
      n := n + 1;
    }
  }

  lemma {:induction false} SkipSpacesPlain(v: string, rest: string)
    requires forall i :: 0 <= i < |v| ==> !IsQuoteTrigger(v[i])
    requires StartsPlain(rest)
    ensures var t := SkipSpaces(v + rest); t == "" || (t[0] != '\'' && t[0] != '\\')
  {
    if v == "" {
      assert v + rest == rest;
      if rest != "" { assert SkipSpaces(rest) == SkipSpaces(rest[1..]) == rest[1..]; }
    } else {
      assert (v + rest)[1..] == v[1..] + rest;
      SkipSpacesPlain(v[1..], rest);
    }
  }

  lemma ReadBareStart(s: string, acc: string)
    ensures acc <= ReadBare(s, acc).text
  {
  }

  /** Leading whitespace is skipped, so what is read does not start with it. */
  lemma LeadingSpaceLost(v: string, rest: string)
    requires v != "" && IsSpace(v[0])
    requires var t := SkipSpaces(v + rest); t == "" || (t[0] != '\'' && t[0] != '\\')
    ensures var r := ReadValue(SkipSpaces(v + rest)); r.Some? ==> r.value.text != v
  {
    var t := SkipSpaces(v + rest);
    if t != "" {
      assert ReadBare(t, "") == ReadBare(t[1..], "" + [t[0]]);
      ReadBareStart(t[1..], "" + [t[0]]);
      assert ReadBare(t, "").text[0] == t[0] != v[0];
    }
  }

  /** Whitespace further on ends the value too early. */
  lemma InnerSpaceSplits(v: string, rest: string, n: nat)
    requires 0 < n < |v| && IsSpace(v[n]) && forall i :: 0 <= i < n ==> !IsSpace(v[i])
    requires forall i :: 0 <= i < |v| ==> !IsQuoteTrigger(v[i])
    ensures ReadValue(SkipSpaces(v + rest)) == Some(Value(v[..n], v[n + 1..] + rest))
  {
    var text, after := v + rest, v[n..] + rest;
    assert text[0] == v[0];
    assert text == v[..n] + after;
    ReadBarePlain(v[..n], after, "");
    assert "" + v[..n] == v[..n];
    assert after[1..] == v[n + 1..] + rest;
  }

  /** A value printed bare although it has whitespace is never read back as itself. */
  lemma ParseSplitPair(p: Pair, rest: string)
    requires IsKeyword(p.key) && !Portable(p.val) && StartsPlain(rest)
    ensures var r := Parse(RenderPair(p) + rest); r.Some? ==> r.value != [] && r.value[0] != p
  {
    var v := p.val;
    assert RenderPair(p) + rest == p.key + "=" + (v + rest);
    ParseSetting(p.key, v + rest);
    assert forall i :: 0 <= i < |v| ==> !IsQuoteTrigger(v[i]);
    SkipSpacesPlain(v, rest);
    var n := FirstSpace(v);
    if n == 0 {
      LeadingSpaceLost(v, rest);
    } else {
      InnerSpaceSplits(v, rest, n);
      assert |v[..n]| < |v|;
    }
  }

  ghost predicate AllPortable(pairs: seq<Pair>) {
    forall i :: 0 <= i < |pairs| ==> Portable(pairs[i].val)
  }

  ghost predicate AllKeywords(pairs: seq<Pair>) {
    forall i :: 0 <= i < |pairs| ==> IsKeyword(pairs[i].key)
  }

  /** The pairs written, then whatever the extra text says. */
  function Expected(pairs: seq<Pair>, extra: Option<seq<Pair>>): Option<seq<Pair>> {
    match extra
    case None => None
    case Some(ps) => Some(pairs + ps)
  }

  /** The text after the first pair of a rendered DSN. */
  function AfterFirst(pairs: seq<Pair>, extra: string): string
    requires pairs != []
  {
    if |pairs| == 1 then WithExtra(extra) else " " + (RenderPairs(pairs[1..]) + WithExtra(extra))
  }

  lemma RenderedStart(pairs: seq<Pair>)
    requires pairs != [] && IsKeyword(pairs[0].key)
    ensures RenderPairs(pairs) != "" && RenderPairs(pairs)[0] == pairs[0].key[0]
  {
    assert RenderPair(pairs[0])[0] == pairs[0].key[0];
  }

  lemma ParseAfterSpace(text: string)
    ensures Parse(" " + text) == Parse(text)
  {
    ParseSkips(" " + text);
    assert (" " + text)[1..] == text;
  }

  lemma AfterFirstReads(pairs: seq<Pair>, extra: string)
    requires AllKeywords(pairs) && pairs != []
    ensures var rest := AfterFirst(pairs, extra);
            && RenderPairs(pairs) + WithExtra(extra) == RenderPair(pairs[0]) + rest
            && (rest == "" || rest[0] == ' ')
            && (StartsPlain(WithExtra(extra)) ==> StartsPlain(rest))
            && Parse(rest) == if |pairs| == 1 then Parse(extra)
                              else Parse(RenderPairs(pairs[1..]) + WithExtra(extra))
  {
    if |pairs| > 1 {
      RenderedStart(pairs[1..]);
      ParseAfterSpace(RenderPairs(pairs[1..]) + WithExtra(extra));
    } else if extra != "" {
      ParseAfterSpace(extra);
    }
  }

  /** A DSN reads back as the pairs written and those of the extra text. */
  ghost predicate ReadsBack(pairs: seq<Pair>, extra: string) {
    Parse(RenderPairs(pairs) + WithExtra(extra)) == Expected(pairs, Parse(extra))
  }

  /** A portable first pair leaves the question to the others. */
  lemma FirstReads(p: Pair, tail: seq<Pair>, extra: string)
    requires AllKeywords([p] + tail) && Portable(p.val)
    ensures tail == [] ==> ReadsBack([p] + tail, extra)
    ensures tail != [] ==> (ReadsBack([p] + tail, extra) <==> ReadsBack(tail, extra))
  {
    var pairs := [p] + tail;
    var rest := AfterFirst(pairs, extra);
    AfterFirstReads(pairs, extra);
    assert pairs[1..] == tail;
    ParsePair(p, rest);
    if tail == [] && Parse(extra).Some? { assert [] + Parse(extra).value == Parse(extra).value; }
    ConsExpected(p, tail, Parse(rest), Parse(extra));
  }

  /** One that is not portable is not read back. */
  lemma FirstSplits(p: Pair, tail: seq<Pair>, extra: string)
    requires AllKeywords([p] + tail) && !Portable(p.val) && StartsPlain(WithExtra(extra)) && Parse(extra).Some?
    ensures !ReadsBack([p] + tail, extra)
  {
    AfterFirstReads([p] + tail, extra);
    assert ([p] + tail)[0] == p;
    ParseSplitPair(p, AfterFirst([p] + tail, extra));
  }

  lemma {:induction false} RenderedRoundTrip(pairs: seq<Pair>, extra: string)
    requires AllKeywords(pairs) && pairs != []
    ensures AllPortable(pairs) ==> ReadsBack(pairs, extra)
    ensures StartsPlain(WithExtra(extra)) && Parse(extra).Some? && !AllPortable(pairs) ==> !ReadsBack(pairs, extra)
  {
    var p, tail := pairs[0], pairs[1..];
    assert pairs == [p] + tail;
    PortableConcat([p], tail);
    if Portable(p.val) {
      FirstReads(p, tail, extra);
      assert AllPortable([p]);
      if tail != [] { RenderedRoundTrip(tail, extra); }
    } else {
      assert !AllPortable(pairs);
      if StartsPlain(WithExtra(extra)) && Parse(extra).Some? { FirstSplits(p, tail, extra); }
    }
  }

  lemma ConsExpected(p: Pair, pairs: seq<Pair>, r: Option<seq<Pair>>, extra: Option<seq<Pair>>)
    ensures Cons(p, r) == Expected([p] + pairs, extra) <==> r == Expected(pairs, extra)
  {
    if r.Some? && extra.Some? {
      assert [p] + pairs + extra.value == [p] + (pairs + extra.value);
      assert ([p] + r.value)[1..] == r.value;
      assert ([p] + (pairs + extra.value))[1..] == pairs + extra.value;
    }
  }

  lemma DigitsPortable(n: int)
    ensures Portable(Decimal(n))
  {
    var s := Decimal(n);
    assert forall i :: 0 <= i < |s| ==> s[i] in s;
  }

  ghost predicate PortableConfig(p: PostgresConfig, user: string, password: Option<string>, dbname: string) {
    && Portable(p.host) && Portable(user) && Portable(dbname)
    && (password.Some? ==> Portable(password.value))
    && Portable(p.sslMode) && Portable(p.sslRootCert) && Portable(p.sslCert) && Portable(p.sslKey)
  }

  lemma FieldNames()
    ensures IsKeyword("host") && IsKeyword("port") && IsKeyword("user") && IsKeyword("password")
    ensures IsKeyword("dbname") && IsKeyword("sslmode")
    ensures IsKeyword("sslrootcert") && IsKeyword("sslcert") && IsKeyword("sslkey")
  {
  }

  lemma SettingPortable(key: string, val: string)
    requires IsKeyword(key)
    ensures AllKeywords([Pair(key, val)]) && (AllPortable([Pair(key, val)]) <==> Portable(val))
    ensures AllKeywords(Unless(key, val)) && (AllPortable(Unless(key, val)) <==> Portable(val))
  {
    var s := [Pair(key, val)];
    assert s[0].val == val;
  }

  lemma DsnPairsPortable(p: PostgresConfig, user: string, password: Option<string>, dbname: string)
    ensures var pairs := DsnPairs(p, user, password, dbname);
            AllKeywords(pairs) && (AllPortable(pairs) <==> PortableConfig(p, user, password, dbname))
  {
    FieldNames();
    var b := if password.Some? then [Pair("password", password.value)] else [];
    if password.Some? { SettingPortable("password", password.value); }
    var d, e, f := Unless("sslrootcert", p.sslRootCert), Unless("sslcert", p.sslCert), Unless("sslkey", p.sslKey);
    SettingPortable("sslrootcert", p.sslRootCert);
    SettingPortable("sslcert", p.sslCert);
    SettingPortable("sslkey", p.sslKey);
    var a := LeadingPortable(p, user);
    var c := ModePortable(p, dbname);
    PortableConcat(a + b + c + d + e, f);
    PortableConcat(a + b + c + d, e);
    PortableConcat(a + b + c, d);
    PortableConcat(a + b, c);
    PortableConcat(a, b);
  }

  lemma LeadingPortable(p: PostgresConfig, user: string) returns (a: seq<Pair>)
    ensures a == [Pair("host", p.host), Pair("port", Decimal(p.port)), Pair("user", user)]
    ensures AllKeywords(a) && (AllPortable(a) <==> Portable(p.host) && Portable(user))
  {
    FieldNames();
    DigitsPortable(p.port);
    SettingPortable("host", p.host);
    SettingPortable("port", Decimal(p.port));
    SettingPortable("user", user);
    a := [Pair("host", p.host)] + [Pair("port", Decimal(p.port))] + [Pair("user", user)];
    PortableConcat([Pair("host", p.host)] + [Pair("port", Decimal(p.port))], [Pair("user", user)]);
    PortableConcat([Pair("host", p.host)], [Pair("port", Decimal(p.port))]);
  }

  lemma ModePortable(p: PostgresConfig, dbname: string) returns (c: seq<Pair>)
    ensures c == [Pair("dbname", dbname), Pair("sslmode", EffectiveSSLMode(p))]
    ensures AllKeywords(c) && (AllPortable(c) <==> Portable(dbname) && Portable(p.sslMode))
  {
    FieldNames();
    SettingPortable("dbname", dbname);
    SettingPortable("sslmode", EffectiveSSLMode(p));
    c := [Pair("dbname", dbname)] + [Pair("sslmode", EffectiveSSLMode(p))];
    PortableConcat([Pair("dbname", dbname)], [Pair("sslmode", EffectiveSSLMode(p))]);
    assert Portable("require") && Portable("");
  }

  lemma PortableConcat(a: seq<Pair>, b: seq<Pair>)
    ensures AllPortable(a + b) <==> AllPortable(a) && AllPortable(b)
    ensures AllKeywords(a + b) <==> AllKeywords(a) && AllKeywords(b)
  {
    var ab := a + b;
    assert forall i :: 0 <= i < |a| ==> a[i] == ab[i];
    assert forall i :: 0 <= i < |b| ==> b[i] == ab[|a| + i];
  }

  // ----- connection strings as C strings -----

  /** A NUL ends a C string and cannot be part of a command argument, so no text with one is read whole. */
  function Read(s: string): Option<seq<Pair>> { if '\0' in s then None else Parse(s) }

  ghost predicate NulFree(pairs: seq<Pair>) {
    forall i :: 0 <= i < |pairs| ==> '\0' !in pairs[i].val
  }

  ghost predicate PlainKeys(pairs: seq<Pair>) {
    forall i :: 0 <= i < |pairs| ==> '\0' !in pairs[i].key
  }

  lemma {:induction false} EscapeNul(v: string)
    ensures '\0' in Escape(v) <==> '\0' in v
  {
    if v != "" {
      EscapeNul(v[1..]);
      assert v == [v[0]] + v[1..];
    }
  }

  lemma QuoteNul(v: string)
    ensures '\0' in QuoteValue(v) <==> '\0' in v
  {
    EscapeNul(v);
  }

  lemma NulConcat(a: seq<Pair>, b: seq<Pair>)
    ensures NulFree(a + b) <==> NulFree(a) && NulFree(b)
    ensures PlainKeys(a + b) <==> PlainKeys(a) && PlainKeys(b)
  {
    var ab := a + b;
    assert forall i :: 0 <= i < |a| ==> a[i] == ab[i];
    assert forall i :: 0 <= i < |b| ==> b[i] == ab[|a| + i];
  }

  lemma {:induction false} RenderNul(pairs: seq<Pair>)
    requires PlainKeys(pairs)
    ensures '\0' !in RenderPairs(pairs) <==> NulFree(pairs)
  {
    if pairs != [] {
      QuoteNul(pairs[0].val);
      assert pairs == [pairs[0]] + pairs[1..];
      NulConcat([pairs[0]], pairs[1..]);
      OneNul(pairs[0]);
      RenderNul(pairs[1..]);
    }
  }

  lemma OneNul(p: Pair)
    ensures (NulFree([p]) <==> '\0' !in p.val) && (PlainKeys([p]) <==> '\0' !in p.key)
  {
    assert [p][0] == p;
  }

  ghost predicate NulFreeConfig(p: PostgresConfig, user: string, password: Option<string>, dbname: string) {
    && '\0' !in p.host && '\0' !in user && '\0' !in dbname
    && (password.Some? ==> '\0' !in password.value)
    && '\0' !in p.sslMode && '\0' !in p.sslRootCert && '\0' !in p.sslCert && '\0' !in p.sslKey
  }

  lemma UnlessNul(key: string, val: string)
    requires '\0' !in key
    ensures PlainKeys(Unless(key, val)) && (NulFree(Unless(key, val)) <==> '\0' !in val)
  {
    OneNul(Pair(key, val));
  }

  lemma FirstNul(p: PostgresConfig, user: string)
    ensures var a := [Pair("host", p.host), Pair("port", Decimal(p.port)), Pair("user", user)];
            PlainKeys(a) && (NulFree(a) <==> '\0' !in p.host && '\0' !in user)
  {
    var h, o, u := Pair("host", p.host), Pair("port", Decimal(p.port)), Pair("user", user);
    OneNul(h);
    OneNul(o);
    OneNul(u);
    NulConcat([h], [o]);
    NulConcat([h, o], [u]);
    assert [h] + [o] == [h, o] && [h, o] + [u] == [h, o, u];
  }

  lemma ModeNul(p: PostgresConfig, dbname: string)
    ensures var c := [Pair("dbname", dbname), Pair("sslmode", EffectiveSSLMode(p))];
            PlainKeys(c) && (NulFree(c) <==> '\0' !in dbname && '\0' !in p.sslMode)
  {
    var d, m := Pair("dbname", dbname), Pair("sslmode", EffectiveSSLMode(p));
    OneNul(d);
    OneNul(m);
    NulConcat([d], [m]);
    assert [d] + [m] == [d, m];
  }

  lemma TlsNul(p: PostgresConfig)
    ensures var tls := Unless("sslrootcert", p.sslRootCert) + Unless("sslcert", p.sslCert) + Unless("sslkey", p.sslKey);
            PlainKeys(tls) && (NulFree(tls) <==> '\0' !in p.sslRootCert && '\0' !in p.sslCert && '\0' !in p.sslKey)
  {
    var d, e, f := Unless("sslrootcert", p.sslRootCert), Unless("sslcert", p.sslCert), Unless("sslkey", p.sslKey);
    UnlessNul("sslrootcert", p.sslRootCert);
    UnlessNul("sslcert", p.sslCert);
    UnlessNul("sslkey", p.sslKey);
    NulConcat(d + e, f);
    NulConcat(d, e);
  }

  lemma RegroupTls(a: seq<Pair>, d: seq<Pair>, e: seq<Pair>, f: seq<Pair>)
    ensures a + d + e + f == a + (d + e + f)
  {
  }

  lemma DsnPairsNul(p: PostgresConfig, user: string, password: Option<string>, dbname: string)
    ensures var pairs := DsnPairs(p, user, password, dbname);
            PlainKeys(pairs) && (NulFree(pairs) <==> NulFreeConfig(p, user, password, dbname))
  {
    var a := [Pair("host", p.host), Pair("port", Decimal(p.port)), Pair("user", user)];
    var b := if password.Some? then [Pair("password", password.value)] else [];
    var c := [Pair("dbname", dbname), Pair("sslmode", EffectiveSSLMode(p))];
    var d, e, f := Unless("sslrootcert", p.sslRootCert), Unless("sslcert", p.sslCert), Unless("sslkey", p.sslKey);
    FirstNul(p, user);
    if password.Some? { OneNul(Pair("password", password.value)); }
    ModeNul(p, dbname);
    TlsNul(p);
    RegroupTls(a + b + c, d, e, f);
    NulConcat(a + b + c, d + e + f);
    NulConcat(a + b, c);
    NulConcat(a, b);
  }

  lemma DsnNul(p: PostgresConfig, user: string, password: Option<string>, dbname: string, extra: string)
    ensures '\0' !in Dsn(p, user, password, dbname, extra)
            <==> NulFreeConfig(p, user, password, dbname) && '\0' !in extra
  {
    DsnPairsNul(p, user, password, dbname);
    RenderNul(DsnPairs(p, user, password, dbname));
  }

  // ----- the whole connection string -----

  /**
    Round trip: libpq reads back exactly the pairs written, in order, followed by the settings of
    the extra text.
   */
  lemma DsnRoundTrip(p: PostgresConfig, user: string, password: Option<string>, dbname: string, extra: string)
    requires PortableConfig(p, user, password, dbname) && NulFreeConfig(p, user, password, dbname)
    ensures Read(Dsn(p, user, password, dbname, extra))
            == Expected(DsnPairs(p, user, password, dbname), Read(extra))
  {
    DsnPairsPortable(p, user, password, dbname);
    DsnNul(p, user, password, dbname, extra);
    RenderedRoundTrip(DsnPairs(p, user, password, dbname), extra);
  }

  /**
    The condition is exact: with a well-formed extra text, the pairs come back if and only if every value
    is free of NUL, and free of whitespace or printed in quotes. A tab or a newline alone does not make
    quoteLibPQValue quote.
   */
  lemma DsnRoundTripIff(p: PostgresConfig, user: string, password: Option<string>, dbname: string, extra: string)
    requires Read(extra).Some? && StartsPlain(WithExtra(extra))
    ensures Read(Dsn(p, user, password, dbname, extra))
            == Expected(DsnPairs(p, user, password, dbname), Read(extra))
            <==> PortableConfig(p, user, password, dbname) && NulFreeConfig(p, user, password, dbname)
  {
    DsnPairsPortable(p, user, password, dbname);
    DsnNul(p, user, password, dbname, extra);
    RenderedRoundTrip(DsnPairs(p, user, password, dbname), extra);
  }

  /** What libpq takes for a keyword: the last value given for it. */
  function Lookup(ps: seq<Pair>, key: string): Option<string> {
    if ps == [] then None
    else
      var later := Lookup(ps[1..], key);
      if later.Some? then later else if ps[0].key == key then Some(ps[0].val) else None
  }

  lemma {:induction false} LookupConcat(a: seq<Pair>, b: seq<Pair>, key: string)
    ensures Lookup(a + b, key) == if Lookup(b, key).Some? then Lookup(b, key) else Lookup(a, key)
  {
    if a == [] {
      assert a + b == b;
    } else {
      assert (a + b)[0] == a[0] && (a + b)[1..] == a[1..] + b;
      LookupConcat(a[1..], b, key);
    }
  }

  lemma LookupOne(k: string, val: string, key: string)
    ensures Lookup([Pair(k, val)], key) == if k == key then Some(val) else None
    ensures Lookup(Unless(k, val), key) == if k == key && val != "" then Some(val) else None
  {
    assert [Pair(k, val)][1..] == [];
  }

  lemma LookupTwo(a: Pair, b: Pair, key: string)
    ensures Lookup([a, b], key) == if b.key == key then Some(b.val) else if a.key == key then Some(a.val) else None
  {
    LookupOne(a.key, a.val, key);
    LookupOne(b.key, b.val, key);
    LookupConcat([a], [b], key);
    assert [a] + [b] == [a, b];
  }

  lemma LookupPairs(p: PostgresConfig, user: string, password: Option<string>, dbname: string, key: string)
    ensures Lookup(DsnPairs(p, user, password, dbname), key)
            == if key == "sslkey" && p.sslKey != "" then Some(p.sslKey)
               else if key == "sslcert" && p.sslCert != "" then Some(p.sslCert)
               else if key == "sslrootcert" && p.sslRootCert != "" then Some(p.sslRootCert)
               else if key == "sslmode" then Some(if p.sslMode == "" then "require" else p.sslMode)
               else if key == "dbname" then Some(dbname)
               else if key == "password" && password.Some? then password
               else if key == "user" then Some(user)
               else if key == "port" then Some(Decimal(p.port))
               else if key == "host" then Some(p.host)
               else None
  {
    var h, o, u := Pair("host", p.host), Pair("port", Decimal(p.port)), Pair("user", user);
    var a := [h, o, u];
    var b := if password.Some? then [Pair("password", password.value)] else [];
    var c := [Pair("dbname", dbname), Pair("sslmode", EffectiveSSLMode(p))];
    var d, e, f := Unless("sslrootcert", p.sslRootCert), Unless("sslcert", p.sslCert), Unless("sslkey", p.sslKey);
    LookupConcat(a + b + c + d + e, f, key);
    LookupConcat(a + b + c + d, e, key);
    LookupConcat(a + b + c, d, key);
    LookupConcat(a + b, c, key);
    LookupConcat(a, b, key);
    LookupOne("sslkey", p.sslKey, key);
    LookupOne("sslcert", p.sslCert, key);
    LookupOne("sslrootcert", p.sslRootCert, key);
    LookupTwo(c[0], c[1], key);
    if password.Some? { LookupOne("password", password.value, key); }
    LookupTwo(h, o, key);
    LookupOne("user", user, key);
    LookupConcat([h, o], [u], key);
    assert [h, o] + [u] == a;
  }

  /**
    What libpq connects with, by the configuration: each keyword has its setting's value, the SSL mode is
    "require" unless one is set, an absent password and empty certificate settings are left out, and there
    is no other keyword.
   */
  lemma DsnMeans(p: PostgresConfig, user: string, password: Option<string>, dbname: string, key: string)
    requires PortableConfig(p, user, password, dbname) && NulFreeConfig(p, user, password, dbname)
    ensures Read(Dsn(p, user, password, dbname, "")).Some?
    ensures Lookup(Read(Dsn(p, user, password, dbname, "")).value, key)
            == if key == "sslkey" && p.sslKey != "" then Some(p.sslKey)
               else if key == "sslcert" && p.sslCert != "" then Some(p.sslCert)
               else if key == "sslrootcert" && p.sslRootCert != "" then Some(p.sslRootCert)
               else if key == "sslmode" then Some(if p.sslMode == "" then "require" else p.sslMode)
               else if key == "dbname" then Some(dbname)
               else if key == "password" && password.Some? then password
               else if key == "user" then Some(user)
               else if key == "port" then Some(Decimal(p.port))
               else if key == "host" then Some(p.host)
               else None
  {
    DsnRoundTrip(p, user, password, dbname, "");
    assert Read("") == Some([]);
    assert DsnPairs(p, user, password, dbname) + [] == DsnPairs(p, user, password, dbname);
    LookupPairs(p, user, password, dbname, key);
  }

  // The extra text of every replication DSN.
  const REPLICATION_EXTRA := "application_name" + "=" + "syncctl"

  /** The replication DSN ends with the application name setting. */
  lemma ReplicationDsnReads(p: PostgresConfig, user: string, password: Option<string>)
    requires PortableConfig(p, user, password, "replication") && NulFreeConfig(p, user, password, "replication")
    ensures Read(Dsn(p, user, password, "replication", REPLICATION_EXTRA))
            == Some(DsnPairs(p, user, password, "replication") + [Pair("application_name", "syncctl")])
  {
    ApplicationNamePlain();
    ParseSingle(Pair("application_name", "syncctl"));
    DsnRoundTrip(p, user, password, "replication", REPLICATION_EXTRA);
  }

  lemma ParseSingle(p: Pair)
    requires IsKeyword(p.key) && p.val != "" && Portable(p.val) && !HasTrigger(p.val)
    ensures Parse(p.key + "=" + p.val) == Some([p])
  {
    ParsePair(p, "");
    assert RenderPair(p) + "" == p.key + "=" + p.val;
    assert SkipSpaces("") == "";
    assert [p] + [] == [p];
  }

  lemma ApplicationNamePlain()
    ensures IsKeyword("application_name") && Portable("syncctl") && !HasTrigger("syncctl")
    ensures '\0' !in REPLICATION_EXTRA
  {
  }
}
