/**
  The registry's Bearer challenge (internal/reconciler/registry): splitting a parameter list on
  unquoted commas and reading realm, service and scope, against challenges printed by section 3 of
  RFC 6750 and section 11.6.1 of RFC 9110.
 */
module RegistryAuth {
  import opened Splitting
  import opened Util

  // ----- the splitter -----

  /** The parts of `s`, with `current` already collected and `inQuotes` the state it left. */
  function Split(s: string, current: string, inQuotes: bool): seq<string> {
    if s == "" then if current == "" then [] else [current]
    else if s[0] == '"' then Split(s[1..], current + [s[0]], !inQuotes)
    else if s[0] == ',' && !inQuotes then [current] + Split(s[1..], "", false)
    else Split(s[1..], current + [s[0]], inQuotes)
  }

  /** splitParams. */
  method SplitParams(s: string) returns (parts: seq<string>)
    ensures parts == Split(s, "", false)
  {
    parts := [];
    var current, inQuotes := "", false;
    for i := 0 to |s|
      invariant parts + Split(s[i..], current, inQuotes) == Split(s, "", false)
    {
      assert s[i..][0] == s[i] && s[i..][1..] == s[i + 1..];
      if s[i] == '"' {
        inQuotes := !inQuotes;
        current := current + [s[i]];
      } else if s[i] == ',' && !inQuotes {
        assert parts + ([current] + Split(s[i + 1..], "", false)) == parts + [current] + Split(s[i + 1..], "", false);
        parts := parts + [current];
        current := "";
      } else {
        current := current + [s[i]];
      }
    }
    assert s[|s|..] == "";
    if |current| > 0 {
      parts := parts + [current];
    }
  }

  // ----- the parser -----

  datatype Challenge = Challenge(realm: string, service: string, scope: string)

  function TrimQuotesLeft(s: string): string {
    if s != "" && s[0] == '"' then TrimQuotesLeft(s[1..]) else s
  }

  function TrimQuotesRight(s: string): string {
    if s != "" && s[|s| - 1] == '"' then TrimQuotesRight(s[..|s| - 1]) else s
  }

  function TrimQuotes(s: string): string { TrimQuotesRight(TrimQuotesLeft(s)) }

  function Assign(c: Challenge, key: string, value: string): Challenge {
    if key == "realm" then c.(realm := value)
    else if key == "service" then c.(service := value)
    else if key == "scope" then c.(scope := value)
    else c
  }

  /** One parameter: a part without an equal sign is skipped. */
  function ReadPart(c: Challenge, part: string): Challenge {
    var i := Index(part, '=');
    if i == |part| then c
    else Assign(c, TrimSpace(part[..i]), TrimQuotes(TrimSpace(part[i + 1..])))
  }

  function ReadParts(c: Challenge, parts: seq<string>): Challenge
    decreases |parts|
  {
    if parts == [] then c else ReadParts(ReadPart(c, parts[0]), parts[1..])
  }

  const EMPTY := Challenge("", "", "")

  const BEARER := "Bearer "

  function Read(header: string): (Challenge, bool) {
    if !(BEARER <= header) then (EMPTY, false)
    else
      var c := ReadParts(EMPTY, Split(header[|BEARER|..], "", false));
      if c.realm == "" then (EMPTY, false) else (c, true)
  }

  /** parseChallenge. */
  method ParseChallenge(header: string) returns (c: Challenge, ok: bool)
    ensures (c, ok) == Read(header)
  {
    if !(BEARER <= header) {
      return EMPTY, false;
    }
    var parts := SplitParams(header[|BEARER|..]);
    c := EMPTY;
    for i := 0 to |parts|
      invariant ReadParts(c, parts[i..]) == ReadParts(EMPTY, parts)
    {
      assert parts[i..][1..] == parts[i + 1..];
      c := ReadPart(c, parts[i]);
    }
    if c.realm == "" {
      return EMPTY, false;
    }
    ok := true;
  }

  /** Of any other scheme nothing is read; and what is accepted has a realm. */
  lemma OtherSchemes(header: string)
    ensures !("Bearer " <= header) ==> Read(header) == (Challenge("", "", ""), false)
    ensures Read(header).1 <==> Read(header).0.realm != ""
  {
  }

  // ----- splitting and joining -----

  /** The quote state after `s`. */
  function After(s: string, inQuotes: bool): bool {
    if s == "" then inQuotes else After(s[1..], (s[0] == '"') != inQuotes)
  }

  /** No comma of `s` stands outside quotes. */
  predicate Sealed(s: string, inQuotes: bool) {
    s == "" || ((s[0] == ',' ==> inQuotes) && Sealed(s[1..], (s[0] == '"') != inQuotes))
  }

  lemma {:induction false} SealedSnoc(s: string, c: char, q: bool)
    requires Sealed(s, q)
    ensures After(s + [c], q) == ((c == '"') != After(s, q))
    ensures Sealed(s + [c], q) <==> (c == ',' ==> After(s, q))
  {
    if s == "" {
      assert (s + [c])[1..] == "";
    } else {
      assert (s + [c])[1..] == s[1..] + [c];
      SealedSnoc(s[1..], c, (s[0] == '"') != q);
    }
  }

  /** `s` ends with a comma outside quotes, with `q` the state before it. */
  predicate EndsOpen(s: string, q: bool) {
    s != "" && s[|s| - 1] == ',' && !After(s[..|s| - 1], q)
  }

  lemma EndsOpenStep(s: string, q: bool)
    requires |s| > 1
    ensures EndsOpen(s, q) == EndsOpen(s[1..], (s[0] == '"') != q)
  {
    assert s[..|s| - 1][1..] == s[1..][..|s| - 2];
  }

  lemma EndsOpenFirst(s: string, q: bool)
    requires s != ""
    ensures EndsOpen(s, q) == if |s| == 1 then s[0] == ',' && !q else EndsOpen(s[1..], (s[0] == '"') != q)
  {
    if |s| > 1 { EndsOpenStep(s, q); } else { assert s[..0] == ""; }
  }

  function Closing(s: string, q: bool): string { if EndsOpen(s, q) then "," else "" }

  /** A comma outside quotes closes the current part. */
  lemma SplitAtComma(s: string, current: string, tail: seq<string>)
    requires s != "" && s[0] == ',' && tail == Split(s[1..], "", false)
    requires s[1..] == Join(tail, ",") + Closing(s[1..], false)
    ensures current + s == Join([current] + tail, ",") + Closing(s, false)
  {
    var rest := s[1..];
    JoinCons(current, tail, ",");
    EndsOpenFirst(s, false);
    assert current + s == current + "," + rest by { assert s == "," + rest; }
    if tail == [] {
      assert "" + Closing(rest, false) == Closing(rest, false);
    } else {
      Regroup(current + ",", Join(tail, ","), Closing(rest, false));
    }
  }

  /** Any other character is collected. */
  lemma CollectChar(s: string, current: string, q: bool)
    requires s != "" && !(s[0] == ',' && !q) && Sealed(current, false) && After(current, false) == q
    ensures var now, more := current + [s[0]], (s[0] == '"') != q;
            && Sealed(now, false) && After(now, false) == more
            && current + s == now + s[1..] && Closing(s, q) == Closing(s[1..], more)
  {
    SealedSnoc(current, s[0], false);
    EndsOpenFirst(s, q);
    assert s == [s[0]] + s[1..];
    Regroup(current, [s[0]], s[1..]);
  }

  /** The parts are sealed, and with commas between them they are the text that was split. */
  lemma {:induction false} SplitJoins(s: string, current: string, q: bool)
    requires Sealed(current, false) && After(current, false) == q
    ensures var parts := Split(s, current, q);
            && (forall k :: 0 <= k < |parts| ==> Sealed(parts[k], false))
            && current + s == Join(parts, ",") + Closing(s, q)
  {
    if s == "" {
      assert current + s == current;
    } else if s[0] == ',' && !q {
      SplitJoins(s[1..], "", false);
      assert "" + s[1..] == s[1..];
      SplitAtComma(s, current, Split(s[1..], "", false));
    } else {
      CollectChar(s, current, q);
      SplitJoins(s[1..], current + [s[0]], (s[0] == '"') != q);
    }
  }

  /**
    splitParams loses nothing: joined with commas the parts are the input again, up to one final
    comma outside quotes, and no part holds a comma outside quotes.
   */
  lemma SplitRestores(s: string)
    ensures var parts := Split(s, "", false);
            && (forall k :: 0 <= k < |parts| ==> Sealed(parts[k], false))
            && s == Join(parts, ",") + Closing(s, false)
  {
    SplitJoins(s, "", false);
    assert "" + s == s;
  }

  /** Sealed text is collected whole. */
  lemma {:induction false} SplitSealed(x: string, rest: string, current: string, q: bool)
    requires Sealed(x, q)
    ensures Split(x + rest, current, q) == Split(rest, current + x, After(x, q))
  {
    if x == "" {
      assert x + rest == rest && current + x == current;
    } else {
      assert (x + rest)[1..] == x[1..] + rest;
      assert current + x == current + [x[0]] + x[1..];
      SplitSealed(x[1..], rest, current + [x[0]], (x[0] == '"') != q);
    }
  }

  /** A part that a printer may write: non-empty, with its quotes closed and its commas quoted. */
  predicate IsPart(x: string) { x != "" && Sealed(x, false) && !After(x, false) }

  lemma SplitFirst(p: string, tail: seq<string>)
    requires IsPart(p)
    ensures Split(Join([p] + tail, ","), "", false) == [p] + Split(Join(tail, ","), "", false)
  {
    var rest := if tail == [] then "" else "," + Join(tail, ",");
    JoinCons(p, tail, ",");
    SplitSealed(p, rest, "", false);
    assert p + "" == p && "" + p == p;
    if tail == [] {
      assert [p] + [] == [p];
    } else {
      assert rest[1..] == Join(tail, ",");
      Regroup(p, ",", Join(tail, ","));
    }
  }

  /** Conversely, whatever is printed from closed parts splits into those parts. */
  lemma {:induction false} SplitOfJoin(parts: seq<string>)
    requires forall k :: 0 <= k < |parts| ==> IsPart(parts[k])
    ensures Split(Join(parts, ","), "", false) == parts
  {
    if parts != [] {
      assert parts == [parts[0]] + parts[1..];
      SplitFirst(parts[0], parts[1..]);
      SplitOfJoin(parts[1..]);
    }
  }

  // ----- printed challenges -----

  /** tchar of section 5.6.2 of RFC 9110. */
  predicate IsTokenChar(c: char) {
    IsAlnum(c) || c in {'!', '#', '$', '%', '&', '\'', '*', '+', '-', '.', '^', '_', '`', '|', '~'}
  }

  predicate IsToken(s: string) { s != "" && forall i :: 0 <= i < |s| ==> IsTokenChar(s[i]) }

  /** Optional whitespace. */
  predicate IsOws(s: string) { forall i :: 0 <= i < |s| ==> s[i] == ' ' || s[i] == '\t' }

  /** A quoted value that needs no escaping. */
  predicate IsPlainText(s: string) { '"' !in s && '\\' !in s }

  datatype Param = Param(
    before: string, name: string, beforeEq: string, afterEq: string, value: string, quoted: bool, after: string)
  {
    predicate Valid() {
      && IsOws(before) && IsOws(beforeEq) && IsOws(afterEq) && IsOws(after)
      && IsToken(name) && (if quoted then IsPlainText(value) else IsToken(value))
    }

    function ValueText(): string { if quoted then "\"" + value + "\"" else value }

    function Left(): string { before + name + beforeEq }

    function Right(): string { afterEq + ValueText() + after }

    function Text(): string { Left() + "=" + Right() }
  }

  function Texts(params: seq<Param>): seq<string> {
    if params == [] then [] else [params[0].Text()] + Texts(params[1..])
  }

  ghost predicate AllValid(params: seq<Param>) {
    forall k :: 0 <= k < |params| ==> params[k].Valid()
  }

  /** The last value given for a name. */
  function Lookup(params: seq<Param>, name: string, default: string): string {
    if params == [] then default
    else Lookup(params[1..], name, if params[0].name == name then params[0].value else default)
  }

  /** Text without quotes and commas leaves the quote state alone. */
  lemma {:induction false} SealedPlain(x: string, q: bool)
    requires '"' !in x && (q || ',' !in x)
    ensures Sealed(x, q) && After(x, q) == q
  {
    if x != "" {
      SealedPlain(x[1..], q);
    }
  }

  lemma {:induction false} SealedConcat(x: string, y: string, q: bool)
    ensures Sealed(x + y, q) == (Sealed(x, q) && Sealed(y, After(x, q)))
    ensures After(x + y, q) == After(y, After(x, q))
  {
    if x == "" {
      assert x + y == y;
    } else {
      assert (x + y)[1..] == x[1..] + y;
      SealedConcat(x[1..], y, (x[0] == '"') != q);
    }
  }

  lemma QuotedSealed(v: string)
    requires '"' !in v
    ensures Sealed("\"" + v + "\"", false) && !After("\"" + v + "\"", false)
  {
    SealedPlain(v, true);
    SealedConcat("\"", v, false);
    SealedConcat("\"" + v, "\"", false);
    assert "\""[1..] == "";
  }

  lemma ParamIsPart(p: Param)
    requires p.Valid()
    ensures IsPart(p.Text())
  {
    var head, v := p.Left() + "=" + p.afterEq, p.ValueText();
    ParamHeadPlain(p);
    if p.quoted { QuotedSealed(p.value); } else { SealedPlain(v, false); }
    SealedPlain(p.after, false);
    SealedConcat(head, v, false);
    SealedConcat(head + v, p.after, false);
    assert p.Text() == head + v + p.after;
  }

  lemma ParamHeadPlain(p: Param)
    requires p.Valid()
    ensures var head := p.Left() + "=" + p.afterEq; Sealed(head, false) && !After(head, false)
  {
    SealedPlain(p.before, false);
    SealedPlain(p.name, false);
    SealedPlain(p.beforeEq, false);
    SealedPlain("=", false);
    SealedPlain(p.afterEq, false);
    SealedConcat(p.before, p.name, false);
    SealedConcat(p.before + p.name, p.beforeEq, false);
    SealedConcat(p.Left(), "=", false);
    SealedConcat(p.Left() + "=", p.afterEq, false);
  }

  lemma {:induction false} TextsAreParts(params: seq<Param>)
    requires AllValid(params)
    ensures |Texts(params)| == |params|
    ensures forall k :: 0 <= k < |params| ==> IsPart(Texts(params)[k])
  {
    if params != [] {
      ParamIsPart(params[0]);
      assert AllValid(params[1..]);
      TextsAreParts(params[1..]);
    }
  }

  lemma {:induction false} TrimLeftOws(ows: string, x: string)
    requires IsOws(ows) && x != "" && !IsWhite(x[0])
    ensures TrimLeft(ows + x) == x
  {
    if ows == "" {
      assert ows + x == x;
    } else {
      assert (ows + x)[1..] == ows[1..] + x;
      TrimLeftOws(ows[1..], x);
    }
  }

  lemma {:induction false} TrimRightOws(x: string, ows: string)
    requires IsOws(ows) && x != "" && !IsWhite(x[|x| - 1])
    ensures TrimRight(x + ows) == x
  {
    if ows == "" {
      assert x + ows == x;
    } else {
      var y := x + ows;
      assert y[|y| - 1] == ows[|ows| - 1];
      assert y[..|y| - 1] == x + ows[..|ows| - 1];
      TrimRightOws(x, ows[..|ows| - 1]);
    }
  }

  lemma TrimOws(a: string, x: string, b: string)
    requires IsOws(a) && IsOws(b) && x != "" && !IsWhite(x[0]) && !IsWhite(x[|x| - 1])
    ensures TrimSpace(a + x + b) == x
  {
    assert a + x + b == a + (x + b);
    TrimLeftOws(a, x + b);
    TrimRightOws(x, b);
  }

  lemma TrimQuotesOf(v: string)
    requires '"' !in v
    ensures TrimQuotes("\"" + v + "\"") == v && TrimQuotes(v) == v
  {
    var s := "\"" + v + "\"";
    assert s[1..] == v + "\"";
    if v == "" {
      assert ("\"")[1..] == "";
      assert TrimQuotesLeft(s) == TrimQuotesLeft("\"") == "";
    } else {
      assert v[0] != '"' && v[|v| - 1] != '"';
      assert TrimQuotesLeft(s) == v + "\"";
      var t := v + "\"";
      assert t[|t| - 1] == '"' && t[..|t| - 1] == v;
      assert TrimQuotesRight(t) == TrimQuotesRight(v) == v;
    }
  }

  lemma IndexAfter(l: string, r: string, c: char)
    requires c !in l
    ensures var s := l + [c] + r; Index(s, c) == |l| && s[..|l|] == l && s[|l| + 1..] == r
  {
    var s := l + [c] + r;
    assert s[|l|] == c && forall k :: 0 <= k < |l| ==> s[k] == l[k] && l[k] in l;
  }

  lemma LeftHasNoEquals(p: Param)
    requires p.Valid()
    ensures '=' !in p.Left()
  {
  }

  lemma SidesTrimmed(p: Param)
    requires p.Valid()
    ensures TrimSpace(p.Left()) == p.name && TrimSpace(p.Right()) == p.ValueText() && '"' !in p.value
  {
    TrimOws(p.before, p.name, p.beforeEq);
    TrimOws(p.afterEq, p.ValueText(), p.after);
  }

  /** A printed parameter is read as its name and its value. */
  lemma ReadParam(c: Challenge, p: Param)
    requires p.Valid()
    ensures ReadPart(c, p.Text()) == Assign(c, p.name, p.value)
  {
    LeftHasNoEquals(p);
    IndexAfter(p.Left(), p.Right(), '=');
    SidesTrimmed(p);
    TrimQuotesOf(p.value);
  }

  function Expected(params: seq<Param>, c: Challenge): Challenge {
    Challenge(Lookup(params, "realm", c.realm), Lookup(params, "service", c.service), Lookup(params, "scope", c.scope))
  }

  lemma NamesDiffer()
    ensures "realm" != "service" && "realm" != "scope" && "service" != "scope"
  {
    assert "realm"[0] == 'r' && "service"[1] == 'e' && "scope"[1] == 'c';
  }

  lemma {:induction false} ReadTexts(params: seq<Param>, c: Challenge)
    requires AllValid(params)
    ensures ReadParts(c, Texts(params)) == Expected(params, c)
  {
    if params != [] {
      var p := params[0];
      ReadParam(c, p);
      NamesDiffer();
      assert AllValid(params[1..]);
      ReadTexts(params[1..], Assign(c, p.name, p.value));
      assert Texts(params)[1..] == Texts(params[1..]);
    }
  }

  /**
    Round trip: a Bearer challenge printed with any parameters in any order, with whitespace around
    them and commas inside quoted values, is read as the last realm, service and scope given; it is
    accepted exactly when that realm is not empty.
   */
  lemma ChallengeRoundTrip(params: seq<Param>)
    requires AllValid(params)
    ensures Read("Bearer " + Join(Texts(params), ","))
            == var c := Expected(params, EMPTY); if c.realm == "" then (EMPTY, false) else (c, true)
  {
    var list := Join(Texts(params), ",");
    assert (BEARER + list)[|BEARER|..] == list;
    TextsAreParts(params);
    SplitOfJoin(Texts(params));
    ReadTexts(params, EMPTY);
  }

  // ----- values that need escaping -----

  /** quoted-string of section 5.6.4 of RFC 9110: quotes and backslashes as quoted pairs. */
  function Escaped(v: string): string {
    if v == "" then ""
    else (if v[0] == '"' || v[0] == '\\' then ['\\', v[0]] else [v[0]]) + Escaped(v[1..])
  }

  datatype Field = Field(name: string, value: string)
  {
    function Body(): string { Escaped(value) + "\"" }

    function Text(): string { name + "=" + ("\"" + Body()) }
  }

  function FieldTexts(fields: seq<Field>): seq<string> {
    if fields == [] then [] else [fields[0].Text()] + FieldTexts(fields[1..])
  }

  /** A challenge as a server prints it: each value a quoted string. */
  function Header(fields: seq<Field>): string { BEARER + Join(FieldTexts(fields), ",") }

  /** What its fields say. */
  function Meant(fields: seq<Field>, c: Challenge): Challenge
    decreases |fields|
  {
    if fields == [] then c else Meant(fields[1..], Assign(c, fields[0].name, fields[0].value))
  }

  predicate IsName(name: string) { name == "realm" || name == "service" || name == "scope" }

  /** Realm, service and scope at most once each, in any order. */
  ghost predicate AreFields(fields: seq<Field>) {
    && (forall k :: 0 <= k < |fields| ==> IsName(fields[k].name))
    && (forall i, j :: 0 <= i < j < |fields| ==> fields[i].name != fields[j].name)
  }

  ghost predicate AllPlain(fields: seq<Field>) { forall k :: 0 <= k < |fields| ==> IsPlainText(fields[k].value) }

  lemma {:induction false} EscapedPlain(v: string)
    requires IsPlainText(v)
    ensures Escaped(v) == v
  {
    if v != "" {
      EscapedPlain(v[1..]);
    }
  }

  // ----- the first value that needs escaping is misread -----

  lemma SlashesMove(slashes: string, pair: string)
    requires pair == ['\\', '\\'] && forall i :: 0 <= i < |slashes| ==> slashes[i] == '\\'
    ensures (slashes + pair)[1..] == slashes + "\\"
  {
  }

  lemma EscapedSlash(v: string, slashes: string, u: string, t: string)
    requires v != "" && v[0] == '\\' && t == slashes + (Escaped(v) + u)
    requires forall i :: 0 <= i < |slashes| ==> slashes[i] == '\\'
    ensures t != "" && t[1..] == slashes + "\\" + (Escaped(v[1..]) + u)
  {
    var pair, e := ['\\', v[0]], Escaped(v[1..]);
    Regroup(pair, e, u);
    Regroup(slashes, pair, e + u);
    SlashesMove(slashes, pair);
    DropConcat(slashes + pair, e + u, 1);
  }

  lemma EscapedOther(v: string, u: string, t: string)
    requires v != "" && v[0] != '\\' && t == "" + (Escaped(v) + u) && v <= t
    ensures v[0] != '"' && t[1..] == "" + (Escaped(v[1..]) + u)
  {
    assert t == Escaped(v) + u && t[0] == v[0];
    Regroup([v[0]], Escaped(v[1..]), u);
    assert ([v[0]] + (Escaped(v[1..]) + u))[1..] == Escaped(v[1..]) + u;
  }

  /** Escaping moves `v` apart from its own text: if that starts with `v` at all, a backslash follows. */
  lemma {:induction false} Diverges(v: string, slashes: string, u: string, t: string)
    requires t == slashes + (Escaped(v) + u) && v <= t
    requires forall i :: 0 <= i < |slashes| ==> slashes[i] == '\\'
    requires slashes != "" || !IsPlainText(v)
    ensures |v| < |t| && t[|v|] == '\\'
    decreases |v|
  {
    assert slashes != "" ==> t[0] == slashes[0];
    if v != "" {
      var c, y := v[0], v[1..];
      assert y <= t[1..] by { assert v == [c] + y; }
      if c == '\\' {
        EscapedSlash(v, slashes, u, t);
        Diverges(y, slashes + "\\", u, t[1..]);
      } else if slashes == "" {
        EscapedOther(v, u, t);
        Diverges(y, "", u, t[1..]);
      }
    }
  }

  lemma {:induction false} TrimRightSpec(s: string)
    ensures var r := TrimRight(s); r <= s && (|r| < |s| ==> IsWhite(s[|r|]))
  {
    if s != "" && IsWhite(s[|s| - 1]) { TrimRightSpec(s[..|s| - 1]); }
  }

  lemma {:induction false} TrimQuotesRightSpec(s: string)
    ensures var r := TrimQuotesRight(s); r <= s && (|r| < |s| ==> s[|r|] == '"')
  {
    if s != "" && s[|s| - 1] == '"' { TrimQuotesRightSpec(s[..|s| - 1]); }
  }

  /** What is read of a value that starts with a single quote: all of `y` up to a quote or white space. */
  lemma TrimmedValue(y: string)
    requires y == "" || y[0] != '"'
    ensures var z := TrimQuotes(TrimSpace("\"" + y)); z <= y && (|z| < |y| ==> y[|z|] == '"' || IsWhite(y[|z|]))
  {
    var s := TrimSpace("\"" + y);
    TrimRightSpec("\"" + y);
    assert ("\"" + y)[1..] == y;
    assert |s| > 0 by { QuoteStays(y); }
    var y1 := s[1..];
    assert y1 <= y && (|y1| < |y| ==> IsWhite(y[|y1|]));
    assert TrimQuotesLeft(s) == y1;
    TrimQuotesRightSpec(y1);
  }

  lemma {:induction false} QuoteStays(y: string)
    ensures TrimRight("\"" + y) != ""
    decreases |y|
  {
    if y != "" {
      assert ("\"" + y)[..|y|] == "\"" + y[..|y| - 1];
      QuoteStays(y[..|y| - 1]);
    }
  }

  lemma EscapedStart(v: string)
    requires v != ""
    ensures Escaped(v) != "" && Escaped(v)[0] != '"'
  {
  }

  lemma {:induction false} EscapedLength(v: string)
    ensures |Escaped(v)| >= |v|
  {
    if v != "" { EscapedLength(v[1..]); }
  }

  lemma SlashBehind(v: string, t: string, u: string)
    requires !IsPlainText(v) && t == Escaped(v) + u && v <= t
    ensures |v| < |t| && t[|v|] == '\\'
  {
    assert "" + t == t;
    Diverges(v, "", u, t);
  }

  /** A value that needs escaping is not what is read from a part that its text starts. */
  lemma ValueDiffers(v: string, y: string, t: string, u: string)
    requires !IsPlainText(v) && t == Escaped(v) + u && u != "" && y <= t && (|y| < |t| ==> t[|y|] == ',')
    ensures TrimQuotes(TrimSpace("\"" + y)) != v
  {
    EscapedStart(v);
    assert y != "" ==> y[0] == t[0] == Escaped(v)[0];
    TrimmedValue(y);
    EscapedLength(v);
    if v <= t { SlashBehind(v, t, u); }
  }

  // ----- and never put right by a later part -----

  /** A letter that the other two names do not have. */
  function Letter(name: string): char { if name == "realm" then 'm' else if name == "service" then 'v' else 'p' }

  function Get(c: Challenge, name: string): string {
    if name == "realm" then c.realm else if name == "service" then c.service else c.scope
  }

  /** The occurrences of a character in all three values. */
  function Weight(c: Challenge, x: char): nat {
    Count(c.realm, x) + Count(c.service, x) + Count(c.scope, x)
  }

  function CountAll(parts: seq<string>, x: char): nat {
    if parts == [] then 0 else Count(parts[0], x) + CountAll(parts[1..], x)
  }

  lemma CountOne(a: string, x: char, b: string)
    requires x !in a && x !in b
    ensures Count(a + [x] + b, x) == 1
  {
    CountZero(a, x);
    CountZero(b, x);
    CountConcat(a, [x], x);
    CountConcat(a + [x], b, x);
    assert [x][1..] == "";
  }

  lemma LetterCounts(name: string, of: string)
    requires IsName(name) && IsName(of)
    ensures Count(name, Letter(of)) == if name == of then 1 else 0
  {
    NamesDiffer();
    CountZero(name, Letter(of));
    if name == of {
      assert "realm" == "real" + ['m'] + "" && "service" == "ser" + ['v'] + "ice" && "scope" == "sco" + ['p'] + "e";
      CountOne("real", 'm', "");
      CountOne("ser", 'v', "ice");
      CountOne("sco", 'p', "e");
    }
  }

  lemma CountSlice(s: string, i: nat, j: nat, c: char)
    requires i <= j <= |s|
    ensures Count(s[..i], c) + Count(s[i..j], c) <= Count(s, c)
  {
    assert s == s[..i] + (s[i..j] + s[j..]);
    CountConcat(s[..i], s[i..j] + s[j..], c);
    CountConcat(s[i..j], s[j..], c);
  }

  /** Trimming takes nothing out of the middle. */
  lemma {:induction false} TrimLeftCount(s: string, c: char)
    ensures Count(TrimLeft(s), c) <= Count(s, c)
  {
    if s != "" && IsWhite(s[0]) { TrimLeftCount(s[1..], c); }
  }

  lemma TrimSpaceCount(s: string, c: char)
    ensures Count(TrimSpace(s), c) <= Count(s, c)
  {
    var t := TrimLeft(s);
    TrimLeftCount(s, c);
    TrimRightSpec(t);
    CountSlice(t, 0, |TrimRight(t)|, c);
    assert t[0..|TrimRight(t)|] == TrimRight(t);
  }

  lemma {:induction false} TrimQuotesLeftCount(s: string, c: char)
    ensures Count(TrimQuotesLeft(s), c) <= Count(s, c)
  {
    if s != "" && s[0] == '"' { TrimQuotesLeftCount(s[1..], c); }
  }

  lemma TrimQuotesCount(s: string, c: char)
    ensures Count(TrimQuotes(s), c) <= Count(s, c)
  {
    var t := TrimQuotesLeft(s);
    TrimQuotesLeftCount(s, c);
    TrimQuotesRightSpec(t);
    CountSlice(t, 0, |TrimQuotesRight(t)|, c);
    assert t[0..|TrimQuotesRight(t)|] == TrimQuotesRight(t);
  }

  /** The key and the value that a part gives hold no more of a character than the part does. */
  lemma PartCount(part: string, i: nat, x: char)
    requires i == Index(part, '=') < |part|
    ensures Count(TrimSpace(part[..i]), x) + Count(TrimQuotes(TrimSpace(part[i + 1..])), x) <= Count(part, x)
  {
    var v := part[i + 1..];
    CountSlice(part, i + 1, |part|, x);
    assert part[i + 1..|part|] == v && part[..i + 1][0..i] == part[..i];
    CountSlice(part[..i + 1], 0, i, x);
    TrimSpaceCount(part[..i], x);
    TrimSpaceCount(v, x);
    TrimQuotesCount(TrimSpace(v), x);
  }

  lemma AssignWeight(c: Challenge, key: string, value: string, x: char)
    ensures Weight(Assign(c, key, value), x) == Weight(c, x) + if IsName(key) then Count(value, x) - Count(Get(c, key), x) else 0
  {
    NamesDiffer();
  }

  lemma AssignGet(c: Challenge, key: string, value: string, name: string)
    requires IsName(name)
    ensures Get(Assign(c, key, value), name) == if key == name then value else Get(c, name)
  {
    NamesDiffer();
  }

  /** One part, as seen from the letter of `name`: setting that value costs its old text and the letter of the key. */
  lemma ReadPartWeight(c: Challenge, part: string, name: string)
    requires IsName(name)
    ensures var d, x := ReadPart(c, part), Letter(name);
            && Weight(d, x) <= Weight(c, x) + Count(part, x)
            && (Get(d, name) != Get(c, name) ==> Weight(d, x) + Count(Get(c, name), x) + 1 <= Weight(c, x) + Count(part, x))
  {
    var i, x := Index(part, '='), Letter(name);
    if i < |part| {
      var key, value := TrimSpace(part[..i]), TrimQuotes(TrimSpace(part[i + 1..]));
      PartCount(part, i, x);
      AssignWeight(c, key, value, x);
      AssignGet(c, key, value, name);
      LetterCounts(name, name);
    }
  }

  lemma {:induction false} ReadPartsWeight(c: Challenge, parts: seq<string>, name: string)
    requires IsName(name)
    ensures var d, x := ReadParts(c, parts), Letter(name);
            && Weight(d, x) <= Weight(c, x) + CountAll(parts, x)
            && (Get(d, name) != Get(c, name) ==> Weight(d, x) + Count(Get(c, name), x) + 1 <= Weight(c, x) + CountAll(parts, x))
    decreases |parts|
  {
    if parts != [] {
      ReadPartWeight(c, parts[0], name);
      ReadPartsWeight(ReadPart(c, parts[0]), parts[1..], name);
    }
  }

  lemma {:induction false} JoinCount(parts: seq<string>, x: char)
    requires x != ','
    ensures Count(Join(parts, ","), x) == CountAll(parts, x)
  {
    if |parts| > 1 {
      CountConcat(parts[0] + ",", Join(parts[1..], ","), x);
      CountConcat(parts[0], ",", x);
      assert ","[1..] == "";
    }
    if parts != [] { JoinCount(parts[1..], x); }
  }

  lemma {:induction false} EscapedCount(v: string, x: char)
    requires x != '\\'
    ensures Count(Escaped(v), x) == Count(v, x)
  {
    if v != "" {
      var e := if v[0] == '"' || v[0] == '\\' then ['\\', v[0]] else [v[0]];
      EscapedCount(v[1..], x);
      CountConcat(e, Escaped(v[1..]), x);
      assert e[1..] == if |e| == 2 then [v[0]] else "";
    }
  }

  lemma FieldCount(f: Field, name: string)
    requires IsName(f.name) && IsName(name)
    ensures var x := Letter(name); Count(f.Text(), x) == (if f.name == name then 1 else 0) + Count(f.value, x)
  {
    var x := Letter(name);
    LetterCounts(f.name, name);
    EscapedCount(f.value, x);
    CountZero("=", x);
    CountZero("\"", x);
    CountConcat(f.name + "=", "\"" + f.Body(), x);
    CountConcat(f.name, "=", x);
    CountConcat("\"", f.Body(), x);
    CountConcat(Escaped(f.value), "\"", x);
  }

  /** The printed fields hold the letters of their values, and that of their own name once. */
  lemma {:induction false} FieldsCount(fields: seq<Field>, name: string)
    requires (forall k :: 0 <= k < |fields| ==> IsName(fields[k].name)) && IsName(name)
    ensures CountAll(FieldTexts(fields), Letter(name)) == Named(fields, name) + ValueCount(fields, Letter(name))
  {
    if fields != [] {
      FieldCount(fields[0], name);
      FieldsCount(fields[1..], name);
      assert FieldTexts(fields)[1..] == FieldTexts(fields[1..]);
    }
  }

  function Named(fields: seq<Field>, name: string): nat {
    if fields == [] then 0 else (if fields[0].name == name then 1 else 0) + Named(fields[1..], name)
  }

  function ValueCount(fields: seq<Field>, x: char): nat {
    if fields == [] then 0 else Count(fields[0].value, x) + ValueCount(fields[1..], x)
  }

  lemma {:induction false} NamedNone(fields: seq<Field>, name: string)
    requires forall k :: 0 <= k < |fields| ==> fields[k].name != name
    ensures Named(fields, name) == 0
  {
    if fields != [] { NamedNone(fields[1..], name); }
  }

  /** None of the fields has been set yet. */
  ghost predicate Unset(fields: seq<Field>, c: Challenge) {
    forall k :: 0 <= k < |fields| ==> Get(c, fields[k].name) == ""
  }

  lemma UnsetNext(fields: seq<Field>, c: Challenge)
    requires AreFields(fields) && Unset(fields, c) && fields != []
    ensures AreFields(fields[1..]) && Unset(fields[1..], Assign(c, fields[0].name, fields[0].value))
  {
    var d, rest := Assign(c, fields[0].name, fields[0].value), fields[1..];
    forall k | 0 <= k < |rest| ensures IsName(rest[k].name) && Get(d, rest[k].name) == "" {
      assert rest[k] == fields[k + 1];
      AssignGet(c, fields[0].name, fields[0].value, rest[k].name);
    }
  }

  lemma {:induction false} MeantWeight(fields: seq<Field>, c: Challenge, x: char)
    requires AreFields(fields) && Unset(fields, c)
    ensures Weight(Meant(fields, c), x) == Weight(c, x) + ValueCount(fields, x)
    decreases |fields|
  {
    if fields != [] {
      UnsetNext(fields, c);
      MeantWeight(fields[1..], Assign(c, fields[0].name, fields[0].value), x);
      AssignWeight(c, fields[0].name, fields[0].value, x);
      assert IsName(fields[0].name) && Get(c, fields[0].name) == "";
    }
  }

  lemma {:induction false} MeantKeeps(fields: seq<Field>, c: Challenge, name: string)
    requires IsName(name) && forall k :: 0 <= k < |fields| ==> fields[k].name != name
    ensures Get(Meant(fields, c), name) == Get(c, name)
    decreases |fields|
  {
    if fields != [] {
      AssignGet(c, fields[0].name, fields[0].value, name);
      MeantKeeps(fields[1..], Assign(c, fields[0].name, fields[0].value), name);
    }
  }

  // ----- the whole challenge -----

  /** The first part of a split goes up to the end or to a comma. */
  lemma FirstPart(head: string, t: string) returns (y: string)
    requires ',' !in head && head != "" && t != ""
    ensures var parts := Split(head + t, "", false); parts != [] && parts[0] == head + y
    ensures y <= t && (|y| < |t| ==> t[|y|] == ',')
  {
    var text := head + t;
    var parts := Split(text, "", false);
    SplitRestores(text);
    assert parts == [parts[0]] + parts[1..];
    JoinCons(parts[0], parts[1..], ",");
    assert parts[0] <= text && (|parts[0]| < |text| ==> text[|parts[0]|] == ',');
    assert forall k :: 0 <= k < |head| ==> text[k] == head[k] && head[k] in head;
    assert |head| <= |parts[0]|;
    y := parts[0][|head|..];
    assert parts[0] == head + y && text[|head|..] == t;
  }

  lemma NameText(name: string)
    requires IsName(name)
    ensures IsToken(name) && '=' !in name && ',' !in name && '"' !in name && TrimSpace(name) == name
  {
    TrimNothing(name);
  }

  lemma ReadStart(c: Challenge, name: string, y: string)
    requires IsName(name)
    ensures ReadPart(c, name + "=" + "\"" + y) == Assign(c, name, TrimQuotes(TrimSpace("\"" + y)))
  {
    NameText(name);
    IndexAfter(name, "\"" + y, '=');
    Regroup(name + "=", "\"", y);
  }

  lemma BareParam(p: Param, name: string, value: string)
    requires p == Param("", name, "", "", value, true, "")
    ensures p.Text() == name + "=" + ("\"" + value + "\"")
  {
    assert "" + name + "" == name;
    assert "" + ("\"" + value + "\"") + "" == "\"" + value + "\"";
  }

  lemma PlainField(f: Field, c: Challenge)
    requires IsName(f.name) && IsPlainText(f.value)
    ensures IsPart(f.Text()) && ReadPart(c, f.Text()) == Assign(c, f.name, f.value)
  {
    var p := Param("", f.name, "", "", f.value, true, "");
    NameText(f.name);
    EscapedPlain(f.value);
    ParamIsPart(p);
    ReadParam(c, p);
    BareParam(p, f.name, f.value);
    Regroup("\"", f.value, "\"");
  }

  lemma FieldsText(fields: seq<Field>) returns (tail: string)
    requires fields != []
    ensures Join(FieldTexts(fields), ",") == fields[0].name + "=" + "\"" + (fields[0].Body() + tail)
  {
    var f, rest := fields[0], FieldTexts(fields[1..]);
    tail := if rest == [] then "" else "," + Join(rest, ",");
    JoinCons(f.Text(), rest, ",");
    Regroup(f.name + "=", "\"", f.Body());
    Regroup(f.name + "=" + "\"", f.Body(), tail);
    Regroup(f.Text(), ",", Join(rest, ","));
    assert f.Text() + "" == f.Text();
  }

  /** What the parts behind the first can still hold of the letter of the first field's name. */
  lemma RestCount(fields: seq<Field>, parts: seq<string>, y: string)
    requires AreFields(fields) && fields != []
    requires parts == Split(Join(FieldTexts(fields), ","), "", false)
    requires parts != [] && parts[0] == fields[0].name + "=" + "\"" + y
    ensures CountAll(parts[1..], Letter(fields[0].name)) <= ValueCount(fields, Letter(fields[0].name))
  {
    var name := fields[0].name;
    var x, text := Letter(name), Join(FieldTexts(fields), ",");
    SplitRestores(text);
    JoinCount(FieldTexts(fields), x);
    JoinCount(parts, x);
    FieldsCount(fields, name);
    NamedNone(fields[1..], name);
    CountZero(Closing(text, false), x);
    CountConcat(Join(parts, ","), Closing(text, false), x);
    LetterCounts(name, name);
    Regroup(name, "=", "\"");
    Regroup(name, "=" + "\"", y);
    CountConcat(name, "=" + "\"" + y, x);
  }

  /** No later part can make up for a first part that set the wrong value. */
  lemma StaysLost(fields: seq<Field>, c: Challenge, name: string, z: string, rest: seq<string>)
    requires AreFields(fields) && Unset(fields, c) && fields != [] && name == fields[0].name && z != fields[0].value
    requires CountAll(rest, Letter(name)) <= ValueCount(fields, Letter(name))
    ensures ReadParts(Assign(c, name, z), rest) != Meant(fields, c)
  {
    var v, x := fields[0].value, Letter(name);
    AssignGet(c, name, z, name);
    AssignWeight(c, name, z, x);
    ReadPartsWeight(Assign(c, name, z), rest, name);
    MeantWeight(fields, c, x);
    MeantKeeps(fields[1..], Assign(c, name, v), name);
    AssignGet(c, name, v, name);
  }

  /** A first field that needs escaping is lost: its own part gives another value, and no later part can give it. */
  lemma FirstLost(fields: seq<Field>, c: Challenge)
    requires AreFields(fields) && Unset(fields, c) && fields != [] && !IsPlainText(fields[0].value)
    ensures ReadParts(c, Split(Join(FieldTexts(fields), ","), "", false)) != Meant(fields, c)
  {
    var f, head := fields[0], fields[0].name + "=" + "\"";
    var tail := FieldsText(fields);
    var parts := Split(Join(FieldTexts(fields), ","), "", false);
    NameText(f.name);
    var y := FirstPart(head, f.Body() + tail);
    Regroup(Escaped(f.value), "\"", tail);
    ValueDiffers(f.value, y, f.Body() + tail, "\"" + tail);
    ReadStart(c, f.name, y);
    RestCount(fields, parts, y);
    StaysLost(fields, c, f.name, TrimQuotes(TrimSpace("\"" + y)), parts[1..]);
  }

  lemma {:induction false} FieldsRead(fields: seq<Field>, c: Challenge)
    requires AreFields(fields) && Unset(fields, c)
    ensures ReadParts(c, Split(Join(FieldTexts(fields), ","), "", false)) == Meant(fields, c) <==> AllPlain(fields)
    decreases |fields|
  {
    if fields == [] {
    } else if IsPlainText(fields[0].value) {
      var f, rest := fields[0], fields[1..];
      PlainField(f, c);
      SplitFirst(f.Text(), FieldTexts(rest));
      UnsetNext(fields, c);
      FieldsRead(rest, Assign(c, f.name, f.value));
      assert AllPlain(fields) <==> AllPlain(rest) by { assert forall k :: 1 <= k < |fields| ==> fields[k] == rest[k - 1]; }
    } else {
      FirstLost(fields, c);
    }
  }

  /**
    The parser does not undo quoted pairs: a challenge with any of realm, service and scope, in any order,
    printed by the standard, is accepted and read as what it says if and only if no value needed quoted
    pairs and there is a realm.
   */
  lemma FieldsRecoveredIff(fields: seq<Field>)
    requires AreFields(fields)
    ensures Header(fields) == "Bearer " + Join(FieldTexts(fields), ",")
    ensures Read(Header(fields)) == (Meant(fields, EMPTY), true) <==> AllPlain(fields) && Meant(fields, EMPTY).realm != ""
  {
    var list := Join(FieldTexts(fields), ",");
    assert (BEARER + list)[|BEARER|..] == list;
    FieldsRead(fields, EMPTY);
  }
}
