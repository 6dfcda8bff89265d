/**
  SSH endpoints (internal/sshexec): parsing "[user@]host[:port]" and rendering an ssh:// URL,
  with a reader for the URL's authority by section 3.2 of RFC 3986 as the other side.
 */
module SshExec {
  import opened UriHost
  import opened Util

  datatype Endpoint = Endpoint(user: string, host: string, port: string)

  datatype Error =
    | EmptyHost | InvalidCharacters | EmptyUser | UnterminatedLiteral | TextAfterLiteral
    | PortNotANumber | PortOutOfRange | HostIsOption | UserIsOption | BadHost | BadUser

  datatype Result<+T> = Ok(value: T) | Err(error: Error)

  // ----- the parser -----

  /** The position of the last `c`, if there is one. */
  function LastIndex(s: string, c: char): (i: Option<nat>)
    ensures i.Some? ==> i.value < |s| && s[i.value] == c && forall k :: i.value < k < |s| ==> s[k] != c
    ensures i.None? ==> c !in s
    decreases |s|
  {
    if s == "" then None
    else if s[|s| - 1] == c then Some(|s| - 1)
    else LastIndex(s[..|s| - 1], c)
  }

  predicate IsHostChar(c: char) { IsAlnum(c) || c in {'.', '_', ':', '%', '-'} }

  predicate IsUserChar(c: char) { IsAlnum(c) || c in {'.', '_', '-'} }

  predicate IsHost(s: string) { s != "" && forall i :: 0 <= i < |s| ==> IsHostChar(s[i]) }

  predicate IsUser(s: string) { s != "" && forall i :: 0 <= i < |s| ==> IsUserChar(s[i]) }

  predicate AllDigits(s: string) { forall i :: 0 <= i < |s| ==> IsDigit(s[i]) }

  function DigitsValue(s: string): nat
    requires AllDigits(s)
  {
    if s == "" then 0
    else DigitsValue(s[..|s| - 1]) * 10 + (s[|s| - 1] as int - '0' as int)
  }

  /** strconv.Atoi without its 64-bit limit, which lies outside the port range anyway. */
  function Atoi(s: string): Option<int> {
    if s == "" then None
    else
      var signed := s[0] == '+' || s[0] == '-';
      var digits := if signed then s[1..] else s;
      if digits == "" || !AllDigits(digits) then None
      else
        var n: int := DigitsValue(digits);
        Some(if s[0] == '-' then -n else n)
  }

  function ValidatePort(p: string): Result<string> {
    match Atoi(p)
    case None => Err(PortNotANumber)
    case Some(n) => if n < 1 || n > 65535 then Err(PortOutOfRange) else Ok(p)
  }

  function WithPort(host: string, port: string): Result<(string, string)> {
    match ValidatePort(port)
    case Err(e) => Err(e)
    case Ok(p) => Ok((host, p))
  }

  function SplitHostPort(s: string): Result<(string, string)> {
    if s != "" && s[0] == '[' then
      var end := Index(s, ']');
      if end == |s| then Err(UnterminatedLiteral)
      else
        var host, rest := s[1..end], s[end + 1..];
        if rest == "" then Ok((host, ""))
        else if rest[0] == ':' then WithPort(host, rest[1..])
        else Err(TextAfterLiteral)
    else if Count(s, ':') == 1 then
      var i := Index(s, ':');
      if i < |s| then WithPort(s[..i], s[i + 1..]) else Ok((s, ""))
    else Ok((s, ""))
  }

  predicate HasForbidden(s: string) {
    exists i :: 0 <= i < |s| && s[i] in {' ', '\t', '\n', '\r', '/', '\0'}
  }

  function ParseEndpoint(raw: string): Result<Endpoint> {
    var s := TrimSpace(raw);
    if s == "" then Err(EmptyHost)
    else if HasForbidden(s) then Err(InvalidCharacters)
    else
      var at := LastIndex(s, '@');
      var user := if at.Some? then s[..at.value] else "";
      if at.Some? && user == "" then Err(EmptyUser)
      else CheckParts(user, SplitHostPort(if at.Some? then s[at.value + 1..] else s))
  }

  function CheckParts(user: string, hostPort: Result<(string, string)>): Result<Endpoint> {
    match hostPort
    case Err(e) => Err(e)
    case Ok((host, port)) =>
      if host == "" then Err(EmptyHost)
      else if host[0] == '-' then Err(HostIsOption)
      else if user != "" && user[0] == '-' then Err(UserIsOption)
      else if !IsHost(host) then Err(BadHost)
      else if user != "" && !IsUser(user) then Err(BadUser)
      else Ok(Endpoint(user, host, port))
  }

  /** What an ssh_host setting must be before any command is sent to it. */
  predicate CheckHost(host: string) { host != "" && ParseEndpoint(host).Ok? }

  // ----- the renderers -----

  function Bracketed(host: string): string {
    if ':' in host then "[" + host + "]" else host
  }

  function HostPort(e: Endpoint): string {
    Bracketed(e.host) + (if e.port != "" then ":" + e.port else "")
  }

  function AtHost(user: string, rest: string): string {
    if user != "" then user + "@" + rest else rest
  }

  function Authority(e: Endpoint): string { AtHost(e.user, HostPort(e)) }

  function TrimSlash(path: string): string {
    if path != "" && path[0] == '/' then path[1..] else path
  }

  function GitURL(e: Endpoint, path: string): string {
    "ssh://" + Authority(e) + "/" + TrimSlash(path)
  }

  function Destination(e: Endpoint): string {
    AtHost(e.user, e.host)
  }

  // ----- what the parser can return -----

  /** The endpoints of the parser's range. */
  predicate IsEndpoint(e: Endpoint) {
    && IsHost(e.host) && e.host[0] != '-'
    && (e.user != "" ==> IsUser(e.user) && e.user[0] != '-')
    && (e.port != "" ==> IsPort(e.port))
  }

  lemma SplitPortIsValid(s: string)
    ensures var r := SplitHostPort(s); r.Ok? && r.value.1 != "" ==> ValidatePort(r.value.1).Ok?
  {
  }

  lemma CheckedIsEndpoint(user: string, r: Result<(string, string)>)
    requires r.Ok? && r.value.1 != "" ==> ValidatePort(r.value.1).Ok?
    ensures CheckParts(user, r).Ok? ==> IsEndpoint(CheckParts(user, r).value)
  {
  }

  lemma AtSplits(s: string, i: nat)
    requires i < |s| && s[i] == '@'
    ensures s == s[..i] + "@" + s[i + 1..]
  {
  }

  /** The login name and the rest of an endpoint's text. */
  lemma ParsedParts(raw: string) returns (user: string, rest: string)
    ensures ParseEndpoint(raw).Ok? ==>
              && ParseEndpoint(raw) == CheckParts(user, SplitHostPort(rest))
              && TrimSpace(raw) == (if user == "" then "" else user + "@") + rest
  {
    var s := TrimSpace(raw);
    var at := LastIndex(s, '@');
    if at.Some? {
      user, rest := s[..at.value], s[at.value + 1..];
      AtSplits(s, at.value);
    } else {
      user, rest := "", s;
      assert "" + s == s;
    }
  }

  /** Every accepted endpoint is well formed: nothing in it reads as an option, a path or a space. */
  lemma ParseIsEndpoint(raw: string)
    ensures ParseEndpoint(raw).Ok? ==> IsEndpoint(ParseEndpoint(raw).value)
  {
    var user, rest := ParsedParts(raw);
    SplitPortIsValid(rest);
    CheckedIsEndpoint(user, SplitHostPort(rest));
  }

  /** The number that a text of digits stands for is read off as it is printed. */
  lemma {:induction false} DecimalDigits(n: nat)
    ensures AllDigits(Decimal(n)) && DigitsValue(Decimal(n)) == n
  {
    var s := Decimal(n);
    if n < 10 {
      assert s[..|s| - 1] == "";
    } else {
      DecimalDigits(n / 10);
      assert s[..|s| - 1] == Decimal(n / 10);
    }
  }

  lemma AtoiReads(n: int)
    ensures Atoi(Decimal(n)) == Some(n)
  {
    if n < 0 {
      DecimalDigits(-n);
      assert Decimal(n)[1..] == Decimal(-n);
    } else {
      DecimalDigits(n);
      assert IsDigit(Decimal(n)[0]);
    }
  }

  /** A port is a number from 1 to 65535 in decimal digits, leading zeros allowed, with or without a plus sign. */
  predicate IsPort(p: string) {
    var digits := if p != "" && p[0] == '+' then p[1..] else p;
    digits != "" && AllDigits(digits) && 1 <= DigitsValue(digits) <= 65535
  }

  lemma PortIff(p: string)
    ensures ValidatePort(p).Ok? <==> IsPort(p)
    ensures IsPort(p) ==> ValidatePort(p) == Ok(p)
  {
  }

  /** Of the numbers as they are printed, exactly those from 1 to 65535 are ports. */
  lemma PortRange(n: int)
    ensures ValidatePort(Decimal(n)) == if 1 <= n <= 65535 then Ok(Decimal(n)) else Err(PortOutOfRange)
  {
    AtoiReads(n);
  }

  /** The characters of a port the parser accepted. */
  lemma PortChars(p: string)
    requires ValidatePort(p).Ok?
    ensures p != "" && forall i :: 0 <= i < |p| ==> IsDigit(p[i]) || (i == 0 && p[i] == '+')
    ensures ValidatePort(p).value == p
  {
    if p[0] == '+' || p[0] == '-' {
      assert forall i :: 1 <= i < |p| ==> p[i] == p[1..][i - 1];
    }
  }

  /** Text that cannot be mistaken for anything else inside an authority. */
  predicate IsAuthorityChar(c: char) { IsHostChar(c) || c in {'@', '[', ']', '+'} }

  predicate IsAuthorityText(s: string) { forall i :: 0 <= i < |s| ==> IsAuthorityChar(s[i]) }

  lemma HostPortChars(e: Endpoint)
    requires IsEndpoint(e)
    ensures HostPort(e) != "" && IsAuthorityText(HostPort(e)) && '@' !in HostPort(e)
  {
    if e.port != "" { PortChars(e.port); }
  }

  lemma AtHostChars(user: string, rest: string)
    requires (user != "" ==> IsUser(user)) && rest != "" && IsAuthorityText(rest)
    ensures AtHost(user, rest) != "" && IsAuthorityText(AtHost(user, rest))
  {
  }

  lemma AuthorityChars(e: Endpoint)
    requires IsEndpoint(e)
    ensures Authority(e) != "" && IsAuthorityText(Authority(e))
  {
    HostPortChars(e);
    AtHostChars(e.user, HostPort(e));
  }

  lemma CharsClean(s: string)
    requires s != "" && IsAuthorityText(s)
    ensures TrimSpace(s) == s && !HasForbidden(s)
  {
    assert IsAuthorityChar(s[0]) && IsAuthorityChar(s[|s| - 1]);
    TrimNothing(s);
  }

  lemma {:induction false} LastIndexAt(user: string, rest: string, c: char)
    requires c !in rest
    ensures LastIndex(user + [c] + rest, c) == Some(|user|)
    decreases |rest|
  {
    var s := user + [c] + rest;
    if rest == "" {
      assert s == user + [c];
    } else {
      assert s[|s| - 1] == rest[|rest| - 1] && rest[|rest| - 1] in rest;
      assert s[..|s| - 1] == user + [c] + rest[..|rest| - 1];
      LastIndexAt(user, rest[..|rest| - 1], c);
    }
  }

  /** A login name in front of clean text is split off again. */
  lemma ParseAtHost(user: string, rest: string)
    requires (user != "" ==> IsUser(user)) && rest != "" && IsAuthorityText(rest) && '@' !in rest
    ensures ParseEndpoint(AtHost(user, rest)) == CheckParts(user, SplitHostPort(rest))
  {
    var s := AtHost(user, rest);
    AtHostChars(user, rest);
    CharsClean(s);
    if user != "" {
      LastIndexAt(user, rest, '@');
      assert s == user + ['@'] + rest;
      assert s[..|user|] == user && s[|user| + 1..] == rest;
    } else {
      assert LastIndex(s, '@').None?;
    }
  }

  /** Host and port come back from the rendered text, brackets included. */
  lemma SplitHostPortBack(e: Endpoint)
    requires IsEndpoint(e)
    ensures SplitHostPort(HostPort(e)) == Ok((e.host, e.port))
  {
    if e.port != "" { PortChars(e.port); }
    if ':' in e.host {
      SplitBracketed(e.host, e.port);
    } else {
      SplitPlain(e.host, e.port);
    }
  }

  lemma BracketIndex(host: string, tail: string)
    requires IsHost(host)
    ensures var s := "[" + host + "]" + tail; Index(s, ']') == |host| + 1
  {
    var s := "[" + host + "]" + tail;
    assert forall k :: 1 <= k <= |host| ==> s[k] == host[k - 1];
    assert s[|host| + 1] == ']';
  }

  lemma SplitBracketed(host: string, port: string)
    requires IsHost(host) && (port != "" ==> ValidatePort(port) == Ok(port))
    ensures SplitHostPort("[" + host + "]" + (if port != "" then ":" + port else "")) == Ok((host, port))
  {
    var tail := if port != "" then ":" + port else "";
    var s := "[" + host + "]" + tail;
    BracketIndex(host, tail);
    assert s[0] == '[' && s[1..|host| + 1] == host && s[|host| + 2..] == tail;
    if port == "" {
      assert SplitHostPort(s) == Ok((host, ""));
    } else {
      assert tail[0] == ':' && tail[1..] == port;
      assert SplitHostPort(s) == WithPort(host, port);
    }
  }

  lemma SplitPlain(host: string, port: string)
    requires IsHost(host) && ':' !in host && ':' !in port && (port != "" ==> ValidatePort(port) == Ok(port))
    ensures SplitHostPort(host + (if port != "" then ":" + port else "")) == Ok((host, port))
  {
    var s := host + (if port != "" then ":" + port else "");
    assert s[0] == host[0] != '[';
    CountZero(host, ':');
    if port == "" {
      assert s == host;
    } else {
      CountZero(port, ':');
      CountConcat(host, ":" + port, ':');
      CountConcat(":", port, ':');
      assert s[|host|] == ':';
      assert forall k :: 0 <= k < |host| ==> s[k] == host[k];
      assert Index(s, ':') == |host|;
      assert s[..|host|] == host && s[|host| + 1..] == port;
    }
  }

  /**
    Round trip: the authority of a rendered URL parses back to the same user, host and port, IPv6
    brackets and the port's exact spelling included. With ParseIsEndpoint, IsEndpoint is exactly the
    range of the parser.
   */
  lemma AuthorityRoundTrip(e: Endpoint)
    requires IsEndpoint(e)
    ensures Authority(e)
            == (if e.user == "" then "" else e.user + "@")
               + ((if ':' in e.host then "[" + e.host + "]" else e.host) + if e.port == "" then "" else ":" + e.port)
    ensures ParseEndpoint(Authority(e)) == Ok(e)
  {
    assert "" + HostPort(e) == HostPort(e);
    HostPortChars(e);
    SplitHostPortBack(e);
    ParseAtHost(e.user, HostPort(e));
  }

  /** Parsing is a projection: re-parsing what a parsed endpoint renders changes nothing. */
  lemma ParseIdempotent(raw: string)
    requires ParseEndpoint(raw).Ok?
    ensures ParseEndpoint(Authority(ParseEndpoint(raw).value)) == ParseEndpoint(raw)
  {
    ParseIsEndpoint(raw);
    AuthorityRoundTrip(ParseEndpoint(raw).value);
  }

  // ----- every spelling -----

  function PortText(port: string): string { if port == "" then "" else ":" + port }

  /** Host and port as they may be written: bare, a bare IPv6 address only without a port, or in brackets. */
  predicate SpellsHost(text: string, host: string, port: string) {
    || (':' !in host && text == host + PortText(port))
    || (Count(host, ':') >= 2 && port == "" && text == host)
    || InBrackets(text, host, port)
  }

  predicate InBrackets(text: string, host: string, port: string) { text == "[" + host + "]" + PortText(port) }

  ghost predicate Spells(text: string, e: Endpoint) {
    exists hostPort :: SpellsHost(hostPort, e.host, e.port) && text == (if e.user == "" then "" else e.user + "@") + hostPort
  }

  lemma BracketsSpell(s: string, host: string, port: string, end: nat)
    requires 0 < end < |s| && s[0] == '[' && s[end] == ']' && host == s[1..end] && PortText(port) == s[end + 1..]
    ensures InBrackets(s, host, port)
  {
  }

  lemma PortSpells(rest: string)
    requires rest != "" && rest[0] == ':' && ValidatePort(rest[1..]).Ok?
    ensures rest[1..] != "" && rest == PortText(rest[1..])
  {
    PortChars(rest[1..]);
  }

  lemma BracketedSpells(s: string, end: nat, host: string, rest: string)
    requires s != "" && s[0] == '[' && end == Index(s, ']') < |s| && host == s[1..end] && rest == s[end + 1..]
    requires SplitHostPort(s).Ok?
    ensures SplitHostPort(s).value.0 == host && InBrackets(s, host, SplitHostPort(s).value.1)
  {
    if rest != "" { PortSpells(rest); }
    BracketsSpell(s, host, SplitHostPort(s).value.1, end);
  }

  lemma ColonSpells(s: string, i: nat)
    requires s != "" && s[0] != '[' && Count(s, ':') == 1 && i == Index(s, ':') && SplitHostPort(s).Ok?
    ensures SpellsHost(s, SplitHostPort(s).value.0, SplitHostPort(s).value.1)
  {
    CountZero(s, ':');
    var host, rest := s[..i], s[i..];
    assert ':' !in host && s == host + rest && rest[1..] == s[i + 1..];
    PortSpells(rest);
  }

  /** What the split returns is what was written. */
  lemma SplitSpells(s: string)
    requires SplitHostPort(s).Ok?
    ensures SpellsHost(s, SplitHostPort(s).value.0, SplitHostPort(s).value.1)
  {
    if s != "" && s[0] == '[' {
      var end := Index(s, ']');
      BracketedSpells(s, end, s[1..end], s[end + 1..]);
    } else if Count(s, ':') == 1 {
      ColonSpells(s, Index(s, ':'));
    } else {
      CountZero(s, ':');
      assert s + "" == s;
    }
  }

  /** And whatever is written so splits that way. */
  lemma SpelledSplits(s: string, host: string, port: string)
    requires SpellsHost(s, host, port) && IsHost(host) && (port != "" ==> IsPort(port))
    ensures SplitHostPort(s) == Ok((host, port)) && s != "" && IsAuthorityText(s) && '@' !in s
  {
    if port != "" {
      PortIff(port);
      PortChars(port);
    }
    SpelledChars(s, host, port);
    if s == "[" + host + "]" + PortText(port) {
      SplitBracketed(host, port);
    } else if ':' !in host {
      SplitPlain(host, port);
    } else {
      assert s[0] == host[0] && IsHostChar(host[0]);
    }
  }

  lemma SpelledChars(s: string, host: string, port: string)
    requires SpellsHost(s, host, port) && IsHost(host)
    requires forall i :: 0 <= i < |port| ==> IsDigit(port[i]) || port[i] == '+'
    ensures s != "" && IsAuthorityText(s) && '@' !in s
  {
    assert IsAuthorityText(PortText(port)) && '@' !in PortText(port);
  }

  lemma TrimmedTwice(raw: string)
    ensures TrimSpace(TrimSpace(raw)) == TrimSpace(raw)
  {
    var a, b := TrimSpaceIs(raw);
    if TrimSpace(raw) != "" { TrimNothing(TrimSpace(raw)); }
  }

  lemma CheckedIs(user: string, host: string, port: string)
    requires port != "" ==> IsPort(port)
    ensures CheckParts(user, Ok((host, port))) == Ok(Endpoint(user, host, port)) <==> IsEndpoint(Endpoint(user, host, port))
  {
  }

  /**
    The parser by its inputs: it accepts a text, white space around it aside, as an endpoint if and only if the
    endpoint is well formed and the text is one of its spellings.
   */
  lemma ParseIff(raw: string, e: Endpoint)
    ensures ParseEndpoint(raw) == Ok(e) <==> IsEndpoint(e) && Spells(TrimSpace(raw), e)
  {
    if ParseEndpoint(raw) == Ok(e) {
      ParsedSpells(raw, e);
    }
    if IsEndpoint(e) && Spells(TrimSpace(raw), e) {
      var hostPort :| SpellsHost(hostPort, e.host, e.port)
                      && TrimSpace(raw) == (if e.user == "" then "" else e.user + "@") + hostPort;
      SpelledParses(raw, e, hostPort);
    }
  }

  /** The alphabets of hosts and users, character by character. */
  lemma Alphabets(c: char)
    ensures IsHostChar(c) <==>
            || c in "0123456789" || c in "ABCDEFGHIJKLMNOPQRSTUVWXYZ" || c in "abcdefghijklmnopqrstuvwxyz"
            || c in "._:%-"
    ensures IsUserChar(c) <==> IsHostChar(c) && c !in ":%"
  {
    CharClasses(c);
  }

  lemma ForbiddenIs(s: string)
    ensures HasForbidden(s) <==> exists i :: 0 <= i < |s| && s[i] in " \t\n\r/\0"
  {
    assert forall i :: 0 <= i < |s| ==> (s[i] in {' ', '\t', '\n', '\r', '/', '\0'} <==> s[i] in " \t\n\r/\0");
  }

  lemma PartsErrors(user: string, hostPort: string)
    ensures CheckParts(user, SplitHostPort(hostPort)) != Err(InvalidCharacters)
    ensures CheckParts(user, SplitHostPort(hostPort)) != Err(EmptyUser)
  {
    assert SplitHostPort(hostPort) != Err(InvalidCharacters) && SplitHostPort(hostPort) != Err(EmptyUser);
  }

  lemma EmptyUserAt(s: string)
    ensures LastIndex(s, '@') == Some(0) <==> s != "" && s[0] == '@' && '@' !in s[1..]
  {
    assert forall i :: 1 <= i < |s| ==> s[i] == s[1..][i - 1];
  }

  lemma FirstErrors(raw: string, s: string)
    requires s == TrimSpace(raw)
    ensures ParseEndpoint(raw) == Err(InvalidCharacters) <==> HasForbidden(s)
    ensures ParseEndpoint(raw) == Err(EmptyUser) <==> !HasForbidden(s) && LastIndex(s, '@') == Some(0)
  {
    var at := LastIndex(s, '@');
    if at.None? {
      PartsErrors("", s);
    } else {
      PartsErrors(s[..at.value], s[at.value + 1..]);
    }
  }

  /** Which texts are refused before they are split: for their characters, or for an empty user. */
  lemma RefusedFirst(raw: string, s: string)
    requires s == TrimSpace(raw)
    ensures ParseEndpoint(raw) == Err(InvalidCharacters) <==> exists i :: 0 <= i < |s| && s[i] in " \t\n\r/\0"
    ensures ParseEndpoint(raw) == Err(EmptyUser) <==>
            (forall i :: 0 <= i < |s| ==> s[i] !in " \t\n\r/\0") && s != "" && s[0] == '@' && '@' !in s[1..]
  {
    FirstErrors(raw, s);
    ForbiddenIs(s);
    EmptyUserAt(s);
  }

  lemma ParseTrimmed(raw: string)
    ensures ParseEndpoint(raw) == ParseEndpoint(TrimSpace(raw))
  {
    TrimmedTwice(raw);
  }

  /** The settings that commands may be sent to are the spellings of endpoints. */
  lemma CheckHostIff(host: string)
    ensures CheckHost(host) <==> exists e :: IsEndpoint(e) && Spells(TrimSpace(host), e)
  {
    if CheckHost(host) { ParseIff(host, ParseEndpoint(host).value); }
    forall e | IsEndpoint(e) && Spells(TrimSpace(host), e) ensures CheckHost(host) { ParseIff(host, e); }
  }

  lemma SpelledParses(raw: string, e: Endpoint, hostPort: string)
    requires IsEndpoint(e) && SpellsHost(hostPort, e.host, e.port)
    requires TrimSpace(raw) == (if e.user == "" then "" else e.user + "@") + hostPort
    ensures ParseEndpoint(raw) == Ok(e)
  {
    assert "" + hostPort == hostPort;
    assert TrimSpace(raw) == AtHost(e.user, hostPort);
    SpelledSplits(hostPort, e.host, e.port);
    ParseAtHost(e.user, hostPort);
    ParseTrimmed(raw);
    CheckedIs(e.user, e.host, e.port);
  }

  lemma CheckedParts(user: string, r: Result<(string, string)>, e: Endpoint)
    requires CheckParts(user, r) == Ok(e)
    ensures r == Ok((e.host, e.port)) && user == e.user
  {
  }

  lemma ParsedSpells(raw: string, e: Endpoint)
    requires ParseEndpoint(raw) == Ok(e)
    ensures IsEndpoint(e) && Spells(TrimSpace(raw), e)
  {
    ParseIsEndpoint(raw);
    var user, rest := ParsedParts(raw);
    CheckedParts(user, SplitHostPort(rest), e);
    SplitSpells(rest);
  }

  // ----- the URL reader -----

  /** An authority ends at the first slash, question mark or number sign (section 3.2). */
  function AuthorityLen(s: string): (n: nat)
    ensures n <= |s|
  {
    if s == "" || s[0] in {'/', '?', '#'} then 0 else 1 + AuthorityLen(s[1..])
  }

  /** userinfo "@" host ":" port, with an IP literal in brackets, a registered name or IPv4 address, a port of digits. */
  function ReadAuthority(s: string): Option<Endpoint> {
    var i := Index(s, '@');
    var user := if i < |s| then s[..i] else "";
    if IsUserInfo(user) then ReadHost(user, if i < |s| then s[i + 1..] else s) else None
  }

  function ReadHost(user: string, rest: string): Option<Endpoint> {
    if rest != "" && rest[0] == '[' then
      var end := Index(rest, ']');
      if end == |rest| || !IsIPLiteral(rest[1..end]) then None else ReadPort(user, rest[1..end], rest[end + 1..])
    else
      var end := Index(rest, ':');
      if !IsRegName(rest[..end]) then None else ReadPort(user, rest[..end], rest[end..])
  }

  function ReadPort(user: string, host: string, tail: string): Option<Endpoint> {
    if tail == "" then Some(Endpoint(user, host, ""))
    else if tail[0] == ':' && AllDigits(tail[1..]) then Some(Endpoint(user, host, tail[1..]))
    else None
  }

  datatype Url = Url(authority: string, path: string)

  function ReadUrl(s: string): Option<Url> {
    if !("ssh://" <= s) then None
    else
      var rest := s[6..];
      var n := AuthorityLen(rest);
      Some(Url(rest[..n], rest[n..]))
  }

  lemma {:induction false} AuthorityLenOf(a: string, rest: string)
    requires forall i :: 0 <= i < |a| ==> IsAuthorityChar(a[i])
    requires rest != "" && rest[0] == '/'
    ensures AuthorityLen(a + rest) == |a|
  {
    if a == "" {
      assert a + rest == rest;
    } else {
      assert (a + rest)[1..] == a[1..] + rest;
      AuthorityLenOf(a[1..], rest);
    }
  }

  lemma ReadSchemeUrl(a: string, rest: string)
    requires AuthorityLen(a + rest) == |a|
    ensures ReadUrl("ssh://" + (a + rest)) == Some(Url(a, rest))
  {
    var t := a + rest;
    assert ("ssh://" + t)[6..] == t;
    assert t[..|a|] == a && t[|a|..] == rest;
  }

  /** The authority and the path are recoverable from the URL, up to one leading slash of the path. */
  lemma UrlSplits(e: Endpoint, path: string)
    requires IsEndpoint(e)
    ensures ReadUrl(GitURL(e, path)) == Some(Url(Authority(e), if path != "" && path[0] == '/' then path else "/" + path))
  {
    assert path != "" ==> path == [path[0]] + path[1..];
    var a, rest := Authority(e), "/" + TrimSlash(path);
    AuthorityChars(e);
    AuthorityLenOf(a, rest);
    ReadSchemeUrl(a, rest);
    Regroup("ssh://", a, rest);
    Regroup("ssh://" + a, "/", TrimSlash(path));
  }

  lemma ReadHostPort(user: string, host: string, port: string)
    requires IsHost(host) && (port != "" ==> ValidatePort(port).Ok?)
    ensures var tail := if port != "" then ":" + port else "";
            ReadPort(user, host, tail)
            == if port == "" || AllDigits(port) then Some(Endpoint(user, host, port)) else None
  {
    if port != "" { assert (":" + port)[1..] == port; }
  }

  /** The renderer's choice of form fits the standard: what it brackets is an IP literal, the rest a name. */
  predicate StandardHost(host: string) { if ':' in host then IsIPLiteral(host) else IsRegName(host) }

  lemma BracketedParts(host: string, tail: string)
    requires IsHost(host)
    ensures var rest := "[" + host + "]" + tail;
            rest[0] == '[' && Index(rest, ']') == |host| + 1 && rest[1..|host| + 1] == host && rest[|host| + 2..] == tail
  {
    BracketIndex(host, tail);
  }

  lemma PlainParts(host: string, tail: string)
    requires IsHost(host) && ':' !in host && (tail == "" || tail[0] == ':')
    ensures var rest := host + tail;
            rest[0] != '[' && Index(rest, ':') == |host| && rest[..|host|] == host && rest[|host|..] == tail
  {
    var rest := host + tail;
    assert forall k :: 0 <= k < |host| ==> rest[k] == host[k] && host[k] in host;
    assert IsHostChar(rest[0]);
    assert tail != "" ==> rest[|host|] == ':';
    assert Index(rest, ':') == |host|;
  }

  lemma ReadBracketed(user: string, host: string, tail: string, rest: string)
    requires IsHost(host) && ':' in host && rest == "[" + host + "]" + tail
    ensures ReadHost(user, rest) == if StandardHost(host) then ReadPort(user, host, tail) else None
  {
    BracketedParts(host, tail);
  }

  lemma ReadPlain(user: string, host: string, tail: string, rest: string)
    requires IsHost(host) && ':' !in host && (tail == "" || tail[0] == ':') && rest == host + tail
    ensures ReadHost(user, rest) == if StandardHost(host) then ReadPort(user, host, tail) else None
  {
    PlainParts(host, tail);
  }

  lemma ReadRest(user: string, e: Endpoint)
    requires IsEndpoint(e)
    ensures ReadHost(user, HostPort(e))
            == if StandardHost(e.host) && (e.port == "" || AllDigits(e.port)) then Some(Endpoint(user, e.host, e.port)) else None
  {
    var tail := if e.port != "" then ":" + e.port else "";
    ReadHostPort(user, e.host, e.port);
    if ':' in e.host { ReadBracketed(user, e.host, tail, HostPort(e)); } else { ReadPlain(user, e.host, tail, HostPort(e)); }
  }

  lemma ReadAtHost(user: string, rest: string)
    requires '@' !in user && '@' !in rest && IsUserInfo(user)
    ensures ReadAuthority(AtHost(user, rest)) == ReadHost(user, rest)
  {
    var s := AtHost(user, rest);
    if user != "" {
      assert forall k :: 0 <= k < |user| ==> s[k] == user[k];
      assert s[|user|] == '@';
      assert Index(s, '@') == |user|;
      assert s[..|user|] == user && s[|user| + 1..] == rest;
    } else {
      assert Index(s, '@') == |s|;
    }
  }

  lemma PlusSign(port: string)
    requires IsPort(port)
    ensures port != "" && (AllDigits(port) <==> port[0] != '+')
  {
  }

  lemma UserIsUserInfo(user: string)
    requires user == "" || IsUser(user)
    ensures IsUserInfo(user)
  {
    PlainIsEncoded(user, UserChar());
  }

  /**
    A reader of the URL standard sees the same user, host and port if the host has the standard's form and
    the port did not keep the plus sign that the integer parser tolerates, and rejects the authority otherwise.
   */
  lemma StandardReaderAgrees(e: Endpoint)
    requires IsEndpoint(e)
    ensures ReadAuthority(Authority(e))
            == if StandardHost(e.host) && (e.port == "" || e.port[0] != '+') then Some(e) else None
  {
    HostPortChars(e);
    UserIsUserInfo(e.user);
    ReadAtHost(e.user, HostPort(e));
    ReadRest(e.user, e);
    if e.port != "" { PlusSign(e.port); }
  }

  /** Accepted hosts without colon and percent sign have the standard's form; those with both never do. */
  lemma StandardHosts(host: string)
    requires IsHost(host)
    ensures ':' !in host && '%' !in host ==> StandardHost(host)
    ensures ':' in host && '%' in host ==> !StandardHost(host)
  {
    if ':' !in host && '%' !in host {
      assert forall k :: 0 <= k < |host| ==> host[k] in host;
      PlainIsEncoded(host, NameChar());
    } else if IsIPLiteral(host) {
      LiteralHasNoPercent(host);
    }
  }

  /** Distinct endpoints or distinct paths (up to one leading slash) never share a URL. */
  lemma UrlInjective(e1: Endpoint, path1: string, e2: Endpoint, path2: string)
    requires IsEndpoint(e1) && IsEndpoint(e2)
    requires GitURL(e1, path1) == GitURL(e2, path2)
    ensures e1 == e2 && TrimSlash(path1) == TrimSlash(path2)
  {
    UrlSplits(e1, path1);
    UrlSplits(e2, path2);
    AuthorityRoundTrip(e1);
    AuthorityRoundTrip(e2);
    assert ("/" + TrimSlash(path1))[1..] == TrimSlash(path1);
    assert ("/" + TrimSlash(path2))[1..] == TrimSlash(path2);
  }

  lemma OneColonSplits(host: string)
    requires Count(host, ':') == 1 && IsHost(host)
    ensures var r := SplitHostPort(host); r.Ok? ==> |r.value.0| < |host|
  {
    CountZero(host, ':');
    assert host[0] != '[';
  }

  lemma NoColonWhole(host: string)
    requires Count(host, ':') != 1 && IsHost(host)
    ensures SplitHostPort(host) == Ok((host, ""))
  {
    assert host[0] != '[';
  }

  /**
    The command-line destination carries no port, and reads back as an endpoint exactly when its host
    does not have a single colon: such a host, legal in brackets, turns into a host and a port.
   */
  lemma DestinationReadsBack(e: Endpoint)
    requires IsEndpoint(e)
    ensures Destination(e) == if e.user == "" then e.host else e.user + "@" + e.host
    ensures ParseEndpoint(Destination(e)) == Ok(e.(port := "")) <==> Count(e.host, ':') != 1
  {
    ParseAtHost(e.user, e.host);
    if Count(e.host, ':') == 1 { OneColonSplits(e.host); } else { NoColonWhole(e.host); }
  }
}
