/** The host of a URI authority, by the grammar of sections 2.3, 3.2.1 and 3.2.2 of RFC 3986. */
module UriHost {
  import opened Splitting
  import opened Util

  predicate IsHex(c: char) { IsDigit(c) || 'a' <= c <= 'f' || 'A' <= c <= 'F' }

  predicate IsUnreserved(c: char) { IsAlnum(c) || c in {'-', '.', '_', '~'} }

  predicate IsSubDelim(c: char) { c in {'!', '$', '&', '\'', '(', ')', '*', '+', ',', ';', '='} }

  /** Characters for which `plain` holds, and percent signs followed by two hexadecimal digits. */
  predicate IsEncoded(s: string, plain: char -> bool)
    decreases |s|
  {
    if s == "" then true
    else if s[0] == '%' then |s| >= 3 && IsHex(s[1]) && IsHex(s[2]) && IsEncoded(s[3..], plain)
    else plain(s[0]) && IsEncoded(s[1..], plain)
  }

  function NameChar(): char -> bool { c => IsUnreserved(c) || IsSubDelim(c) }

  function UserChar(): char -> bool { c => IsUnreserved(c) || IsSubDelim(c) || c == ':' }

  predicate IsRegName(s: string) { IsEncoded(s, NameChar()) }

  predicate IsUserInfo(s: string) { IsEncoded(s, UserChar()) }

  // ----- IP literals -----

  predicate IsDecOctet(s: string) {
    && 1 <= |s| <= 3 && (forall i :: 0 <= i < |s| ==> IsDigit(s[i]))
    && (|s| > 1 ==> s[0] != '0')
    && (|s| == 3 ==> s[0] == '1' || (s[0] == '2' && (s[1] < '5' || (s[1] == '5' && s[2] <= '5'))))
  }

  predicate IsIPv4(s: string) {
    var octets := SplitOn(s, '.');
    |octets| == 4 && forall k :: 0 <= k < 4 ==> IsDecOctet(octets[k])
  }

  predicate IsH16(s: string) { 1 <= |s| <= 4 && forall i :: 0 <= i < |s| ==> IsHex(s[i]) }

  /** The number of 16-bit pieces in a list of groups, the last of which may be an IPv4 address if `ending`. */
  function Pieces(groups: seq<string>, ending: bool): Option<nat> {
    if groups == [] then Some(0)
    else if |groups| == 1 && ending && IsIPv4(groups[0]) then Some(2)
    else if !IsH16(groups[0]) then None
    else
      var rest := Pieces(groups[1..], ending);
      if rest.Some? then Some(1 + rest.value) else None
  }

  function PiecesOf(s: string, ending: bool): Option<nat> {
    if s == "" then Some(0) else Pieces(SplitOn(s, ':'), ending)
  }

  /** The position of the first double colon, or the length. */
  function DoubleColon(s: string): (i: nat)
    ensures i <= |s| && (i < |s| ==> i + 2 <= |s| && s[i] == ':' && s[i + 1] == ':')
  {
    if s == "" then 0
    else if |s| >= 2 && s[0] == ':' && s[1] == ':' then 0
    else 1 + DoubleColon(s[1..])
  }

  /** Eight pieces, or a double colon in place of one or more of them. */
  predicate IsIPv6(s: string) {
    var i := DoubleColon(s);
    if i == |s| then PiecesOf(s, true) == Some(8)
    else
      var left, right := PiecesOf(s[..i], false), PiecesOf(s[i + 2..], true);
      left.Some? && right.Some? && left.value + right.value <= 7
  }

  predicate IsIPvFuture(s: string) {
    var dot := Index(s, '.');
    && 1 < dot < |s| - 1 && s[0] in {'v', 'V'}
    && (forall i :: 1 <= i < dot ==> IsHex(s[i]))
    && (forall i :: dot < i < |s| ==> UserChar()(s[i]))
  }

  predicate IsIPLiteral(s: string) { IsIPv6(s) || IsIPvFuture(s) }

  // ----- the addresses of the grammar are those recognised -----

  /** A list of groups, the last of which may be an IPv4 address if `ending`. */
  ghost predicate IsList(groups: seq<string>, ending: bool) {
    forall k :: 0 <= k < |groups| ==> IsH16(groups[k]) || (ending && k == |groups| - 1 && IsIPv4(groups[k]))
  }

  /** The 16-bit pieces of a list: an IPv4 address stands for two. */
  function Width(groups: seq<string>): nat {
    |groups| + if groups != [] && IsIPv4(Last(groups)) then 1 else 0
  }

  /** Eight pieces between single colons. */
  ghost predicate IsFull(s: string) {
    exists groups :: IsList(groups, true) && Width(groups) == 8 && s == Join(groups, ":")
  }

  /** Up to seven pieces around a double colon. */
  ghost predicate IsShortened(s: string) {
    exists left, right :: IsShort(s, left, right)
  }

  ghost predicate IsShort(s: string, left: seq<string>, right: seq<string>) {
    && IsList(left, false) && IsList(right, true) && Width(left) + Width(right) <= 7
    && s == Join(left, ":") + "::" + Join(right, ":")
  }

  lemma H16HasNo(s: string, c: char)
    requires IsH16(s) && (c == ':' || c == '.')
    ensures c !in s
  {
  }

  lemma H16IsNoIPv4(s: string)
    requires IsH16(s)
    ensures !IsIPv4(s)
  {
    H16HasNo(s, '.');
    SplitChar(s, '.');
  }

  lemma {:induction false} JoinedWithout(parts: seq<string>, sep: char, c: char)
    requires sep != c && forall k :: 0 <= k < |parts| ==> c !in parts[k]
    ensures c !in Join(parts, [sep])
  {
    if |parts| > 1 { JoinedWithout(parts[1..], sep, c); }
  }

  lemma IPv4HasNo(s: string, c: char)
    requires IsIPv4(s) && (c == ':' || c == '%')
    ensures c !in s && s != ""
  {
    var octets := SplitOn(s, '.');
    forall k | 0 <= k < |octets| ensures c !in octets[k] { assert IsDecOctet(octets[k]); }
    JoinedWithout(octets, '.', c);
    JoinSplit(s, '.');
  }

  /** Counting the pieces of a list succeeds exactly for lists. */
  lemma {:induction false} PiecesIff(groups: seq<string>, ending: bool)
    ensures Pieces(groups, ending) == if IsList(groups, ending) then Some(Width(groups)) else None
  {
    if groups != [] {
      var g, tail := groups[0], groups[1..];
      PiecesIff(tail, ending);
      ListCons(groups, ending);
      if IsH16(g) { H16IsNoIPv4(g); }
      assert tail != [] ==> Last(tail) == Last(groups);
    }
  }

  lemma ListCons(groups: seq<string>, ending: bool)
    requires groups != []
    ensures IsList(groups, ending)
            <==> if groups[1..] == [] then IsH16(groups[0]) || (ending && IsIPv4(groups[0]))
                 else IsH16(groups[0]) && IsList(groups[1..], ending)
  {
    var tail := groups[1..];
    assert forall k :: 1 <= k < |groups| ==> groups[k] == tail[k - 1];
    assert forall k :: 0 <= k < |tail| ==> tail[k] == groups[k + 1];
  }

  /** Groups that a colon may separate. */
  ghost predicate Separable(groups: seq<string>) { forall k :: 0 <= k < |groups| ==> ':' !in groups[k] && groups[k] != "" }

  lemma ListSeparable(groups: seq<string>, ending: bool)
    requires IsList(groups, ending)
    ensures Separable(groups)
  {
    forall k | 0 <= k < |groups| ensures ':' !in groups[k] && groups[k] != "" {
      if IsH16(groups[k]) { H16HasNo(groups[k], ':'); } else { IPv4HasNo(groups[k], ':'); }
    }
  }

  lemma JoinedPieces(groups: seq<string>, ending: bool)
    requires IsList(groups, ending)
    ensures PiecesOf(Join(groups, ":"), ending) == Some(Width(groups))
  {
    if groups != [] {
      ListSeparable(groups, ending);
      SplitJoin(groups, ':');
      PiecesIff(groups, ending);
      JoinStart(groups);
    }
  }

  /** The list that a text with so many pieces is. */
  lemma ListOf(s: string, ending: bool) returns (groups: seq<string>)
    requires PiecesOf(s, ending).Some?
    ensures IsList(groups, ending) && Width(groups) == PiecesOf(s, ending).value && s == Join(groups, ":")
  {
    if s == "" {
      groups := [];
    } else {
      groups := SplitOn(s, ':');
      PiecesIff(groups, ending);
      JoinSplit(s, ':');
    }
  }

  lemma {:induction false} DoubleColonAfter(g: string, rest: string)
    requires ':' !in g
    ensures DoubleColon(g + rest) == |g| + DoubleColon(rest)
  {
    if g == "" {
      assert g + rest == rest;
    } else {
      assert (g + rest)[1..] == g[1..] + rest && (g + rest)[0] == g[0] != ':';
      DoubleColonAfter(g[1..], rest);
    }
  }

  lemma SingleColon(more: string)
    requires more != "" && more[0] != ':'
    ensures DoubleColon(":" + more) == 1 + DoubleColon(more)
  {
    assert (":" + more)[1..] == more && (":" + more)[1] == more[0];
  }

  lemma JoinStart(groups: seq<string>)
    requires groups != [] && Separable(groups)
    ensures Join(groups, ":") != "" && Join(groups, ":")[0] != ':'
  {
    JoinCons(groups[0], groups[1..], ":");
    assert groups == [groups[0]] + groups[1..];
    assert groups[0][0] in groups[0];
  }

  lemma ColonBetween(g: string, joined: string, rest: string)
    requires ':' !in g && joined != "" && joined[0] != ':'
    requires DoubleColon(joined + rest) == |joined| + DoubleColon(rest)
    ensures var all := g + ":" + joined; DoubleColon(all + rest) == |all| + DoubleColon(rest)
  {
    SingleColon(joined + rest);
    DoubleColonAfter(g, ":" + (joined + rest));
    Regroup(g + ":", joined, rest);
    Regroup(g, ":", joined + rest);
  }

  /** Between groups there are single colons only. */
  lemma {:induction false} DoubleColonBehind(groups: seq<string>, rest: string)
    requires Separable(groups)
    ensures DoubleColon(Join(groups, ":") + rest) == |Join(groups, ":")| + DoubleColon(rest)
  {
    if groups == [] {
      assert "" + rest == rest;
    } else {
      var g, tail := groups[0], groups[1..];
      assert groups == [g] + tail;
      JoinCons(g, tail, ":");
      if tail == [] {
        DoubleColonAfter(g, rest);
      } else {
        DoubleColonBehind(tail, rest);
        JoinStart(tail);
        ColonBetween(g, Join(tail, ":"), rest);
      }
    }
  }

  lemma FullIsIPv6(groups: seq<string>)
    requires IsList(groups, true) && Width(groups) == 8
    ensures IsIPv6(Join(groups, ":"))
  {
    var s := Join(groups, ":");
    ListSeparable(groups, true);
    DoubleColonBehind(groups, "");
    assert s + "" == s;
    JoinedPieces(groups, true);
  }

  lemma ShortIsIPv6(s: string, left: seq<string>, right: seq<string>)
    requires IsShort(s, left, right)
    ensures IsIPv6(s)
  {
    var l, r := Join(left, ":"), Join(right, ":");
    ListSeparable(left, false);
    DoubleColonBehind(left, "::" + r);
    Regroup(l, "::", r);
    assert s[..|l|] == l && s[|l| + 2..] == r;
    JoinedPieces(left, false);
    JoinedPieces(right, true);
  }

  /**
    The test recognises exactly the IPv6 addresses of the grammar: eight 16-bit pieces, the last two of which
    may be written as an IPv4 address, or up to seven around one double colon.
   */
  lemma AddressesRecognised(s: string)
    ensures IsIPv6(s) <==> IsFull(s) || IsShortened(s)
  {
    if IsIPv6(s) {
      var i := DoubleColon(s);
      if i == |s| {
        var groups := ListOf(s, true);
      } else {
        var left := ListOf(s[..i], false);
        var right := ListOf(s[i + 2..], true);
        assert s == s[..i] + "::" + s[i + 2..];
        assert IsShort(s, left, right);
      }
    }
    if IsFull(s) {
      var groups :| IsList(groups, true) && Width(groups) == 8 && s == Join(groups, ":");
      FullIsIPv6(groups);
    }
    if IsShortened(s) {
      var left, right :| IsShort(s, left, right);
      ShortIsIPv6(s, left, right);
    }
  }

  // ----- which hosts are literals or names -----

  lemma {:induction false} PlainIsEncoded(s: string, plain: char -> bool)
    requires forall i :: 0 <= i < |s| ==> s[i] != '%' && plain(s[i])
    ensures IsEncoded(s, plain)
  {
    if s != "" { PlainIsEncoded(s[1..], plain); }
  }

  /** No IP literal holds a percent sign: the standard has no zone identifiers. */
  lemma LiteralHasNoPercent(s: string)
    requires IsIPLiteral(s)
    ensures '%' !in s
  {
    if IsIPvFuture(s) {
      var dot := Index(s, '.');
      assert forall i :: 0 <= i < |s| ==> s[i] != '%' by {
        forall i | 0 <= i < |s| ensures s[i] != '%' { if i > dot { assert UserChar()(s[i]); } }
      }
    } else {
      var i := DoubleColon(s);
      if i == |s| {
        PiecesHaveNoPercent(s, true);
      } else {
        PiecesHaveNoPercent(s[..i], false);
        PiecesHaveNoPercent(s[i + 2..], true);
        assert s == s[..i] + [':', ':'] + s[i + 2..];
      }
    }
  }

  lemma PiecesHaveNoPercent(s: string, ending: bool)
    requires PiecesOf(s, ending).Some?
    ensures '%' !in s
  {
    var groups := ListOf(s, ending);
    forall k | 0 <= k < |groups| ensures '%' !in groups[k] {
      if !IsH16(groups[k]) { IPv4HasNo(groups[k], '%'); }
    }
    JoinedWithout(groups, ':', '%');
  }
}
