/**
  Setting application_name in the postgresql.auto.conf that pg_basebackup wrote (internal/pgsetup,
  appendConnInfoAppname and injectAppName), read back the way PostgreSQL reads a quoted setting and
  libpq its connection string.
 */
module PgSetup {
  import opened Util
  import opened ConnInfo
  import opened Splitting

  // ----- the edit -----

  const CONN_KEY := "primary_conninfo = "
  const APP_KEY := "application_name="

  /** The position of the last single quote, or -1. */
  function LastQuote(s: string): (i: int)
    ensures -1 <= i < |s| && (i >= 0 ==> s[i] == '\'')
    ensures forall k :: i < k < |s| ==> s[k] != '\''
  {
    if s == "" then -1 else if Last(s) == '\'' then |s| - 1 else LastQuote(Init(s))
  }

  /** The line up to its closing quote, or all of it. */
  function Kept(line: string): string {
    var i := LastQuote(line);
    if i < 0 then line else line[..i]
  }

  function AppSetting(app: string): string { " " + APP_KEY + app }

  function InjectAppName(line: string, app: string): string {
    Kept(line) + AppSetting(app) + "'"
  }

  function NewLine(app: string): string { CONN_KEY + "'" + APP_KEY + app + "'" }

  function WithApp(line: string, app: string): string {
    if Contains(line, APP_KEY) then line else InjectAppName(line, app)
  }

  /** The first primary_conninfo line gets the setting; without one, a line is added. */
  function UpdateLines(lines: seq<string>, app: string): (r: seq<string>)
    ensures r != []
  {
    if lines == [] then [NewLine(app)]
    else if CONN_KEY <= lines[0] then [WithApp(lines[0], app)] + lines[1..]
    else [lines[0]] + UpdateLines(lines[1..], app)
  }

  function WithNewline(s: string): string {
    if s != "" && Last(s) == '\n' then s else s + "\n"
  }

  /** The content written back. */
  function Rewrite(content: string, app: string): string {
    if app == "" then content else WithNewline(Join(UpdateLines(SplitOn(content, '\n'), app), "\n"))
  }

  lemma UpdatePast(lines: seq<string>, i: nat, app: string)
    requires i < |lines| && !(CONN_KEY <= lines[i])
    ensures lines[..i] + UpdateLines(lines[i..], app) == lines[..i + 1] + UpdateLines(lines[i + 1..], app)
  {
    assert lines[i..][0] == lines[i] && lines[i..][1..] == lines[i + 1..];
    Regroup(lines[..i], [lines[i]], UpdateLines(lines[i + 1..], app));
    assert lines[..i + 1] == lines[..i] + [lines[i]];
  }

  lemma UpdateHere(lines: seq<string>, i: nat, app: string)
    requires i < |lines| && CONN_KEY <= lines[i]
    ensures lines[..i] + UpdateLines(lines[i..], app) == lines[i := WithApp(lines[i], app)]
  {
    assert lines[i..][0] == lines[i] && lines[i..][1..] == lines[i + 1..];
    Regroup(lines[..i], [WithApp(lines[i], app)], lines[i + 1..]);
  }

  method AppendConnInfoAppname(content: string, app: string) returns (out: string)
    ensures out == Rewrite(content, app)
  {
    if app == "" { return content; }
    var lines := UpdateFirst(SplitOn(content, '\n'), app);
    out := WithNewline(Join(lines, "\n"));
  }

  /** The loop over the lines. */
  method UpdateFirst(before: seq<string>, app: string) returns (lines: seq<string>)
    ensures lines == UpdateLines(before, app)
  {
    lines := before;
    assert [] + UpdateLines(before, app) == UpdateLines(before, app) && before[0..] == before;
    for i := 0 to |before|
      invariant lines == before && UpdateLines(before, app) == before[..i] + UpdateLines(before[i..], app)
    {
      if CONN_KEY <= lines[i] {
        UpdateHere(before, i, app);
        if !Contains(lines[i], APP_KEY) {
          lines := lines[i := InjectAppName(lines[i], app)];
        }
        return;
      }
      UpdatePast(before, i, app);
    }
    assert before[|before|..] == [] && before[..|before|] == before;
    lines := lines + [NewLine(app)];
  }

  // ----- doing it twice -----

  /** The first primary_conninfo line exists and names an application. */
  predicate HasApp(lines: seq<string>) {
    lines != [] && if CONN_KEY <= lines[0] then Contains(lines[0], APP_KEY) else HasApp(lines[1..])
  }

  lemma {:induction false} SettledLines(lines: seq<string>, app: string)
    requires HasApp(lines)
    ensures UpdateLines(lines, app) == lines
  {
    assert lines == [lines[0]] + lines[1..];
    if !(CONN_KEY <= lines[0]) { SettledLines(lines[1..], app); }
  }

  lemma {:induction false} HasAppSnoc(lines: seq<string>, line: string)
    requires HasApp(lines)
    ensures HasApp(lines + [line])
  {
    assert (lines + [line])[0] == lines[0] && (lines + [line])[1..] == lines[1..] + [line];
    if !(CONN_KEY <= lines[0]) { HasAppSnoc(lines[1..], line); }
  }

  lemma ContainsAt(a: string, t: string, b: string)
    ensures Contains(a + t + b, t)
  {
    assert (a + t + b)[|a|..] == t + b;
  }

  /** The last quote comes after the keyword. */
  lemma KeyIsKept(line: string)
    requires CONN_KEY <= line
    ensures CONN_KEY <= Kept(line)
    ensures '\n' !in line ==> '\n' !in Kept(line)
  {
    assert forall k :: 0 <= k < |CONN_KEY| ==> line[k] == CONN_KEY[k] && CONN_KEY[k] != '\'';
  }

  lemma ContainsAtEnd(a: string, t: string)
    ensures Contains(a + t, t)
  {
    ContainsAt(a, t, "");
    assert a + t + "" == a + t;
  }

  lemma SettingText(kept: string, key: string, app: string)
    ensures kept + (" " + key + app) + "'" == kept + " " + key + (app + "'")
  {
  }

  lemma InjectedStart(line: string, app: string)
    requires CONN_KEY <= line && '\n' !in line
    ensures var start := Kept(line) + " " + APP_KEY;
            && InjectAppName(line, app) == start + (app + "'")
            && '\n' !in start && CONN_KEY <= start && Contains(start, APP_KEY)
  {
    var kept := Kept(line);
    KeyIsKept(line);
    ContainsAtEnd(kept + " ", APP_KEY);
    NoBreak(kept);
    SettingText(kept, APP_KEY, app);
  }

  lemma NoBreak(kept: string)
    requires '\n' !in kept && CONN_KEY <= kept
    ensures '\n' !in kept + " " + APP_KEY && CONN_KEY <= kept + " " + APP_KEY
  {
    assert '\n' !in " " && '\n' !in APP_KEY;
  }

  /** The line as edited starts with text that has no line break, and that settles the matter. */
  lemma SettledStart(line: string, app: string) returns (start: string, rest: string)
    requires CONN_KEY <= line && '\n' !in line
    ensures WithApp(line, app) == start + rest && '\n' !in start && CONN_KEY <= start && Contains(start, APP_KEY)
  {
    if Contains(line, APP_KEY) {
      start, rest := line, "";
      assert line + "" == line;
    } else {
      start, rest := Kept(line) + " " + APP_KEY, app + "'";
      InjectedStart(line, app);
    }
  }

  lemma BreakFree(a: string, b: string)
    requires '\n' !in a && '\n' !in b
    ensures '\n' !in a + b
  {
  }

  lemma NewLineStart(app: string)
    ensures var start := CONN_KEY + "'" + APP_KEY;
            NewLine(app) == start + (app + "'") && '\n' !in start && CONN_KEY <= start && Contains(start, APP_KEY)
  {
    ContainsAtEnd(CONN_KEY + "'", APP_KEY);
    BreakFree(CONN_KEY, "'");
    BreakFree(CONN_KEY + "'", APP_KEY);
    Regroup(CONN_KEY + "'" + APP_KEY, app, "'");
  }

  /** Text without a line break stays in front of the first line. */
  lemma {:induction false} FirstLine(start: string, rest: string)
    requires '\n' !in start
    ensures SplitOn(start + rest, '\n')[0] == start + SplitOn(rest, '\n')[0]
  {
    if start == "" {
      assert "" + rest == rest && "" + SplitOn(rest, '\n')[0] == SplitOn(rest, '\n')[0];
    } else {
      var x, y := start[0], start[1..];
      FirstLine(y, rest);
      assert start == [x] + y;
      Regroup([x], y, rest);
      SplitCons(x, y + rest, '\n');
      Regroup([x], y, SplitOn(rest, '\n')[0]);
    }
  }

  lemma ContainsMore(s: string, t: string, more: string)
    requires Contains(s, t)
    ensures Contains(s + more, t)
  {
    var i :| 0 <= i <= |s| && t <= s[i..];
    DropConcat(s, more, i);
    assert t <= (s + more)[i..];
  }

  lemma StartSettles(start: string, rest: string)
    requires '\n' !in start && CONN_KEY <= start && Contains(start, APP_KEY)
    ensures HasApp(SplitOn(start + rest, '\n'))
  {
    FirstLine(start, rest);
    ContainsMore(start, APP_KEY, SplitOn(rest, '\n')[0]);
  }

  /** Splitting the updated lines again finds the setting, even if the name itself breaks a line. */
  lemma {:induction false} UpdatedHasApp(lines: seq<string>, app: string)
    requires forall k :: 0 <= k < |lines| ==> '\n' !in lines[k]
    ensures HasApp(SplitOn(Join(UpdateLines(lines, app), "\n"), '\n'))
  {
    if lines == [] {
      NewLineStart(app);
      StartSettles(CONN_KEY + "'" + APP_KEY, app + "'");
    } else if CONN_KEY <= lines[0] {
      var start, rest := SettledStart(lines[0], app);
      JoinCons(WithApp(lines[0], app), lines[1..], "\n");
      if lines[1..] == [] {
        StartSettles(start, rest);
      } else {
        var tail := Join(lines[1..], "\n");
        Regroup(start, rest, "\n");
        Regroup(start, rest + "\n", tail);
        StartSettles(start, rest + "\n" + tail);
      }
    } else {
      var tail := UpdateLines(lines[1..], app);
      UpdatedHasApp(lines[1..], app);
      JoinCons(lines[0], tail, "\n");
      SplitConcat(lines[0], Join(tail, "\n"), '\n');
      SplitChar(lines[0], '\n');
    }
  }

  lemma BreakSplits(s: string)
    ensures SplitOn(s + "\n", '\n') == SplitOn(s, '\n') + [""]
  {
    SplitConcat(s, "", '\n');
    assert s + ['\n'] + "" == s + "\n";
  }

  /** Whatever the file and the name hold, a second run changes nothing, and the file ends its last line. */
  lemma RewriteIdempotent(content: string, app: string)
    ensures Rewrite(Rewrite(content, app), app) == Rewrite(content, app)
    ensures app != "" ==> Rewrite(content, app) != "" && Last(Rewrite(content, app)) == '\n'
  {
    if app != "" {
      var lines := SplitOn(content, '\n');
      var text := Join(UpdateLines(lines, app), "\n");
      var out := WithNewline(text);
      JoinSplit(content, '\n');
      UpdatedHasApp(lines, app);
      if out != text {
        BreakSplits(text);
        HasAppSnoc(SplitOn(text, '\n'), "");
      }
      SettledLines(SplitOn(out, '\n'), app);
      JoinSplit(out, '\n');
    }
  }

  // ----- which line the server takes -----

  /** The primary_conninfo lines, in order; of several, PostgreSQL takes the last. */
  function ConnLines(lines: seq<string>): seq<string> {
    if lines == [] then []
    else if CONN_KEY <= lines[0] then [lines[0]] + ConnLines(lines[1..])
    else ConnLines(lines[1..])
  }

  function ConnLinesOf(content: string): seq<string> { ConnLines(SplitOn(content, '\n')) }

  lemma {:induction false} ConnLinesConcat(a: seq<string>, b: seq<string>)
    ensures ConnLines(a + b) == ConnLines(a) + ConnLines(b)
  {
    if a == [] {
      assert a + b == b;
    } else {
      assert (a + b)[0] == a[0] && (a + b)[1..] == a[1..] + b;
      ConnLinesConcat(a[1..], b);
      Regroup([a[0]], ConnLines(a[1..]), ConnLines(b));
    }
  }

  lemma ConnLinesOne(line: string)
    ensures ConnLines([line]) == if CONN_KEY <= line then [line] else []
  {
    assert [line][1..] == [];
  }

  lemma WithAppKeepsKey(line: string, app: string)
    requires CONN_KEY <= line && '\n' !in line
    ensures CONN_KEY <= WithApp(line, app) && Contains(WithApp(line, app), APP_KEY)
    ensures '\n' !in app ==> '\n' !in WithApp(line, app)
  {
    var start, rest := SettledStart(line, app);
    ContainsMore(start, APP_KEY, rest);
    if !Contains(line, APP_KEY) && '\n' !in app {
      InjectedStart(line, app);
      BreakFree(app, "'");
      BreakFree(Kept(line) + " " + APP_KEY, app + "'");
    }
  }

  lemma NewLineKey(app: string)
    requires '\n' !in app
    ensures CONN_KEY <= NewLine(app) && Contains(NewLine(app), APP_KEY) && '\n' !in NewLine(app)
  {
    NewLineStart(app);
    ContainsMore(CONN_KEY + "'" + APP_KEY, APP_KEY, app + "'");
    BreakFree(app, "'");
    BreakFree(CONN_KEY + "'" + APP_KEY, app + "'");
  }

  /** The edit adds a line where there is none and else touches the first. */
  lemma {:induction false} UpdatedConnLines(lines: seq<string>, app: string)
    requires '\n' !in app && forall k :: 0 <= k < |lines| ==> '\n' !in lines[k]
    ensures var before, u := ConnLines(lines), UpdateLines(lines, app);
            && (forall k :: 0 <= k < |u| ==> '\n' !in u[k])
            && ConnLines(u) == if before == [] then [NewLine(app)] else [WithApp(before[0], app)] + before[1..]
  {
    if lines == [] {
      NewLineKey(app);
      ConnLinesOne(NewLine(app));
    } else if CONN_KEY <= lines[0] {
      WithAppKeepsKey(lines[0], app);
      ConnLinesConcat([WithApp(lines[0], app)], lines[1..]);
      ConnLinesOne(WithApp(lines[0], app));
    } else {
      UpdatedConnLines(lines[1..], app);
      ConnLinesConcat([lines[0]], UpdateLines(lines[1..], app));
      ConnLinesOne(lines[0]);
      assert [] + ConnLines(UpdateLines(lines[1..], app)) == ConnLines(UpdateLines(lines[1..], app));
    }
  }

  lemma ConnLinesWithNewline(s: string)
    ensures ConnLinesOf(WithNewline(s)) == ConnLinesOf(s)
  {
    if WithNewline(s) != s {
      BreakSplits(s);
      ConnLinesConcat(SplitOn(s, '\n'), [""]);
      ConnLinesOne("");
      assert ConnLines(SplitOn(s, '\n')) + [] == ConnLines(SplitOn(s, '\n'));
    }
  }

  lemma {:induction false} ConnLinesFrom(lines: seq<string>)
    ensures forall line :: line in ConnLines(lines) ==> line in lines && CONN_KEY <= line
  {
    if lines != [] { ConnLinesFrom(lines[1..]); }
  }

  /**
    What the edit does to the primary_conninfo lines of any file, and when the one that counts names an
    application: unless the file holds two or more of them and the last has no name yet. A data directory
    copied from a former standby is such a file: its own line comes first, and the line that
    pg_basebackup appended keeps its effect and stays unnamed.
   */
  lemma EffectiveLine(content: string, app: string)
    requires app != "" && '\n' !in app
    ensures var before, after := ConnLinesOf(content), ConnLinesOf(Rewrite(content, app));
            && after == (if before == [] then [NewLine(app)] else [WithApp(before[0], app)] + before[1..])
            && (Contains(Last(after), APP_KEY) <==> |before| < 2 || Contains(Last(before), APP_KEY))
  {
    var lines := SplitOn(content, '\n');
    var u := UpdateLines(lines, app);
    JoinSplit(content, '\n');
    UpdatedConnLines(lines, app);
    ConnLinesWithNewline(Join(u, "\n"));
    SplitJoin(u, '\n');
    var before := ConnLines(lines);
    if before == [] {
      NewLineKey(app);
    } else {
      ConnLinesFrom(lines);
      assert before[0] in before;
      WithAppKeepsKey(before[0], app);
    }
  }

  // ----- all lines of the file -----

  /** Joined lines end in a line break exactly if the last of several is empty. */
  lemma {:induction false} JoinEnds(parts: seq<string>)
    requires parts != [] && forall k :: 0 <= k < |parts| ==> '\n' !in parts[k]
    ensures var text := Join(parts, "\n"); text != "" && Last(text) == '\n' <==> |parts| >= 2 && Last(parts) == ""
  {
    var p, rest := parts[0], parts[1..];
    assert parts == [p] + rest;
    JoinCons(p, rest, "\n");
    if rest == [] {
      assert p != "" ==> Last(p) in p;
    } else {
      JoinEnds(rest);
      var t := Join(rest, "\n");
      assert p + "\n" + "" == p + "\n";
      if t != "" { assert Last(p + "\n" + t) == Last(t); } else { EmptyJoin(rest); }
    }
  }

  lemma LongJoin(p: string, rest: seq<string>)
    requires rest != []
    ensures Join([p] + rest, "\n") != ""
  {
    JoinCons(p, rest, "\n");
  }

  lemma EmptyJoin(parts: seq<string>)
    requires parts != []
    ensures Join(parts, "\n") == "" ==> parts == [""]
  {
    assert parts == [parts[0]] + parts[1..];
    if |parts| > 1 { LongJoin(parts[0], parts[1..]); }
  }

  /** The first primary_conninfo line. */
  ghost predicate IsFirstConn(lines: seq<string>, i: nat) {
    i < |lines| && CONN_KEY <= lines[i] && forall j :: 0 <= j < i ==> !(CONN_KEY <= lines[j])
  }

  lemma {:induction false} UpdatedAt(lines: seq<string>, app: string, i: nat)
    requires IsFirstConn(lines, i)
    ensures UpdateLines(lines, app) == lines[i := WithApp(lines[i], app)]
    decreases i
  {
    if i > 0 {
      assert !(CONN_KEY <= lines[0]);
      UpdatedAt(lines[1..], app, i - 1);
    }
  }

  lemma {:induction false} UpdatedEnd(lines: seq<string>, app: string)
    requires forall i :: 0 <= i < |lines| ==> !(CONN_KEY <= lines[i])
    ensures UpdateLines(lines, app) == lines + [NewLine(app)]
  {
    if lines == [] {
      assert [] + [NewLine(app)] == [NewLine(app)];
    } else {
      UpdatedEnd(lines[1..], app);
      assert lines == [lines[0]] + lines[1..];
      Regroup([lines[0]], lines[1..], [NewLine(app)]);
    }
  }

  lemma RewrittenLines(content: string, app: string)
    requires app != "" && '\n' !in app
    ensures var u := UpdateLines(SplitOn(content, '\n'), app);
            SplitOn(Rewrite(content, app), '\n') == if |u| >= 2 && Last(u) == "" then u else u + [""]
  {
    var lines := SplitOn(content, '\n');
    var u := UpdateLines(lines, app);
    JoinSplit(content, '\n');
    UpdatedConnLines(lines, app);
    SplitJoin(u, '\n');
    JoinEnds(u);
    BreakSplits(Join(u, "\n"));
  }

  lemma NewLineText(app: string)
    ensures NewLine(app) == "primary_conninfo = 'application_name=" + app + "'"
  {
    assert "primary_conninfo = " + "'" + "application_name=" == "primary_conninfo = 'application_name=";
  }

  /**
    The whole file after the edit, line by line. The first primary_conninfo line, unless it names an application
    already, gets the setting in place of its last quote and what follows; without such a line, one is put
    behind the others. Every other line stays as it is, and a last line that was not ended is. Without a
    name nothing changes.
   */
  lemma EditedFile(content: string, app: string)
    requires '\n' !in app
    ensures app == "" ==> Rewrite(content, app) == content
    ensures app != "" ==>
            var lines, out := SplitOn(content, '\n'), SplitOn(Rewrite(content, app), '\n');
            && ((forall i :: 0 <= i < |lines| ==> !("primary_conninfo = " <= lines[i])) ==>
                  out == lines + ["primary_conninfo = 'application_name=" + app + "'"] + [""])
            && (forall i: nat :: IsFirstConn(lines, i) ==>
                  var edited := lines[i := if Contains(lines[i], "application_name=") then lines[i]
                                           else (if LastQuote(lines[i]) < 0 then lines[i] else lines[i][..LastQuote(lines[i])])
                                                + (" " + "application_name=" + app) + "'"];
                  out == if Last(edited) == "" then edited else edited + [""])
  {
    var lines := SplitOn(content, '\n');
    if app != "" { RewrittenLines(content, app); }
    if forall i :: 0 <= i < |lines| ==> !(CONN_KEY <= lines[i]) {
      UpdatedEnd(lines, app);
      NewLineText(app);
    }
    forall i: nat | IsFirstConn(lines, i)
      ensures UpdateLines(lines, app) == lines[i := WithApp(lines[i], app)]
      ensures Last(UpdateLines(lines, app)) == "" ==> |lines| >= 2
    {
      UpdatedAt(lines, app, i);
      LongLine(lines[i], app);
    }
  }

  lemma LongLine(line: string, app: string)
    requires CONN_KEY <= line
    ensures WithApp(line, app) != ""
  {
  }

  // ----- what the server reads -----

  /** A setting as pg_basebackup -R quotes it: quotes and backslashes doubled. */
  function Double(v: string): string {
    if v == "" then "" else (if v[0] == '\'' || v[0] == '\\' then [v[0], v[0]] else [v[0]]) + Double(v[1..])
  }

  function ConfQuote(v: string): string { "'" + Double(v) + "'" }

  /**
    The value of a quoted setting, read from behind its opening quote: a doubled quote or backslash
    stands for one, a single quote ends the value. Backslash escapes of other characters are not read.
   */
  function ConfText(s: string, acc: string): Option<string>
    decreases |s|
  {
    if s == "" then None
    else if s[0] == '\'' || s[0] == '\\' then
      if |s| >= 2 && s[1] == s[0] then ConfText(s[2..], acc + [s[0]])
      else if s == "'" then Some(acc)
      else None
    else ConfText(s[1..], acc + [s[0]])
  }

  /** The text of the setting on a primary_conninfo line. */
  function ConnText(line: string): Option<string> {
    if CONN_KEY + "'" <= line then ConfText(line[|CONN_KEY| + 1..], "") else None
  }

  lemma ConfTextPair(c: char, rest: string, acc: string)
    requires c == '\'' || c == '\\'
    ensures ConfText([c, c] + rest, acc) == ConfText(rest, acc + [c])
  {
    assert ([c, c] + rest)[2..] == rest;
  }

  lemma ConfTextChar(c: char, rest: string, acc: string)
    requires c != '\'' && c != '\\'
    ensures ConfText([c] + rest, acc) == ConfText(rest, acc + [c])
  {
    assert ([c] + rest)[1..] == rest;
  }

  lemma {:induction false} ConfTextDouble(v: string, acc: string)
    ensures ConfText(Double(v) + "'", acc) == Some(acc + v)
  {
    if v == "" {
      assert "" + "'" == "'" && acc + "" == acc;
    } else {
      var c, rest := v[0], Double(v[1..]) + "'";
      ConfTextDouble(v[1..], acc + [c]);
      Regroup(acc, [c], v[1..]);
      assert v == [c] + v[1..];
      if c == '\'' || c == '\\' {
        Regroup([c, c], Double(v[1..]), "'");
        ConfTextPair(c, rest, acc);
      } else {
        Regroup([c], Double(v[1..]), "'");
        ConfTextChar(c, rest, acc);
      }
    }
  }

  /** Quoting is read back. */
  lemma ConnTextOf(v: string)
    ensures ConnText(CONN_KEY + ConfQuote(v)) == Some(v)
  {
    var line, key := CONN_KEY + ConfQuote(v), CONN_KEY + "'";
    Regroup(CONN_KEY, "'", Double(v) + "'");
    assert ConfQuote(v) == "'" + (Double(v) + "'");
    assert line == key + (Double(v) + "'");
    assert line[|key|..] == Double(v) + "'";
    ConfTextDouble(v, "");
    assert "" + v == v;
  }

  /** No quote and no backslash. */
  predicate Unquoted(s: string) { '\'' !in s && '\\' !in s }

  lemma {:induction false} DoubleUnquoted(s: string)
    requires Unquoted(s)
    ensures Double(s) == s
  {
    if s != "" {
      DoubleUnquoted(s[1..]);
      assert s == [s[0]] + s[1..];
    }
  }

  lemma AppSettingUnquoted(app: string)
    requires Unquoted(app)
    ensures Unquoted(AppSetting(app))
  {
    assert Unquoted(" " + APP_KEY);
  }

  // ----- what the edit does to the value -----

  /** A quote or backslash not followed by its double, except for the closing quote, is not read. */
  lemma ConfTextBroken(c: char, rest: string, acc: string)
    requires (c == '\'' || c == '\\') && rest != "" && rest[0] != c
    ensures ConfText([c] + rest, acc) == None
  {
    assert ([c] + rest)[1] == rest[0] && |[c] + rest| > 1;
  }

  /** Plain text put in front of the closing quote is appended to the value, if there is one. */
  lemma {:induction false} ConfTextAppend(b: string, a: string, acc: string)
    requires Unquoted(a) && a != ""
    ensures ConfText(b + a + "'", acc)
            == match ConfText(b + "'", acc) case None => None case Some(v) => Some(v + a)
    decreases |b|
  {
    Regroup(b, a, "'");
    if b == "" {
      DoubleUnquoted(a);
      ConfTextDouble(a, acc);
      assert "" + (a + "'") == a + "'" && "" + "'" == "'";
    } else if b[0] != '\'' && b[0] != '\\' {
      var c, y := b[0], b[1..];
      assert b == [c] + y;
      Regroup(y, a, "'");
      Regroup([c], y, a + "'");
      Regroup([c], y, "'");
      ConfTextChar(c, y + (a + "'"), acc);
      ConfTextChar(c, y + "'", acc);
      ConfTextAppend(y, a, acc + [c]);
    } else if |b| == 1 {
      LoneAppend(b[0], a, acc);
      assert b == [b[0]];
    } else {
      PairAppend(b, a, acc);
      if b[1] == b[0] { ConfTextAppend(b[2..], a, acc + [b[0]]); }
    }
  }

  lemma LoneAppend(c: char, a: string, acc: string)
    requires (c == '\'' || c == '\\') && Unquoted(a) && a != ""
    ensures ConfText([c] + (a + "'"), acc) == None && ConfText([c] + "'", acc) == None
  {
    assert a[0] in a;
    ConfTextBroken(c, a + "'", acc);
    if c == '\'' {
      assert [c] + "'" == [c, c] + "";
      ConfTextPair(c, "", acc);
    } else {
      ConfTextBroken(c, "'", acc);
    }
  }

  lemma PairAppend(b: string, a: string, acc: string)
    requires |b| >= 2 && (b[0] == '\'' || b[0] == '\\')
    ensures b[1] == b[0] ==>
              && ConfText(b + (a + "'"), acc) == ConfText(b[2..] + a + "'", acc + [b[0]])
              && ConfText(b + "'", acc) == ConfText(b[2..] + "'", acc + [b[0]])
    ensures b[1] != b[0] ==> ConfText(b + (a + "'"), acc) == None && ConfText(b + "'", acc) == None
  {
    var c, y := b[0], b[2..];
    if b[1] == c {
      assert b == [c, c] + y;
      Regroup([c, c], y, a + "'");
      Regroup([c, c], y, "'");
      Regroup(y, a, "'");
      ConfTextPair(c, y + (a + "'"), acc);
      ConfTextPair(c, y + "'", acc);
    } else {
      assert b == [c] + b[1..];
      Regroup([c], b[1..], a + "'");
      Regroup([c], b[1..], "'");
      ConfTextBroken(c, b[1..] + (a + "'"), acc);
      ConfTextBroken(c, b[1..] + "'", acc);
    }
  }

  lemma ConnTextAt(k: string)
    requires CONN_KEY + "'" <= k
    ensures forall tail :: ConnText(k + tail) == ConfText(k[|CONN_KEY| + 1..] + tail, "")
  {
    forall tail ensures ConnText(k + tail) == ConfText(k[|CONN_KEY| + 1..] + tail, "") {
      DropConcat(k, tail, |CONN_KEY| + 1);
    }
  }

  /** A keyword that reaches past `k` can only end with the very last quote, so nothing is left to read. */
  lemma QuoteAtEnd(k: string, a: string, key: string)
    requires '\'' !in a && !(key + "'" <= k) && key + "'" <= k + a + "'"
    ensures (k + a + "'")[|key| + 1..] == ""
  {
    var s := k + a + "'";
    assert s[|key|] == (key + "'")[|key|] == '\'';
    assert forall i :: 0 <= i < |a| ==> s[|k| + i] == a[i] && a[i] in a;
    assert forall i :: 0 <= i < |k| ==> s[i] == k[i];
  }

  /** The value of a line up to its last quote; what follows that quote is not part of it. */
  function Setting(line: string): Option<string> { ConnText(Kept(line) + "'") }

  /**
    The exact effect of the edit on what the server reads, for every line: a line whose setting is readable
    gets the application name appended to the value, and a line whose setting is not stays unreadable.
   */
  lemma InjectedReads(line: string, app: string)
    requires Unquoted(app)
    ensures ConnText(InjectAppName(line, app))
            == match Setting(line) case None => None case Some(v) => Some(v + AppSetting(app))
  {
    var k, a, key := Kept(line), AppSetting(app), CONN_KEY + "'";
    AppSettingUnquoted(app);
    if key <= k {
      ConnTextAt(k);
      Regroup(k, a, "'");
      Regroup(k[|key|..], a, "'");
      ConfTextAppend(k[|key|..], a, "");
    } else {
      if key <= k + a + "'" { QuoteAtEnd(k, a, CONN_KEY); }
      assert k + "" + "'" == k + "'";
      if key <= k + "'" { QuoteAtEnd(k, "", CONN_KEY); }
    }
  }

  lemma {:induction false} ConfTextEnds(s: string, acc: string)
    requires ConfText(s, acc).Some?
    ensures s != "" && Last(s) == '\''
    decreases |s|
  {
    if s != "'" {
      if s[0] == '\'' || s[0] == '\\' { ConfTextEnds(s[2..], acc + [s[0]]); } else { ConfTextEnds(s[1..], acc + [s[0]]); }
    }
  }

  /** The setting of a readable line is what is read from it. */
  lemma ReadableSetting(line: string)
    requires ConnText(line).Some?
    ensures Setting(line) == ConnText(line)
  {
    ConfTextEnds(line[|CONN_KEY| + 1..], "");
    assert Last(line) == '\'';
    assert line == Init(line) + "'";
  }

  /**
    A line without quotes gets a closing one only, so it has no readable value; the comment on
    injectAppName claims that such lines are handled.
   */
  lemma UnquotedLineBreaks(line: string, app: string)
    requires '\'' !in line && Unquoted(app)
    ensures ConnText(InjectAppName(line, app)).None?
  {
    InjectedReads(line, app);
    assert forall k :: 0 <= k < |line| ==> line[k] in line;
    assert "" + line + "'" == line + "'";
    if CONN_KEY + "'" <= line + "'" { QuoteAtEnd("", line, CONN_KEY); }
  }

  // ----- what libpq reads from the value -----

  /**
    Text that libpq takes as a bare value; a replication slot name is such text, since it holds lower-case
    letters, digits and underscores only.
   */
  predicate IsBare(app: string) {
    app != "" && forall i :: 0 <= i < |app| ==> !IsSpace(app[i]) && app[i] != '\'' && app[i] != '\\'
  }

  const APP_NAME := "application_name"

  lemma AppSettingReads(app: string)
    requires IsBare(app)
    ensures Unquoted(app) && Parse(APP_KEY + app) == Some([Pair(APP_NAME, app)])
  {
    var p := Pair(APP_NAME, app);
    assert IsKeyword(APP_NAME);
    assert !HasTrigger(app);
    assert APP_KEY == APP_NAME + "=";
    assert RenderPair(p) + "" == APP_KEY + app;
    ParsePair(p, "");
    assert [p] + [] == [p];
  }

  /** A bare value whose last character is a backslash with nothing behind it. */
  predicate OpenBare(s: string)
    decreases |s|
  {
    if s == "" || IsSpace(s[0]) then false
    else if s[0] == '\\' then |s| == 1 || OpenBare(s[2..])
    else OpenBare(s[1..])
  }

  /** The connection string ends where a value goes on: right behind an equal sign, or in such a bare value. */
  predicate OpenEnd(v: string)
    decreases |v|
  {
    var t := SkipSpaces(v);
    t != ""
    && var u := SkipSpaces(t[KeywordLen(t)..]);
       u != ""
       && var w := SkipSpaces(u[1..]);
          || w == ""
          || (w[0] != '\'' && OpenBare(w))
          || (ReadValue(w).Some? && OpenEnd(ReadValue(w).value.rest))
  }

  lemma {:induction false} SkipAppend(s: string, t: string)
    requires t != "" && !IsSpace(t[0])
    ensures SkipSpaces(s + (" " + t)) == if SkipSpaces(s) == "" then t else SkipSpaces(s) + (" " + t)
  {
    if s == "" {
      assert "" + (" " + t) == " " + t && (" " + t)[1..] == t;
      assert SkipSpaces(t) == t;
    } else {
      DropConcat(s, " " + t, 1);
      if IsSpace(s[0]) { SkipAppend(s[1..], t); }
    }
  }

  lemma {:induction false} KeywordAppend(s: string, rest: string)
    requires rest != "" && rest[0] == ' '
    ensures KeywordLen(s + rest) == KeywordLen(s)
  {
    if s == "" {
      assert "" + rest == rest;
    } else {
      DropConcat(s, rest, 1);
      if s[0] != '=' && !IsSpace(s[0]) { KeywordAppend(s[1..], rest); }
    }
  }

  lemma {:induction false} QuotedAppend(s: string, acc: string, rest: string)
    requires ReadQuoted(s, acc).Some?
    ensures var v := ReadQuoted(s, acc).value; ReadQuoted(s + rest, acc) == Some(Value(v.text, v.rest + rest))
    decreases |s|
  {
    DropConcat(s, rest, 1);
    if s[0] == '\\' {
      DropConcat(s, rest, 2);
      QuotedAppend(s[2..], acc + [s[1]], rest);
    } else if s[0] != '\'' {
      QuotedAppend(s[1..], acc + [s[0]], rest);
    }
  }

  /** An open bare value takes in all that is appended. */
  lemma {:induction false} OpenBareAppend(s: string, acc: string, t: string)
    requires OpenBare(s) && IsBare(t)
    ensures ReadBare(s, acc).rest == "" && ReadBare(s + (" " + t), acc).rest == ""
    decreases |s|
  {
    var b := " " + t;
    if s[0] == '\\' && |s| == 1 {
      assert (s + b)[1] == ' ' && (s + b)[2..] == t;
      assert t + "" == t;
      ReadBarePlain(t, "", acc + [' ']);
    } else if s[0] == '\\' {
      DropConcat(s, b, 2);
      OpenBareAppend(s[2..], acc + [s[1]], t);
    } else {
      DropConcat(s, b, 1);
      OpenBareAppend(s[1..], acc + [s[0]], t);
    }
  }

  /** Any other ends where it did. */
  lemma {:induction false} BareAppend(s: string, acc: string, t: string)
    requires !OpenBare(s)
    ensures var v, w := ReadBare(s, acc), ReadBare(s + (" " + t), acc);
            w.text == v.text && Parse(w.rest) == Parse(v.rest + (" " + t))
    decreases |s|
  {
    var b := " " + t;
    if s == "" {
      assert "" + b == b && b[1..] == t;
      ParseAfterSpace(t);
    } else if IsSpace(s[0]) {
      DropConcat(s, b, 1);
    } else if s[0] == '\\' {
      DropConcat(s, b, 2);
      BareAppend(s[2..], acc + [s[1]], t);
    } else {
      DropConcat(s, b, 1);
      BareAppend(s[1..], acc + [s[0]], t);
    }
  }

  /** The first setting of a text, up to where its value starts. */
  lemma ParseHead(v: string, b: string, t: string)
    requires Parse(v).Some? && SkipSpaces(v) != "" && b == " " + t && t != "" && !IsSpace(t[0])
    ensures var h := SkipSpaces(v);
            var k := KeywordLen(h);
            var u := SkipSpaces(h[k..]);
            && 0 < k <= |h| && u != "" && |u| <= |v|
            && (Parse(v) == match ReadValue(SkipSpaces(u[1..]))
                            case None => None
                            case Some(x) => Cons(Pair(h[..k], x.text), Parse(x.rest)))
            && (Parse(v + b) == match ReadValue(SkipSpaces(u[1..] + b))
                                case None => None
                                case Some(x) => Cons(Pair(h[..k], x.text), Parse(x.rest)))
  {
    var h := SkipSpaces(v);
    var k := KeywordLen(h);
    var u := SkipSpaces(h[k..]);
    SkipAppend(v, t);
    KeywordAppend(h, b);
    DropConcat(h, b, k);
    SkipAppend(h[k..], t);
    DropConcat(u, b, 1);
    assert (h + b)[..k] == h[..k];
    assert SkipSpaces(v + b) == h + b;
  }

  /** Reading the value that starts at `w`, with the new setting behind it. */
  lemma ValueAppend(w: string, t: string)
    requires w != "" && !IsSpace(w[0]) && ReadValue(w).Some? && IsBare(t)
    ensures var x, y := ReadValue(w).value, ReadValue(w + (" " + t));
            && y.Some?
            && (w[0] != '\'' && OpenBare(w) ==> x.rest == "" && y.value.rest == "")
            && (!(w[0] != '\'' && OpenBare(w)) ==> y.value.text == x.text && Parse(y.value.rest) == Parse(x.rest + (" " + t)))
  {
    var b := " " + t;
    if w[0] == '\'' {
      DropConcat(w, b, 1);
      QuotedAppend(w[1..], "", b);
    } else if OpenBare(w) {
      OpenBareAppend(w, "", t);
    } else {
      BareAppend(w, "", t);
    }
  }

  /** Nothing behind an equal sign: the new setting becomes the value. */
  lemma EmptyAppend(t: string)
    requires IsBare(t)
    ensures ReadValue(t) == Some(Value(t, "")) && ReadValue("") == Some(Value("", ""))
  {
    assert t + "" == t && "" + t == t;
    ReadBarePlain(t, "", "");
  }

  lemma SettingIsBareText(app: string)
    requires IsBare(app)
    ensures IsBare(APP_KEY + app)
  {
    assert IsBare(APP_KEY);
  }

  /**
    Appending a setting to a connection string: it is read behind the ones already there unless the string
    ends in an open value, and swallowed by that value if it does.
   */
  lemma {:induction false} ParseAppend(v: string, app: string)
    requires Parse(v).Some? && IsBare(app)
    ensures Parse(v + AppSetting(app)).Some?
    ensures !OpenEnd(v) ==> Parse(v + AppSetting(app)) == Some(Parse(v).value + [Pair(APP_NAME, app)])
    ensures OpenEnd(v) ==> |Parse(v + AppSetting(app)).value| == |Parse(v).value|
    decreases |v|
  {
    var t := APP_KEY + app;
    var b := " " + t;
    Regroup(" ", APP_KEY, app);
    SettingIsBareText(app);
    AppSettingReads(app);
    var h := SkipSpaces(v);
    if h == "" {
      SkipAppend(v, t);
      assert SkipSpaces(t) == t;
      assert [] + [Pair(APP_NAME, app)] == [Pair(APP_NAME, app)];
    } else {
      ParseHead(v, b, t);
      var k := KeywordLen(h);
      var u := SkipSpaces(h[k..]);
      var w := SkipSpaces(u[1..]);
      SkipAppend(u[1..], t);
      if w == "" {
        EmptyAppend(t);
      } else {
        ValueAppend(w, t);
        var x := ReadValue(w).value;
        if !(w[0] != '\'' && OpenBare(w)) {
          ParseAppend(x.rest, app);
          Regroup([Pair(h[..k], x.text)], Parse(x.rest).value, [Pair(APP_NAME, app)]);
        }
      }
    }
  }

  /**
    The meaning of the edit, for every line whose setting is a connection string, which is the value the
    server read from the line before if it could read one: libpq reads all its settings, in order, and
    application_name after them, if and only if the string does not end in an open value.
   */
  lemma EditKeepsSettings(line: string, app: string)
    requires IsBare(app) && Setting(line).Some? && Parse(Setting(line).value).Some?
    ensures var v, r := Setting(line).value, ConnText(InjectAppName(line, app));
            && (ConnText(line).Some? ==> ConnText(line) == Some(v))
            && r == Some(v + AppSetting(app))
            && (Parse(r.value) == Some(Parse(v).value + [Pair(APP_NAME, app)]) <==> !OpenEnd(v))
  {
    if ConnText(line).Some? { ReadableSetting(line); }
    AppSettingReads(app);
    InjectedReads(line, app);
    ParseAppend(Setting(line).value, app);
  }

  /** A setting whose value is all the rest. */
  lemma OneSetting(key: string, text: string, val: string)
    requires IsKeyword(key) && ReadValue(SkipSpaces(text)) == Some(Value(val, ""))
    ensures Parse(key + "=" + text) == Some([Pair(key, val)])
  {
    ParseSetting(key, text);
    assert [Pair(key, val)] + [] == [Pair(key, val)];
  }

  lemma KeyEndsOpen(key: string)
    requires IsKeyword(key)
    ensures OpenEnd(key + "=")
  {
    var s := key + "=";
    assert SkipSpaces(s) == s;
    KeywordLenOf(key, "=");
    assert s[|key|..] == "=" && "="[1..] == "";
  }

  /** Open ends occur: any setting left without a value takes the application name for one. */
  lemma EmptyValueTakesName(key: string, app: string)
    requires IsKeyword(key) && IsBare(app)
    ensures OpenEnd(key + "=") && Parse(key + "=" + "") == Some([Pair(key, "")])
    ensures Parse(key + "=" + AppSetting(app)) == Some([Pair(key, APP_KEY + app)])
  {
    var t := APP_KEY + app;
    SettingIsBareText(app);
    EmptyAppend(t);
    SkipAppend("", t);
    Regroup(" ", APP_KEY, app);
    assert "" + (" " + t) == " " + t == AppSetting(app);
    OneSetting(key, AppSetting(app), t);
    OneSetting(key, "", "");
    KeyEndsOpen(key);
  }
}
