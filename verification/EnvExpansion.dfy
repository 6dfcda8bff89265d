/**
  Expansion of ${VAR} references in one config string (internal/config, expandEnvString), as a scan
  for the pattern \$\{([A-Z_][A-Z0-9_]*)\}.
 */
module EnvExpansion {
  import opened Util

  type Env = map<string, string>

  // ----- references -----

  predicate IsNameStart(c: char) { IsUpper(c) || c == '_' }

  predicate IsNameChar(c: char) { IsNameStart(c) || IsDigit(c) }

  /** [A-Z_][A-Z0-9_]* */
  predicate IsVarName(s: string) {
    && s != "" && !('0' <= s[0] <= '9')
    && forall i :: 0 <= i < |s| ==> 'A' <= s[i] <= 'Z' || s[i] == '_' || '0' <= s[i] <= '9'
  }

  function RunLen(s: string): (n: nat)
    ensures n <= |s|
  {
    if s == "" || !IsNameChar(s[0]) then 0 else 1 + RunLen(s[1..])
  }

  /** The name of the reference that `s` starts with, if it starts with one. */
  function MatchRef(s: string): (name: Option<string>)
    ensures name.Some? ==> |name.value| + 3 <= |s|
  {
    if |s| >= 4 && s[0] == '$' && s[1] == '{' && IsNameStart(s[2]) then
      var n := 1 + RunLen(s[3..]);
      if 2 + n < |s| && s[2 + n] == '}' then Some(s[2..2 + n]) else None
    else None
  }

  function RefText(name: string): string { "$" + "{" + name + "}" }

  /** The value is nothing but one reference. */
  predicate IsRefOnly(s: string) {
    MatchRef(s).Some? && |MatchRef(s).value| + 3 == |s|
  }

  lemma {:induction false} RunLenOf(name: string, rest: string)
    requires forall i :: 0 <= i < |name| ==> IsNameChar(name[i])
    requires rest != "" && !IsNameChar(rest[0])
    ensures RunLen(name + rest) == |name|
  {
    if name == "" {
      assert name + rest == rest;
    } else {
      assert (name + rest)[1..] == name[1..] + rest;
      RunLenOf(name[1..], rest);
    }
  }

  lemma {:induction false} RunLenChars(s: string)
    ensures forall i :: 0 <= i < RunLen(s) ==> IsNameChar(s[i])
    ensures RunLen(s) < |s| ==> !IsNameChar(s[RunLen(s)])
  {
    if s != "" && IsNameChar(s[0]) {
      RunLenChars(s[1..]);
      assert forall i :: 1 <= i < |s| ==> s[i] == s[1..][i - 1];
    }
  }

  lemma NameChars(s: string)
    ensures IsVarName(s) <==> s != "" && IsNameStart(s[0]) && forall i :: 0 <= i < |s| ==> IsNameChar(s[i])
  {
  }

  /** A reference is matched where it stands, whatever follows. */
  lemma MatchRefOf(name: string, rest: string)
    requires IsVarName(name)
    ensures MatchRef(RefText(name) + rest) == Some(name)
    ensures (RefText(name) + rest)[|name| + 3..] == rest
  {
    var s := RefText(name) + rest;
    var tail := name[1..] + ("}" + rest);
    NameChars(name);
    assert s[2] == name[0] && s[3..] == tail;
    RunLenOf(name[1..], "}" + rest);
    assert s[2..2 + |name|] == name;
  }

  /** What a match says about the text. */
  lemma MatchRefText(s: string)
    requires MatchRef(s).Some?
    ensures var name := MatchRef(s).value;
            IsVarName(name) && s == RefText(name) + s[|name| + 3..]
  {
    RunLenChars(s[3..]);
    var name := MatchRef(s).value;
    assert forall i :: 1 <= i < |name| ==> name[i] == s[3..][i - 1];
    NameChars(name);
  }

  lemma MatchExtends(a: string, rest: string)
    requires MatchRef(a).Some?
    ensures MatchRef(a + rest) == MatchRef(a)
  {
    MatchRefText(a);
    var name := MatchRef(a).value;
    MatchRefOf(name, a[|name| + 3..] + rest);
    assert a + rest == RefText(name) + (a[|name| + 3..] + rest);
  }

  lemma MatchWithin(a: string, rest: string)
    requires a != "" && rest != "" && rest[0] == '$' && MatchRef(a + rest).Some?
    ensures MatchRef(a) == MatchRef(a + rest)
  {
    var s := a + rest;
    MatchRefText(s);
    var name := MatchRef(s).value;
    assert forall k :: 1 <= k < |name| + 3 ==> s[k] == RefText(name)[k] != '$';
    assert s[|a|] == '$';
    assert a[|name| + 3..] + rest == s[|name| + 3..];
    assert a == RefText(name) + a[|name| + 3..];
    MatchRefOf(name, a[|name| + 3..]);
  }

  /** A match never reaches past the next dollar sign. */
  lemma MatchBeforeDollar(a: string, rest: string)
    requires a != "" && rest != "" && rest[0] == '$'
    ensures MatchRef(a + rest) == MatchRef(a)
  {
    if MatchRef(a + rest).Some? {
      MatchWithin(a, rest);
    } else if MatchRef(a).Some? {
      MatchExtends(a, rest);
    }
  }

  // ----- the scan -----

  datatype Token = Lit(c: char) | Ref(name: string)

  function Tokens(s: string): seq<Token>
    decreases |s|
  {
    if s == "" then []
    else
      var m := MatchRef(s);
      if m.Some? then [Ref(m.value)] + Tokens(s[|m.value| + 3..]) else [Lit(s[0])] + Tokens(s[1..])
  }

  function Unparse(tokens: seq<Token>): string {
    if tokens == [] then ""
    else (if tokens[0].Lit? then [tokens[0].c] else RefText(tokens[0].name)) + Unparse(tokens[1..])
  }

  /** The scan loses nothing. */
  lemma {:induction false} UnparseTokens(s: string)
    ensures Unparse(Tokens(s)) == s
    decreases |s|
  {
    if s != "" {
      var m := MatchRef(s);
      if m.Some? {
        MatchRefText(s);
        UnparseTokens(s[|m.value| + 3..]);
        assert Tokens(s)[1..] == Tokens(s[|m.value| + 3..]);
      } else {
        UnparseTokens(s[1..]);
        assert Tokens(s)[1..] == Tokens(s[1..]);
        assert s == [s[0]] + s[1..];
      }
    }
  }

  /** The first token, and how much of the text it takes. */
  function FirstToken(s: string): Token
    requires s != ""
  {
    if MatchRef(s).Some? then Ref(MatchRef(s).value) else Lit(s[0])
  }

  function TokenLen(s: string): (n: nat)
    requires s != ""
    ensures 0 < n <= |s|
  {
    if MatchRef(s).Some? then |MatchRef(s).value| + 3 else 1
  }

  lemma TokensStep(s: string)
    requires s != ""
    ensures Tokens(s) == [FirstToken(s)] + Tokens(s[TokenLen(s)..])
  {
  }

  /** Text before a dollar sign is scanned as if it stood alone. */
  lemma StepBeforeDollar(a: string, rest: string)
    requires a != "" && rest != "" && rest[0] == '$'
    ensures Tokens(a + rest) == [FirstToken(a)] + Tokens(a[TokenLen(a)..] + rest)
  {
    MatchBeforeDollar(a, rest);
    TokensStep(a + rest);
    assert (a + rest)[TokenLen(a)..] == a[TokenLen(a)..] + rest;
  }

  /** Every reference in the text is found, and it splits the scan into two independent ones. */
  lemma {:induction false} TokensSplit(a: string, name: string, b: string)
    requires IsVarName(name)
    ensures Tokens(a + RefText(name) + b) == Tokens(a) + [Ref(name)] + Tokens(b)
    decreases |a|
  {
    var rest := RefText(name) + b;
    Regroup(a, RefText(name), b);
    if a == "" {
      assert "" + rest == rest;
      MatchRefOf(name, b);
      assert [] + [Ref(name)] == [Ref(name)];
    } else {
      var tail := a[TokenLen(a)..];
      StepBeforeDollar(a, rest);
      TokensStep(a);
      TokensSplit(tail, name, b);
      Regroup(tail, RefText(name), b);
      RegroupFour([FirstToken(a)], Tokens(tail), [Ref(name)], Tokens(b));
    }
  }

  lemma RegroupFour<T>(a: seq<T>, b: seq<T>, c: seq<T>, d: seq<T>)
    ensures a + (b + c + d) == a + b + c + d
  {
  }

  // ----- expansion -----

  predicate Resolves(env: Env, name: string) { name in env && env[name] != "" }

  function TokenText(t: Token, env: Env): string {
    match t
    case Lit(c) => [c]
    case Ref(name) => if Resolves(env, name) then env[name] else RefText(name)
  }

  function Substitute(tokens: seq<Token>, env: Env): string {
    if tokens == [] then "" else TokenText(tokens[0], env) + Substitute(tokens[1..], env)
  }

  function MissingName(t: Token, env: Env): seq<string> {
    if t.Ref? && !Resolves(env, t.name) then [t.name] else []
  }

  function Missing(tokens: seq<Token>, env: Env): seq<string> {
    if tokens == [] then []
    else MissingName(tokens[0], env) + Missing(tokens[1..], env)
  }

  datatype Expansion = Expanded(text: string) | Unset(names: seq<string>)

  function Expand(s: string, env: Env): Expansion {
    var missing := Missing(Tokens(s), env);
    if missing != [] then Unset(missing) else Expanded(Substitute(Tokens(s), env))
  }

  /** The scan test that skips the pattern altogether. */
  predicate HasOpening(s: string) {
    exists i :: 0 <= i < |s| - 1 && s[i] == '$' && s[i + 1] == '{'
  }

  lemma {:induction false} NoOpeningNoRef(s: string, env: Env)
    requires !HasOpening(s)
    ensures Expand(s, env) == Expanded(s)
  {
    if s != "" {
      assert MatchRef(s).None? by {
        if |s| >= 2 && s[0] == '$' && s[1] == '{' { assert HasOpening(s); }
      }
      assert !HasOpening(s[1..]) by {
        forall i | 0 <= i < |s[1..]| - 1 ensures !(s[1..][i] == '$' && s[1..][i + 1] == '{') {
          assert s[1..][i] == s[i + 1] && s[1..][i + 1] == s[i + 2];
        }
      }
      NoOpeningNoRef(s[1..], env);
      assert Tokens(s)[1..] == Tokens(s[1..]);
      assert s == [s[0]] + s[1..];
    }
  }

  lemma ScanStep(s: string, env: Env)
    requires s != ""
    ensures var t, rest := FirstToken(s), Tokens(s[TokenLen(s)..]);
            && Tokens(s) == [t] + rest
            && Substitute(Tokens(s), env) == TokenText(t, env) + Substitute(rest, env)
            && Missing(Tokens(s), env)
               == MissingName(t, env) + Missing(rest, env)
  {
    TokensStep(s);
    assert Tokens(s)[1..] == Tokens(s[TokenLen(s)..]);
  }

  /** expandEnvString: the callback of ReplaceAllStringFunc collects the missing names. */
  method ExpandEnvString(s: string, env: Env) returns (r: Expansion)
    ensures r == Expand(s, env)
  {
    if !HasOpening(s) {
      NoOpeningNoRef(s, env);
      return Expanded(s);
    }
    var result, missing := ReplaceAll(s, env);
    r := if missing != [] then Unset(missing) else Expanded(result);
  }

  lemma ReplaceStep(result: string, missing: seq<string>, rest: string, env: Env)
    requires rest != ""
    ensures var t, after := FirstToken(rest), Tokens(rest[TokenLen(rest)..]);
            && result + Substitute(Tokens(rest), env) == result + TokenText(t, env) + Substitute(after, env)
            && missing + Missing(Tokens(rest), env)
               == missing + MissingName(t, env) + Missing(after, env)
  {
    var t, after := FirstToken(rest), Tokens(rest[TokenLen(rest)..]);
    ScanStep(rest, env);
    Regroup(result, TokenText(t, env), Substitute(after, env));
    Regroup(missing, MissingName(t, env), Missing(after, env));
  }

  /** The replacement loop: the scan proceeds on the original text only. */
  method ReplaceAll(s: string, env: Env) returns (result: string, missing: seq<string>)
    ensures result == Substitute(Tokens(s), env) && missing == Missing(Tokens(s), env)
  {
    ghost var text, unset := Substitute(Tokens(s), env), Missing(Tokens(s), env);
    result, missing := "", [];
    var rest := s;
    assert text == "" + text && unset == [] + unset;
    while rest != ""
      invariant text == result + Substitute(Tokens(rest), env)
      invariant unset == missing + Missing(Tokens(rest), env)
      decreases |rest|
    {
      ReplaceStep(result, missing, rest, env);
      var t := FirstToken(rest);
      rest := rest[TokenLen(rest)..];
      result := result + TokenText(t, env);
      missing := missing + MissingName(t, env);
    }
    assert Substitute(Tokens(rest), env) == "" && Missing(Tokens(rest), env) == [];
    assert result == result + "" && missing == missing + [];
  }

  // ----- what expansion means -----

  lemma {:induction false} SubstituteConcat(a: seq<Token>, b: seq<Token>, env: Env)
    ensures Substitute(a + b, env) == Substitute(a, env) + Substitute(b, env)
  {
    if a == [] {
      assert a + b == b && "" + Substitute(b, env) == Substitute(b, env);
    } else {
      assert (a + b)[0] == a[0] && (a + b)[1..] == a[1..] + b;
      SubstituteConcat(a[1..], b, env);
      Regroup(TokenText(a[0], env), Substitute(a[1..], env), Substitute(b, env));
    }
  }

  lemma {:induction false} MissingConcat(a: seq<Token>, b: seq<Token>, env: Env)
    ensures Missing(a + b, env) == Missing(a, env) + Missing(b, env)
  {
    if a == [] {
      assert a + b == b && [] + Missing(b, env) == Missing(b, env);
    } else {
      assert (a + b)[0] == a[0] && (a + b)[1..] == a[1..] + b;
      MissingConcat(a[1..], b, env);
      Regroup(MissingName(a[0], env), Missing(a[1..], env), Missing(b, env));
    }
  }

  lemma RefTokens(name: string, env: Env)
    ensures Substitute([Ref(name)], env) == TokenText(Ref(name), env)
    ensures Missing([Ref(name)], env) == if Resolves(env, name) then [] else [name]
  {
    assert [Ref(name)][1..] == [];
  }

  /** The names an expansion reports; none if it succeeds. */
  function Names(e: Expansion): seq<string> { if e.Unset? then e.names else [] }

  /**
    Expansion is one pass: around any reference the two sides expand on their own, and the variable's
    value goes in between verbatim, references inside it included. Names are reported in order.
   */
  lemma ExpandAround(a: string, name: string, b: string, env: Env)
    requires IsVarName(name)
    ensures Expand(a + RefText(name) + b, env).Expanded?
            <==> Expand(a, env).Expanded? && Resolves(env, name) && Expand(b, env).Expanded?
    ensures Expand(a + RefText(name) + b, env).Expanded? ==>
              Expand(a + RefText(name) + b, env).text == Expand(a, env).text + env[name] + Expand(b, env).text
    ensures Names(Expand(a + RefText(name) + b, env))
            == Names(Expand(a, env)) + (if Resolves(env, name) then [] else [name]) + Names(Expand(b, env))
  {
    TokensSplit(a, name, b);
    SubstituteConcat(Tokens(a) + [Ref(name)], Tokens(b), env);
    SubstituteConcat(Tokens(a), [Ref(name)], env);
    MissingConcat(Tokens(a) + [Ref(name)], Tokens(b), env);
    MissingConcat(Tokens(a), [Ref(name)], env);
    RefTokens(name, env);
  }

  /** The text holds the reference at some place. */
  ghost predicate Mentions(s: string, name: string) {
    exists a, b :: s == a + RefText(name) + b
  }

  lemma {:induction false} MissingMentioned(s: string, env: Env, name: string)
    requires name in Missing(Tokens(s), env)
    ensures IsVarName(name) && Mentions(s, name) && !Resolves(env, name)
    decreases |s|
  {
    ScanStep(s, env);
    var t, n := FirstToken(s), TokenLen(s);
    if name in MissingName(t, env) {
      MatchedMentioned(s);
    } else {
      MissingMentioned(s[n..], env, name);
      MentionsBefore(s, n, name);
    }
  }

  lemma MatchedMentioned(s: string)
    requires MatchRef(s).Some?
    ensures IsVarName(MatchRef(s).value) && Mentions(s, MatchRef(s).value)
  {
    MatchRefText(s);
    var name := MatchRef(s).value;
    assert s == "" + RefText(name) + s[|name| + 3..];
  }

  lemma MentionsBefore(s: string, n: nat, name: string)
    requires n <= |s| && Mentions(s[n..], name)
    ensures Mentions(s, name)
  {
    var a, b :| s[n..] == a + RefText(name) + b;
    assert s == s[..n] + s[n..];
    assert s == s[..n] + a + RefText(name) + b;
  }

  /** The names reported as missing are the variables that the text mentions and that are unset or empty. */
  lemma MissingIff(s: string, env: Env, name: string)
    ensures name in Missing(Tokens(s), env)
            <==> IsVarName(name) && Mentions(s, name) && !(name in env && env[name] != "")
  {
    if name in Missing(Tokens(s), env) {
      MissingMentioned(s, env, name);
    } else if IsVarName(name) && Mentions(s, name) {
      var a, b :| s == a + RefText(name) + b;
      TokensSplit(a, name, b);
      MissingConcat(Tokens(a) + [Ref(name)], Tokens(b), env);
      MissingConcat(Tokens(a), [Ref(name)], env);
      RefTokens(name, env);
    }
  }

  /** Expansion fails exactly when the text mentions a variable that is unset or empty. */
  lemma ExpandFailsIff(s: string, env: Env)
    ensures Expand(s, env).Unset? <==>
            exists name :: IsVarName(name) && Mentions(s, name) && !(name in env && env[name] != "")
  {
    var missing := Missing(Tokens(s), env);
    if missing != [] {
      assert missing[0] in missing;
      MissingIff(s, env, missing[0]);
    } else {
      forall name ensures !(IsVarName(name) && Mentions(s, name) && !Resolves(env, name)) { MissingIff(s, env, name); }
    }
  }

  /** A value that is one reference expands to exactly that variable's value. */
  lemma RefOnlyExpands(s: string, env: Env)
    requires IsRefOnly(s)
    ensures var name := MatchRef(s).value;
            && IsVarName(name) && s == RefText(name)
            && (Expand(s, env).Expanded? <==> Resolves(env, name))
            && (Resolves(env, name) ==> Expand(s, env) == Expanded(env[name]))
  {
    MatchRefText(s);
    var name := MatchRef(s).value;
    ExpandAround("", name, "", env);
    assert s == "" + RefText(name) + "";
    assert Tokens("") == [];
    assert Expand("", env) == Expanded("");
    assert "" + (if Resolves(env, name) then env[name] else "") + "" == if Resolves(env, name) then env[name] else "";
  }

  /** And the base of it: text that mentions no variable is left alone. */
  lemma {:induction false} NoReferences(s: string, env: Env)
    requires forall name :: IsVarName(name) ==> !Mentions(s, name)
    ensures Expand(s, env) == Expanded(s)
    decreases |s|
  {
    if s != "" {
      if MatchRef(s).Some? { MatchedMentioned(s); }
      forall name | IsVarName(name) ensures !Mentions(s[1..], name) {
        if Mentions(s[1..], name) { MentionsBefore(s, 1, name); }
      }
      NoReferences(s[1..], env);
      ScanStep(s, env);
      assert s == [s[0]] + s[1..];
    }
  }

  /** A value is a single reference, and nothing else, exactly if it reads ${NAME}. */
  lemma RefOnlyIff(s: string)
    ensures IsRefOnly(s) <==> exists name :: IsVarName(name) && s == "${" + name + "}"
  {
    forall name ensures RefText(name) == "${" + name + "}" { assert "$" + "{" == "${"; }
    if IsRefOnly(s) {
      MatchRefText(s);
      var name := MatchRef(s).value;
      assert s == "${" + name + "}";
    }
    forall name | IsVarName(name) && s == "${" + name + "}" ensures IsRefOnly(s) {
      MatchRefOf(name, "");
      assert RefText(name) + "" == s;
    }
  }
}
