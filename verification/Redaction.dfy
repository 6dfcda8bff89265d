/**
  Redaction of printed connection strings (internal/pgsetup, RedactDSN). The scan is unaware of the
  quoting that the DSN printer uses, so the question is when the two stay aligned, in a DSN and in the
  pg_basebackup command line around it.
 */
module Redaction {
  import opened ConnInfo
  import opened PasswordScan
  import opened Splitting
  import opened Util

  // ----- a password field in any text -----

  function PasswordField(key: string, pw: string, rest: string): string {
    " " + (key + QuoteValue(pw) + rest)
  }

  lemma Cancel(a: string, b: string, c: string)
    ensures a + b == a + c <==> b == c
  {
    if a + b == a + c {
      assert (a + b)[|a|..] == b && (a + c)[|a|..] == c;
    }
  }

  lemma Differ(a: string, b: string, rest: string)
    requires |a| == |b| && a != b
    ensures a + rest != b + rest
  {
    assert (a + rest)[..|a|] == a;
    assert (b + rest)[..|b|] == b;
  }

  /** The scan of a text that is outside any value when it comes to the password field. */
  lemma HidesPassword(m: Pattern, before: string, pw: string, rest: string)
    requires Outside(m, before) && rest != "" && rest[0] == ' '
    ensures Redact(m, before + PasswordField(m.key, pw, rest)) == Redact(m, before + PasswordField(m.key, "", rest))
            <==> Hidden(pw)
  {
    var a, b := m.key + QuoteValue(pw) + rest, m.key + QuoteValue("") + rest;
    OutsideThen(m, before, " " + a);
    OutsideThen(m, before, " " + b);
    RedactSkips(m, " ", a);
    RedactSkips(m, " ", b);
    HiddenIff(m, pw, rest);
    Cancel(" ", Redact(m, a), Redact(m, b));
    Cancel(Head(m, before), " " + Redact(m, a), " " + Redact(m, b));
  }

  lemma FieldText(key: string, e: string, rest: string)
    ensures " " + (key + ("'" + e + "'") + rest) == " " + key + ("'" + (e + "'" + rest))
  {
  }

  lemma LeadPlain(m: Pattern)
    ensures IsPlain(" " + m.key)
  {
  }

  /** Inside a value, the opening quote of the password ends that value, and the password is printed. */
  lemma PrintsPassword(m: Pattern, before: string, pw: string, rest: string)
    requires !Outside(m, before) && HasTrigger(pw) && IsPlain(pw) && 'p' !in pw
    ensures Redact(m, before + PasswordField(m.key, pw, rest)) == Head(m, before) + (pw + Redact(m, "'" + rest))
  {
    EscapePlain(pw);
    FieldText(m.key, pw, rest);
    LeadPlain(m);
    InsideThen(m, before, " " + m.key, pw + "'" + rest);
    Regroup(pw, "'", rest);
    RedactSkips(m, pw, "'" + rest);
  }

  lemma LeaksPassword(m: Pattern, before: string, pw1: string, pw2: string, rest: string)
    requires !Outside(m, before)
    requires HasTrigger(pw1) && HasTrigger(pw2) && IsPlain(pw1) && IsPlain(pw2) && 'p' !in pw1 && 'p' !in pw2
    requires |pw1| == |pw2| && pw1 != pw2
    ensures Redact(m, before + PasswordField(m.key, pw1, rest)) != Redact(m, before + PasswordField(m.key, pw2, rest))
  {
    var r := Redact(m, "'" + rest);
    PrintsPassword(m, before, pw1, rest);
    PrintsPassword(m, before, pw2, rest);
    Differ(pw1, pw2, r);
    Cancel(Head(m, before), pw1 + r, pw2 + r);
  }

  lemma WitnessPasswords()
    ensures HasTrigger("a b") && HasTrigger("a c") && IsPlain("a b") && IsPlain("a c")
    ensures 'p' !in "a b" && 'p' !in "a c" && "a b" != "a c"
  {
    assert "a b"[1] == ' ' && "a c"[1] == ' ';
    assert "a b"[2] != "a c"[2];
  }

  /**
    Non-interference, whatever stands around the password: all hidden passwords give the same printed
    text if and only if the scan of the text before the field does not end inside a quoted value.
   */
  lemma NonInterference(m: Pattern, before: string, rest: string)
    requires rest != "" && rest[0] == ' '
    ensures (forall pw1, pw2 :: Hidden(pw1) && Hidden(pw2) ==>
               Redact(m, before + PasswordField(m.key, pw1, rest)) == Redact(m, before + PasswordField(m.key, pw2, rest)))
            <==> Outside(m, before)
  {
    if Outside(m, before) {
      forall pw1, pw2 | Hidden(pw1) && Hidden(pw2)
        ensures Redact(m, before + PasswordField(m.key, pw1, rest)) == Redact(m, before + PasswordField(m.key, pw2, rest))
      {
        HidesPassword(m, before, pw1, rest);
        HidesPassword(m, before, pw2, rest);
      }
    } else {
      WitnessPasswords();
      LeaksPassword(m, before, "a b", "a c", rest);
    }
  }

  // ----- the fields before the password -----

  function BeforePassword(host: string, port: int, user: string): string {
    "host=" + QuoteValue(host) + Middle(port) + QuoteValue(user)
  }

  function Middle(port: int): string { " port=" + Decimal(port) + " user=" }

  /**
    Whether the scan is inside a quoted value after the field of `v`, given whether it was before. A value
    printed in quotes brings the two quotes that the scan waits for; it leaves the scan inside if the
    last match in it starts at its closing quote. A value printed bare changes nothing.
   */
  predicate InsideAfter(m: Pattern, inside: bool, v: string) {
    if v == "" || HasTrigger(v) then TailKey(m, v) else inside
  }

  /** The scan that is `inside` a value or not at the start of a DSN comes to its password field outside. */
  predicate AlignedFrom(m: Pattern, inside: bool, host: string, user: string) {
    !InsideAfter(m, InsideAfter(m, inside, host), user)
  }

  /** The redactor's matches stay aligned with the printed fields of a DSN. */
  predicate Aligned(m: Pattern, host: string, user: string) { AlignedFrom(m, false, host, user) }

  lemma MiddlePlain(port: int)
    ensures IsPlain(Middle(port))
  {
    var d := Decimal(port);
    assert IsPlain(d) by { assert forall c :: c in d ==> IsDigit(c) || c == '-'; }
    assert IsPlain(" port=") && IsPlain(" user=");
  }

  function PortTail(port: int): string { "ort=" + Decimal(port) + " user=" }

  lemma PortTailPlain(port: int)
    ensures 'p' !in PortTail(port) && PortTail(port)[0] == 'o'
  {
    assert 'p' !in Decimal(port) by { assert forall c :: c in Decimal(port) ==> IsDigit(c) || c == '-'; }
    assert 'p' !in "ort=" && 'p' !in " user=";
  }

  lemma MiddleSplits(port: int, rest: string)
    ensures Middle(port) + rest == " " + ("p" + (PortTail(port) + rest))
  {
  }

  lemma OutsideMiddle(m: Pattern, port: int, rest: string)
    ensures Outside(m, Middle(port) + rest) == Outside(m, rest)
  {
    var tail := PortTail(port) + rest;
    PortTailPlain(port);
    MiddleSplits(port, rest);
    OutsideSkips(m, " ", "p" + tail);
    assert ("p" + tail)[1] == 'o' != m.key[1] && ("p" + tail)[1..] == tail;
    OutsideSkips(m, PortTail(port), rest);
  }

  /** One field, printed behind the plain text `x` that the scan passes over. */
  lemma FieldInside(m: Pattern, before: string, x: string, v: string)
    requires IsPlain(x) && x != "" && x[0] == ' ' && Outside(m, x + QuoteValue(v)) == Outside(m, QuoteValue(v))
    ensures Outside(m, before + (x + QuoteValue(v))) <==> !InsideAfter(m, !Outside(m, before), v)
  {
    if Outside(m, before) {
      OutsideThen(m, before, x + QuoteValue(v));
      ValueOutside(m, v);
    } else if v == "" || HasTrigger(v) {
      assert v == "" ==> Escape(v) == "";
      assert QuoteValue(v) == "'" + (Escape(v) + "'");
      InsideThen(m, before, x, Escape(v) + "'");
      InsideOutside(m, v);
    } else {
      assert forall i :: 0 <= i < |v| ==> !IsQuoteTrigger(v[i]);
      InsideStays(m, before, x + v);
    }
  }

  lemma UserInside(m: Pattern, before: string, port: int, user: string)
    ensures Outside(m, before + (Middle(port) + QuoteValue(user))) <==> !InsideAfter(m, !Outside(m, before), user)
  {
    MiddlePlain(port);
    OutsideMiddle(m, port, QuoteValue(user));
    FieldInside(m, before, Middle(port), user);
  }

  lemma AlignedIff(m: Pattern, host: string, port: int, user: string)
    ensures Outside(m, BeforePassword(host, port, user)) <==> Aligned(m, host, user)
  {
    var before := "host=" + QuoteValue(host);
    OutsideSkips(m, "host=", QuoteValue(host));
    ValueOutside(m, host);
    EmptyHasNoTail(m);
    UserInside(m, before, port, user);
    Regroup(before, Middle(port), QuoteValue(user));
  }

  lemma EmptyHasNoTail(m: Pattern)
    ensures !TailKey(m, "")
  {
  }

  /** The text after the password field of a DSN. */
  function AfterPassword(p: PostgresConfig, dbname: string, extra: string): string {
    " " + RenderPairs(TailPairs(p, dbname)) + WithExtra(extra)
  }

  function TailPairs(p: PostgresConfig, dbname: string): (ps: seq<Pair>)
    ensures ps != []
  {
    [Pair("dbname", dbname), Pair("sslmode", EffectiveSSLMode(p))]
    + Unless("sslrootcert", p.sslRootCert) + Unless("sslcert", p.sslCert) + Unless("sslkey", p.sslKey)
  }

  lemma RenderCons(p: Pair, ps: seq<Pair>)
    requires ps != []
    ensures RenderPairs([p] + ps) == RenderPair(p) + " " + RenderPairs(ps)
  {
    assert ([p] + ps)[1..] == ps;
  }

  lemma RenderTwo(a: Pair, b: Pair, tail: seq<Pair>)
    requires tail != []
    ensures RenderPairs([a, b] + tail) == RenderPair(a) + " " + (RenderPair(b) + " " + RenderPairs(tail))
  {
    RenderCons(b, tail);
    RenderCons(a, [b] + tail);
    assert [a, b] + tail == [a] + ([b] + tail);
  }

  lemma RenderFour(a: Pair, b: Pair, c: Pair, d: Pair, tail: seq<Pair>)
    requires tail != []
    ensures RenderPairs([a, b, c, d] + tail)
            == RenderPair(a) + " " + (RenderPair(b) + " " + (RenderPair(c) + " " + (RenderPair(d) + " " + RenderPairs(tail))))
  {
    RenderTwo(c, d, tail);
    RenderTwo(a, b, [c, d] + tail);
    FourAndRest(a, b, c, d, tail);
  }

  lemma DsnPairsSplit(p: PostgresConfig, user: string, pw: string, dbname: string)
    ensures DsnPairs(p, user, Some(pw), dbname)
            == [Pair("host", p.host), Pair("port", Decimal(p.port)), Pair("user", user), Pair("password", pw)]
               + TailPairs(p, dbname)
  {
  }

  lemma PasswordLayout(h: string, o: string, u: string, w: string, tail: string, extra: string)
    ensures h + " " + (o + " " + (u + " " + (w + " " + tail))) + extra
            == h + " " + o + " " + u + (" " + (w + (" " + tail + extra)))
  {
  }

  /** Where the password sits in a rendered DSN. */
  lemma DsnLayout(p: PostgresConfig, user: string, pw: string, dbname: string, extra: string)
    ensures Dsn(p, user, Some(pw), dbname, extra)
            == BeforePassword(p.host, p.port, user)
               + PasswordField("password" + "=", pw, AfterPassword(p, dbname, extra))
  {
    var h, o, u, w := Pair("host", p.host), Pair("port", Decimal(p.port)), Pair("user", user), Pair("password", pw);
    DsnPairsSplit(p, user, pw, dbname);
    RenderFour(h, o, u, w, TailPairs(p, dbname));
    PasswordLayout(RenderPair(h), RenderPair(o), RenderPair(u), RenderPair(w),
                   RenderPairs(TailPairs(p, dbname)), WithExtra(extra));
    PortPrintsBare(p.port);
    BeforePasswordPairs(p, user);
    assert RenderPair(w) == "password" + "=" + QuoteValue(pw);
  }

  lemma PortPrintsBare(port: int)
    ensures QuoteValue(Decimal(port)) == Decimal(port)
  {
    var d := Decimal(port);
    assert forall i :: 0 <= i < |d| ==> d[i] in d;
  }

  lemma FieldTexts(host: string, port: string, user: string)
    ensures "host=" + host + (" port=" + port + " user=") + user
            == "host" + "=" + host + " " + ("port" + "=" + port) + " " + ("user" + "=" + user)
  {
    assert "host=" == "host" + "=";
    assert " port=" == " " + ("port" + "=") && " user=" == " " + ("user" + "=");
    FieldGroups("host=" + host, " ", "port" + "=", port, "user" + "=", user);
  }

  lemma FieldGroups(a: string, sp: string, b: string, c: string, d: string, e: string)
    ensures a + (sp + b + c + (sp + d)) + e == a + sp + (b + c) + sp + (d + e)
  {
  }

  lemma BeforePasswordPairs(p: PostgresConfig, user: string)
    ensures BeforePassword(p.host, p.port, user)
            == RenderPair(Pair("host", p.host)) + " " + RenderPair(Pair("port", Decimal(p.port)))
               + " " + RenderPair(Pair("user", user))
  {
    PortPrintsBare(p.port);
    FieldTexts(QuoteValue(p.host), Decimal(p.port), QuoteValue(user));
  }

  lemma ContainsSuffix(s: string, j: nat, k: string)
    requires j <= |s| && Contains(s[j..], k)
    ensures Contains(s, k)
  {
    var i :| 0 <= i <= |s[j..]| && k <= s[j..][i..];
    assert s[j..][i..] == s[i + j..];
  }

  /** Text without the keyword does not misalign the scan. */
  lemma {:induction false} NoKeyOutside(m: Pattern, v: string)
    requires !Contains(v, m.key)
    ensures !TailKey(m, v) && Outside(m, v)
    decreases |v|
  {
    if v != "" {
      assert v[0..] == v;
      if Contains(v[1..], m.key) { ContainsSuffix(v, 1, m.key); }
      NoKeyOutside(m, v[1..]);
    }
  }

  /** A simple sufficient condition: neither the host nor the user mentions the password field. */
  lemma NoKeyAligned(host: string, user: string)
    requires !Contains(host, DSN_PASSWORD.key) && !Contains(user, DSN_PASSWORD.key)
    ensures Aligned(DSN_PASSWORD, host, user)
  {
    NoKeyOutside(DSN_PASSWORD, host);
    NoKeyOutside(DSN_PASSWORD, user);
  }

  // ----- a DSN -----

  lemma KeyText()
    ensures DSN_PASSWORD.key == "password" + "="
  {
  }

  /** The DSN around its password field. */
  lemma DsnField(m: Pattern, p: PostgresConfig, user: string, pw: string, dbname: string, extra: string,
                 before: string, rest: string)
    requires m == DSN_PASSWORD
    requires before == BeforePassword(p.host, p.port, user) && rest == AfterPassword(p, dbname, extra)
    ensures Dsn(p, user, Some(pw), dbname, extra) == before + PasswordField(m.key, pw, rest)
    ensures rest != "" && rest[0] == ' '
  {
    KeyText();
    DsnLayout(p, user, pw, dbname, extra);
  }

  /**
    Where the fields before the password stay aligned, a DSN is printed as if its password were empty
    exactly when that password is hidden.
   */
  lemma RedactionHidesPassword(p: PostgresConfig, user: string, pw: string, dbname: string, extra: string)
    requires Aligned(DSN_PASSWORD, p.host, user)
    ensures RedactDSN(Dsn(p, user, Some(pw), dbname, extra)) == RedactDSN(Dsn(p, user, Some(""), dbname, extra))
            <==> Hidden(pw)
  {
    var m, before, rest := DSN_PASSWORD, BeforePassword(p.host, p.port, user), AfterPassword(p, dbname, extra);
    DsnField(m, p, user, pw, dbname, extra, before, rest);
    DsnField(m, p, user, "", dbname, extra, before, rest);
    AlignedIff(m, p.host, p.port, user);
    HidesPassword(m, before, pw, rest);
  }

  /** Redaction hides every hidden password from every reader if and only if the fields are aligned. */
  lemma RedactionNonInterference(p: PostgresConfig, user: string, dbname: string, extra: string)
    ensures (forall pw1, pw2 :: Hidden(pw1) && Hidden(pw2) ==>
               RedactDSN(Dsn(p, user, Some(pw1), dbname, extra)) == RedactDSN(Dsn(p, user, Some(pw2), dbname, extra)))
            <==> Aligned(DSN_PASSWORD, p.host, user)
  {
    var m, before, rest := DSN_PASSWORD, BeforePassword(p.host, p.port, user), AfterPassword(p, dbname, extra);
    forall pw ensures Dsn(p, user, Some(pw), dbname, extra) == before + PasswordField(m.key, pw, rest) {
      DsnField(m, p, user, pw, dbname, extra, before, rest);
    }
    AlignedIff(m, p.host, p.port, user);
    NonInterference(m, before, rest);
  }

  /** Where they are not, two hidden passwords are told apart: the value itself is printed. */
  lemma MisalignedLeaks(p: PostgresConfig, user: string, dbname: string, extra: string)
    requires !Aligned(DSN_PASSWORD, p.host, user)
    ensures Hidden("a b") && Hidden("a c")
    ensures RedactDSN(Dsn(p, user, Some("a b"), dbname, extra)) != RedactDSN(Dsn(p, user, Some("a c"), dbname, extra))
  {
    var m, before, rest := DSN_PASSWORD, BeforePassword(p.host, p.port, user), AfterPassword(p, dbname, extra);
    WitnessPasswords();
    DsnField(m, p, user, "a b", dbname, extra, before, rest);
    DsnField(m, p, user, "a c", dbname, extra, before, rest);
    AlignedIff(m, p.host, p.port, user);
    LeaksPassword(m, before, "a b", "a c", rest);
  }

  // ----- the pg_basebackup command line -----

  function Flags(slot: string): seq<string> {
    ["-X", "stream", "-c", "fast", "-R", "-P"] + if slot == "" then [] else ["-S", slot, "--create-slot"]
  }

  /** The arguments of pg_basebackup (buildBasebackupArgs). */
  function BasebackupArgs(dataDir: string, dsn: string, slot: string): seq<string> {
    ["-D", dataDir, "-d", dsn] + Flags(slot)
  }

  /** What a dry run prints of them. */
  function PrintedArgs(dataDir: string, dsn: string, slot: string): string {
    RedactDSN(Join(BasebackupArgs(dataDir, dsn, slot), " "))
  }

  lemma JoinTwo(a: string, b: string, tail: seq<string>, sep: string)
    requires tail != []
    ensures Join([a, b] + tail, sep) == a + sep + (b + sep + Join(tail, sep))
  {
    JoinCons(b, tail, sep);
    JoinCons(a, [b] + tail, sep);
    assert [a, b] + tail == [a] + ([b] + tail);
  }

  lemma JoinFour(a: string, b: string, c: string, d: string, tail: seq<string>, sep: string)
    requires tail != []
    ensures Join([a, b, c, d] + tail, sep) == a + sep + (b + sep + (c + sep + (d + sep + Join(tail, sep))))
  {
    JoinTwo(c, d, tail, sep);
    JoinTwo(a, b, [c, d] + tail, sep);
    FourAndRest(a, b, c, d, tail);
  }

  /** The arguments, word by word. */
  lemma ArgumentsAre(dataDir: string, dsn: string, slot: string)
    ensures slot == "" ==>
              BasebackupArgs(dataDir, dsn, slot) == ["-D", dataDir, "-d", dsn, "-X", "stream", "-c", "fast", "-R", "-P"]
    ensures slot != "" ==>
              BasebackupArgs(dataDir, dsn, slot)
              == ["-D", dataDir, "-d", dsn, "-X", "stream", "-c", "fast", "-R", "-P", "-S", slot, "--create-slot"]
    ensures PrintedArgs(dataDir, dsn, slot) == RedactDSN(Join(BasebackupArgs(dataDir, dsn, slot), " "))
  {
  }

  /** All that the command line has in front of the password field of its DSN. */
  function BeforeAll(dataDir: string, host: string, port: int, user: string): string {
    "-D " + dataDir + (" -d host=" + QuoteValue(host)) + (Middle(port) + QuoteValue(user))
  }

  lemma CommandText(dataDir: string, host: string, middle: string, user: string, field: string, rest: string, flags: string)
    ensures "-D" + " " + (dataDir + " " + ("-d" + " " + ("host=" + host + middle + user + (" " + (field + rest)) + " " + flags)))
            == "-D " + dataDir + (" -d host=" + host) + (middle + user) + (" " + (field + (rest + (" " + flags))))
  {
    assert "-D" + " " == "-D ";
    assert " " + ("-d" + " " + ("host=" + host)) == " -d host=" + host;
  }

  /** The command line around its password field. */
  lemma ArgsField(m: Pattern, dataDir: string, p: PostgresConfig, user: string, pw: string, dbname: string,
                  extra: string, slot: string, before: string, rest: string)
    requires m == DSN_PASSWORD && before == BeforeAll(dataDir, p.host, p.port, user)
    requires rest == AfterPassword(p, dbname, extra) + (" " + Join(Flags(slot), " "))
    ensures Join(BasebackupArgs(dataDir, Dsn(p, user, Some(pw), dbname, extra), slot), " ")
            == before + PasswordField(m.key, pw, rest)
    ensures rest != "" && rest[0] == ' '
  {
    var dsn, after := Dsn(p, user, Some(pw), dbname, extra), AfterPassword(p, dbname, extra);
    DsnField(m, p, user, pw, dbname, extra, BeforePassword(p.host, p.port, user), after);
    JoinFour("-D", dataDir, "-d", dsn, Flags(slot), " ");
    CommandText(dataDir, QuoteValue(p.host), Middle(p.port), QuoteValue(user), m.key + QuoteValue(pw), after,
                Join(Flags(slot), " "));
  }

  lemma AllAligned(m: Pattern, dataDir: string, host: string, port: int, user: string)
    ensures Outside(m, BeforeAll(dataDir, host, port, user))
            <==> AlignedFrom(m, !Outside(m, "-D " + dataDir), host, user)
  {
    var start, x := "-D " + dataDir, " -d host=";
    assert IsPlain(x);
    OutsideSkips(m, x, QuoteValue(host));
    FieldInside(m, start, x, host);
    UserInside(m, start + (x + QuoteValue(host)), port, user);
  }

  /**
    Non-interference for the printed command line, for any data directory and slot: the scan of "-D" and
    the directory may already end inside a value, which the first quoted field of the DSN then ends.
   */
  lemma CommandLineNonInterference(
      dataDir: string, p: PostgresConfig, user: string, dbname: string, extra: string, slot: string)
    ensures (forall pw1, pw2 :: Hidden(pw1) && Hidden(pw2) ==>
               PrintedArgs(dataDir, Dsn(p, user, Some(pw1), dbname, extra), slot)
               == PrintedArgs(dataDir, Dsn(p, user, Some(pw2), dbname, extra), slot))
            <==> AlignedFrom(DSN_PASSWORD, !Outside(DSN_PASSWORD, "-D " + dataDir), p.host, user)
  {
    var m, before := DSN_PASSWORD, BeforeAll(dataDir, p.host, p.port, user);
    var rest := AfterPassword(p, dbname, extra) + (" " + Join(Flags(slot), " "));
    forall pw ensures Join(BasebackupArgs(dataDir, Dsn(p, user, Some(pw), dbname, extra), slot), " ")
                      == before + PasswordField(m.key, pw, rest)
    {
      ArgsField(m, dataDir, p, user, pw, dbname, extra, slot, before, rest);
    }
    AllAligned(m, dataDir, p.host, p.port, user);
    NonInterference(m, before, rest);
  }

  /** A directory without the keyword leaves the condition that of the DSN alone. */
  lemma PlainDirectory(dataDir: string)
    requires !Contains(dataDir, DSN_PASSWORD.key)
    ensures forall host, user ::
              AlignedFrom(DSN_PASSWORD, !Outside(DSN_PASSWORD, "-D " + dataDir), host, user) == Aligned(DSN_PASSWORD, host, user)
  {
    NoKeyOutside(DSN_PASSWORD, dataDir);
    OutsideSkips(DSN_PASSWORD, "-D ", dataDir);
  }
}
