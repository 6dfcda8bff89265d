/**
  Quoting of values spliced into remote shell commands (internal/shellquote), read back by an
  independent tokenizer for the POSIX.1-2017 Shell Command Language: section 2.3 (token
  recognition), 2.2.1 (backslash) and 2.2.2 (single quotes). The tokenizer gives up on every
  unquoted character that would start an expansion, an operator, a comment or a pattern.
 */
module ShellQuote {
  import opened Util

  // ----- the quoter -----

  /** The characters a shell treats identically quoted or bare. */
  predicate IsSafeChar(c: char) {
    IsAlnum(c) || c in {'@', '%', '+', '=', ':', ',', '.', '/', '-', '_'}
  }

  predicate IsSafe(s: string) {
    forall i :: 0 <= i < |s| ==> IsSafeChar(s[i])
  }

  /** Closes the quotes around each single quote, escapes it, and reopens them. */
  function ReplaceQuotes(s: string): string {
    if s == "" then ""
    else (if s[0] == '\'' then "'\\''" else [s[0]]) + ReplaceQuotes(s[1..])
  }

  function Quote(s: string): string {
    if s == "" then "''"
    else if IsSafe(s) then s
    else "'" + ReplaceQuotes(s) + "'"
  }

  function QuoteAll(words: seq<string>): seq<string> {
    if words == [] then [] else [Quote(words[0])] + QuoteAll(words[1..])
  }

  /** A command line: quoted words separated by single spaces. */
  function CommandLine(words: seq<string>): string {
    Join(QuoteAll(words), " ")
  }

  // ----- the reader -----

  /** Where the tokenizer stands: between words, in a word, or inside single quotes of a word. */
  datatype Mode = Blank | Word(text: string) | Single(text: string)

  predicate IsBlank(c: char) { c == ' ' || c == '\t' }

  /** Unquoted, these start an operator, an expansion, a pattern or end the command. */
  predicate IsSpecial(c: char) {
    c in {'|', '&', ';', '<', '>', '(', ')', '$', '`', '"', '\n', '*', '?', '['}
  }

  /** Meaningful only where a word starts: comments and tilde expansion. */
  predicate IsSpecialAtStart(c: char) { c == '#' || c == '~' }

  function Cons(w: string, r: Option<seq<string>>): Option<seq<string>> {
    match r
    case None => None
    case Some(ws) => Some([w] + ws)
  }

  /** The words of `s`, or None where `s` is not a plain list of words. */
  function Read(s: string, mode: Mode): Option<seq<string>>
    decreases |s|
  {
    if s == "" then
      match mode
      case Blank => Some([])
      case Word(w) => Some([w])
      case Single(_) => None
    else
      var c, rest := s[0], s[1..];
      if c == '\0' then None
      else match mode
      case Single(w) => Read(rest, if c == '\'' then Word(w) else Single(w + [c]))
      case Blank =>
        if IsBlank(c) then Read(rest, Blank)
        else if c == '\'' then Read(rest, Single(""))
        else if c == '\\' then ReadEscape(rest, mode)
        else if IsSpecial(c) || IsSpecialAtStart(c) then None
        else Read(rest, Word([c]))
      case Word(w) =>
        if IsBlank(c) then Cons(w, Read(rest, Blank))
        else if c == '\'' then Read(rest, Single(w))
        else if c == '\\' then ReadEscape(rest, mode)
        else if IsSpecial(c) then None
        else Read(rest, Word(w + [c]))
  }

  /** After an unquoted backslash: a newline is a line continuation, anything else is literal. */
  function ReadEscape(s: string, mode: Mode): Option<seq<string>>
    requires !mode.Single?
    decreases |s|
  {
    if s == "" || s[0] == '\0' then None
    else if s[0] == '\n' then Read(s[1..], mode)
    else Read(s[1..], Word((if mode.Word? then mode.text else "") + [s[0]]))
  }

  // ----- round trip -----

  predicate NulFree(s: string) { '\0' !in s }

  lemma ReadSingle(c: char, rest: string, w: string)
    requires c != '\0'
    ensures Read([c] + rest, Single(w)) == Read(rest, if c == '\'' then Word(w) else Single(w + [c]))
  {
    assert ([c] + rest)[1..] == rest;
  }

  /** An embedded quote is closed, escaped and reopened: four characters that read as one. */
  lemma ReadReopened(rest: string, w: string)
    ensures Read("'\\''" + rest, Single(w)) == Read(rest, Single(w + "'"))
  {
    var t0, t1 := "\\''" + rest, "'" + rest;
    assert "'\\''" + rest == ['\''] + t0;
    ReadSingle('\'', t0, w);
    assert t0[1..] == ['\''] + t1;
    assert Read(t0, Word(w)) == ReadEscape(t0[1..], Word(w));
    assert ReadEscape(['\''] + t1, Word(w)) == Read(t1, Word(w + "'")) by {
      assert (['\''] + t1)[1..] == t1;
    }
    assert t1[1..] == rest;
  }

  /** Reading quoted text from inside the quotes yields the original text, or fails at a NUL. */
  lemma {:induction false} ReadReplaced(s: string, rest: string, w: string)
    ensures Read(ReplaceQuotes(s) + "'" + rest, Single(w))
            == if NulFree(s) then Read(rest, Word(w + s)) else None
  {
    if s == "" {
      assert ReplaceQuotes(s) + "'" + rest == ['\''] + rest;
      ReadSingle('\'', rest, w);
      assert w + s == w;
    } else {
      var tail := ReplaceQuotes(s[1..]) + "'" + rest;
      assert s == [s[0]] + s[1..];
      assert w + s == w + [s[0]] + s[1..];
      if s[0] == '\'' {
        assert ReplaceQuotes(s) + "'" + rest == "'\\''" + tail;
        ReadReopened(tail, w);
        ReadReplaced(s[1..], rest, w + "'");
      } else {
        assert ReplaceQuotes(s) + "'" + rest == [s[0]] + tail;
        if s[0] != '\0' {
          ReadSingle(s[0], tail, w);
          ReadReplaced(s[1..], rest, w + [s[0]]);
        }
      }
    }
  }

  /** Safe text needs no quotes: it extends the current word character by character. */
  lemma {:induction false} ReadSafe(s: string, rest: string, w: string)
    requires IsSafe(s)
    ensures Read(s + rest, Word(w)) == Read(rest, Word(w + s))
  {
    if s == "" {
      assert s + rest == rest && w + s == w;
    } else {
      assert s + rest == [s[0]] + (s[1..] + rest);
      assert w + s == w + [s[0]] + s[1..];
      ReadSafe(s[1..], rest, w + [s[0]]);
    }
  }

  lemma ReadOpenQuote(rest: string)
    ensures Read(['\''] + rest, Blank) == Read(rest, Single(""))
  {
    assert (['\''] + rest)[1..] == rest;
  }

  lemma ReadBare(c: char, rest: string)
    requires IsSafeChar(c)
    ensures Read([c] + rest, Blank) == Read(rest, Word([c]))
  {
    assert ([c] + rest)[1..] == rest;
  }

  lemma {:induction false} ReplacedLength(s: string)
    ensures |ReplaceQuotes(s)| >= |s|
  {
    if s != "" { ReplacedLength(s[1..]); }
  }

  /** A value is left bare exactly if it has a character and only such as need no quotes. */
  lemma BareIff(s: string)
    ensures Quote(s) == s
            <==> s != "" && forall i :: 0 <= i < |s| ==> IsAlnum(s[i]) || s[i] in "@%+=:,./-_"
  {
    ReplacedLength(s);
    assert forall c :: c in "@%+=:,./-_" <==> c in {'@', '%', '+', '=', ':', ',', '.', '/', '-', '_'};
  }

  /** A quoted value at the start of a word reads as exactly that value. */
  lemma ReadQuoted(s: string, rest: string)
    ensures Read(Quote(s) + rest, Blank) == if NulFree(s) then Read(rest, Word(s)) else None
  {
    if s != "" && IsSafe(s) {
      ReadBare(s[0], s[1..] + rest);
      assert s + rest == [s[0]] + (s[1..] + rest);
      assert [s[0]] + s[1..] == s;
      ReadSafe(s[1..], rest, [s[0]]);
    } else {
      var tail := ReplaceQuotes(s) + "'" + rest;
      assert Quote(s) + rest == ['\''] + tail;
      ReadOpenQuote(tail);
      ReadReplaced(s, rest, "");
      assert "" + s == s;
    }
  }

  ghost predicate AllNulFree(words: seq<string>) {
    forall i :: 0 <= i < |words| ==> NulFree(words[i])
  }

  /**
    Round trip: a command line of quoted words tokenizes to exactly those words. A NUL is the
    only obstacle, and no argument vector can hold one.
   */
  lemma {:induction false} RoundTrip(words: seq<string>)
    ensures Read(CommandLine(words), Blank) == if AllNulFree(words) then Some(words) else None
  {
    if words == [] {
    } else if |words| == 1 {
      assert QuoteAll(words) == [Quote(words[0])];
      assert Quote(words[0]) + "" == Quote(words[0]);
      ReadQuoted(words[0], "");
      assert [words[0]] == words;
    } else {
      var q := QuoteAll(words[1..]);
      assert QuoteAll(words)[1..] == q && |q| > 0;
      var rest := " " + Join(q, " ");
      assert CommandLine(words) == Quote(words[0]) + rest;
      ReadQuoted(words[0], rest);
      assert rest[1..] == CommandLine(words[1..]);
      RoundTrip(words[1..]);
      assert words == [words[0]] + words[1..];
    }
  }
}
