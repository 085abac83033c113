/**
 How a POSIX shell reads the rendered text: token recognition and quote removal, sections 2.2
 and 2.3 of the Shell Command Language of POSIX.1-2017. Expansions, operators and patterns are
 outside this fragment, and meeting one unquoted is a refusal.
 */
module Shell {
  import opened Basics
  import opened Command

  /** The token holds a command substitution and no double quote: it is left live for the shell to expand. */
  ghost predicate LeftLive(s: string) {
    '"' !in s && exists before, after :: s == before + "$(" + after
  }

  /** Characters that mean themselves when unquoted. */
  predicate Ordinary(c: char) {
    c !in {'|', '&', ';', '<', '>', '(', ')', '$', '`', '\\', '"', '\'', ' ', '\t', '\n',
           '*', '?', '[', '#', '~', '=', '%'}
  }

  /** The word so far with more text; a quote starts a word even when it adds nothing. */
  function Extend(word: Option<string>, more: string): Option<string> {
    Some((if word.Some? then word.value else "") + more)
  }

  lemma ExtendTwice(word: Option<string>, p: string, q: string)
    ensures Extend(Extend(word, p), q) == Extend(word, p + q)
    ensures word.Some? ==> Extend(word, "") == word
    ensures Extend(None, p) == Some(p)
  {
    var w := if word.Some? then word.value else "";
    assert (w + p) + q == w + (p + q);
    assert w + "" == w && "" + p == p;
  }

  /** The words of the line once the word so far is delimited. */
  function Delimit(word: Option<string>, words: seq<string>): seq<string> {
    if word.Some? then words + [word.value] else words
  }

  /** A finished line in front of the lines after it; a line without words is no command. */
  function Finish(words: seq<string>, rest: Option<seq<seq<string>>>): Option<seq<seq<string>>> {
    if words == [] || rest == None then rest else Some([words] + rest.value)
  }

  /** The argument vectors of the commands in `s`, given the word and words already read on this line. */
  function Lex(s: string, word: Option<string>, words: seq<string>): Option<seq<seq<string>>>
    decreases |s|
  {
    if s == "" then Finish(Delimit(word, words), Some([]))
    else if s[0] == '\n' then Finish(Delimit(word, words), Lex(s[1..], None, []))
    else if s[0] == ' ' || s[0] == '\t' then Lex(s[1..], None, Delimit(word, words))
    else if s[0] == '\'' then
      var k := IndexOf(s[1..], '\'');
      if k == |s[1..]| then None else Lex(s[1..][k + 1..], Extend(word, s[1..][..k]), words)
    else if s[0] == '"' then
      var k := IndexOf(s[1..], '"');
      var inside := s[1..][..k];
      if k == |s[1..]| || '$' in inside || '`' in inside || '\\' in inside then None
      else Lex(s[1..][k + 1..], Extend(word, inside), words)
    else if s[0] == '\\' then
      if |s| == 1 then None
      else if s[1] == '\n' then Lex(s[2..], word, words)
      else Lex(s[2..], Extend(word, [s[1]]), words)
    else if s[0] == '#' && word == None then Lex(s[IndexOf(s, '\n')..], None, words)
    else if Ordinary(s[0]) then Lex(s[1..], Extend(word, [s[0]]), words)
    else None
  }

  // ---------------------------------------------------------------- one word

  lemma {:induction false} SafeLexes(a: string, rest: string, word: Option<string>, words: seq<string>)
    requires forall k :: 0 <= k < |a| ==> SafeChar(a[k])
    requires a != "" || word.Some?
    ensures Lex(a + rest, word, words) == Lex(rest, Extend(word, a), words)
    decreases |a|
  {
    if a == "" {
      assert a + rest == rest;
      ExtendTwice(word, "", "");
    } else {
      assert SafeChar(a[0]);
      assert (a + rest)[1..] == a[1..] + rest;
      assert (a + rest)[0] == a[0] && Ordinary(a[0]);
      assert Lex(a + rest, word, words) == Lex(a[1..] + rest, Extend(word, [a[0]]), words);
      SafeLexes(a[1..], rest, Extend(word, [a[0]]), words);
      assert a == [a[0]] + a[1..];
      ExtendTwice(word, [a[0]], a[1..]);
    }
  }

  lemma {:induction false} EscapeSplit(p: string, q: string)
    requires '\'' !in p
    ensures EscapeQuotes(p + q) == p + EscapeQuotes(q)
  {
    if p == "" {
      assert p + q == q;
    } else {
      assert (p + q)[1..] == p[1..] + q;
      EscapeSplit(p[1..], q);
    }
  }

  /** One quoted run: everything up to the closing quote is literal. */
  lemma {:induction false} RunLexes(p: string, rest: string, word: Option<string>, words: seq<string>)
    requires '\'' !in p
    ensures Lex("'" + p + ("'" + rest), word, words) == Lex(rest, Extend(word, p), words)
  {
    var s := "'" + p + ("'" + rest);
    assert s[1..] == p + ['\''] + rest;
    IndexOfAppend(p, rest, '\'');
    assert s[1..][..|p|] == p;
    assert s[1..][|p| + 1..] == rest;
  }

  /** An escaped quote between two runs. */
  lemma {:induction false} EscapeLexes(tail: string, word: Option<string>, words: seq<string>)
    ensures Lex("\\'" + tail, word, words) == Lex(tail, Extend(word, "'"), words)
  {
    assert ("\\'" + tail)[2..] == tail;
  }

  /** What stands before the first quote and after it, and how that is escaped. */
  lemma {:induction false} QuotedParts(a: string) returns (p: string, q: string)
    requires '\'' in a
    ensures '\'' !in p && a == p + "'" + q && |q| < |a|
    ensures EscapeQuotes(a) == p + ("'\\''" + EscapeQuotes(q))
  {
    var k := IndexOf(a, '\'');
    p, q := a[..k], a[k + 1..];
    assert a == p + ("'" + q) && a == p + "'" + q;
    EscapeSplit(p, "'" + q);
    assert ("'" + q)[1..] == q;
  }

  lemma {:induction false} QuotedLexes(a: string, rest: string, word: Option<string>, words: seq<string>)
    ensures Lex("'" + EscapeQuotes(a) + ("'" + rest), word, words) == Lex(rest, Extend(word, a), words)
    decreases |a|
  {
    hide Lex, EscapeQuotes, Extend;
    if '\'' !in a {
      NothingEscaped(a);
      RunLexes(a, rest, word, words);
    } else {
      var p, q := QuotedParts(a);
      var tail := "'" + EscapeQuotes(q) + ("'" + rest);
      QuotedShape(p, q, rest);
      RunLexes(p, "\\'" + tail, word, words);
      EscapeLexes(tail, Extend(word, p), words);
      QuotedLexes(q, rest, Extend(Extend(word, p), "'"), words);
      ExtendTwice(word, p, "'");
      ExtendTwice(word, p + "'", q);
    }
  }

  lemma NothingEscaped(a: string)
    requires '\'' !in a
    ensures EscapeQuotes(a) == a
  {
    EscapeSplit(a, "");
    assert a + "" == a;
  }

  lemma QuotedShape(p: string, q: string, rest: string)
    ensures "'" + (p + ("'\\''" + EscapeQuotes(q))) + ("'" + rest)
         == "'" + p + ("'" + ("\\'" + ("'" + EscapeQuotes(q) + ("'" + rest))))
  {
  }

  lemma {:induction false} WordLexes(a: string, rest: string, words: seq<string>)
    requires !LeftLive(a)
    ensures Lex(Quote(a) + rest, None, words) == Lex(rest, Some(a), words)
  {
    ExtendTwice(None, a, "");
    if Safe(a) {
      SafeLexes(a, rest, None, words);
    } else {
      NotLive(a);
      QuotedLexes(a, rest, None, words);
      assert Quote(a) + rest == "'" + EscapeQuotes(a) + ("'" + rest);
    }
  }

  lemma NotLive(a: string)
    ensures LeftLive(a) <==> HasSubstitution(a) && '"' !in a
    ensures LeftLive(a) ==> !Safe(a)
  {
    if before, after :| a == before + "$(" + after {
      assert a[|before|] == '$' && a[|before| + 1] == '(';
    }
    if k :| 0 <= k < |a| - 1 && a[k] == '$' && a[k + 1] == '(' {
      assert a == a[..k] + "$(" + a[k + 2..];
    }
  }

  /** A token left live stands between double quotes, so that it stays one word whatever it expands to. */
  lemma LiveIsQuoted(a: string)
    requires LeftLive(a)
    ensures Quote(a) == "\"" + a + "\""
  {
    NotLive(a);
  }

  // ---------------------------------------------------------------- one line

  /** No argument is left for the shell to expand, and there is a command at all. */
  ghost predicate Literal(argv: seq<string>) {
    argv != [] && forall k :: 0 <= k < |argv| ==> !LeftLive(argv[k])
  }

  lemma {:induction false} LineLexes(argv: seq<string>, rest: string, words: seq<string>)
    requires Literal(argv)
    ensures Lex(Line(argv) + rest, None, words)
         == Lex(rest, Some(argv[|argv| - 1]), words + argv[..|argv| - 1])
    decreases |argv|
  {
    hide LeftLive, Quote;
    var a := argv[0];
    if |argv| == 1 {
      assert QuoteAll(argv) == [Quote(a)];
      WordLexes(a, rest, words);
      assert words + argv[..0] == words;
    } else {
      var more := Line(argv[1..]) + rest;
      assert QuoteAll(argv) == [Quote(a)] + QuoteAll(argv[1..]);
      assert QuoteAll(argv)[1..] == QuoteAll(argv[1..]);
      assert Line(argv) + rest == Quote(a) + (" " + more);
      WordLexes(a, " " + more, words);
      assert (" " + more)[1..] == more;
      LineLexes(argv[1..], rest, words + [a]);
      assert words + argv[..|argv| - 1] == (words + [a]) + argv[1..][..|argv| - 2];
    }
  }

  /** A rendered line, up to the end of the line or of the text. */
  lemma {:induction false} LineEnds(argv: seq<string>, rest: string)
    requires Literal(argv)
    ensures Lex(Line(argv), None, []) == Some([argv])
    ensures Lex(Line(argv) + ("\n" + rest), None, []) == Finish(argv, Lex(rest, None, []))
  {
    var n := |argv| - 1;
    assert argv == argv[..n] + [argv[n]];
    assert [] + argv[..n] == argv[..n];
    LineLexes(argv, "", []);
    assert Line(argv) + "" == Line(argv);
    assert Delimit(Some(argv[n]), argv[..n]) == argv;
    assert [argv] + [] == [argv];
    LineLexes(argv, "\n" + rest, []);
    assert ("\n" + rest)[1..] == rest;
  }

  // ---------------------------------------------------------------- layout

  /** How arguments, lines and reasons are laid out, to the character. */
  lemma {:induction false} Layout(a: string, argv: seq<string>, c: Command, script: seq<Command>)
    ensures Line([a]) == Quote(a) && (argv != [] ==> Line([a] + argv) == Quote(a) + " " + Line(argv))
    ensures PlainText([c]) == Line(c.argv)
    ensures script != [] ==> PlainText([c] + script) == Line(c.argv) + "\n" + PlainText(script)
    ensures ShellText([c]) == (if c.why == "" then "" else "# " + c.why + "\n") + Line(c.argv) + "\n"
    ensures script != [] ==> ShellText([c] + script) == ShellText([c]) + "\n" + ShellText(script)
    ensures EscapeQuotes("'" + a) == "'\\''" + EscapeQuotes(a)
  {
    assert ([a] + argv)[1..] == argv && [a][1..] == [];
    assert ([c] + script)[1..] == script && [c][1..] == [];
    assert QuoteAll([a]) == [Quote(a)] && QuoteAll([a] + argv) == [Quote(a)] + QuoteAll(argv);
    assert (QuoteAll([a] + argv))[1..] == QuoteAll(argv);
    assert Lines([c]) == [Line(c.argv)] && Lines([c] + script) == [Line(c.argv)] + Lines(script);
    assert Lines([c] + script)[1..] == Lines(script);
    assert ("'" + a)[1..] == a;
    ShellLayout(c, script);
  }

  lemma ShellLayout(c: Command, script: seq<Command>)
    ensures ShellText([c]) == (if c.why == "" then "" else "# " + c.why + "\n") + Line(c.argv) + "\n"
    ensures script != [] ==> ShellText([c] + script) == ShellText([c]) + "\n" + ShellText(script)
  {
    hide Line;
    assert ([c] + script)[1..] == script && [c][1..] == [];
    assert ShellText([c]) == Annotated(c) + "";
  }

  // ---------------------------------------------------------------- whole scripts

  /** The argument vectors of a script. */
  function Argvs(script: seq<Command>): seq<seq<string>> {
    if script == [] then [] else [script[0].argv] + Argvs(script[1..])
  }

  /** The plain rendering splits back into exactly the argument vectors it was made from. */
  lemma {:induction false} PlainReadsBack(script: seq<Command>)
    requires forall k :: 0 <= k < |script| ==> Literal(script[k].argv)
    ensures Lex(PlainText(script), None, []) == Some(Argvs(script))
    decreases |script|
  {
    if script != [] {
      var argv := script[0].argv;
      assert Literal(argv);
      assert Lines(script) == [Line(argv)] + Lines(script[1..]);
      assert Lines(script)[1..] == Lines(script[1..]);
      if |script| == 1 {
        assert script[1..] == [];
        assert Lines(script) == [Line(argv)] && Argvs(script) == [argv];
        LineEnds(argv, "");
      } else {
        var rest := PlainText(script[1..]);
        assert PlainText(script) == Line(argv) + ("\n" + rest);
        LineEnds(argv, rest);
        PlainReadsBack(script[1..]);
      }
    }
  }

  lemma {:induction false} AnnotatedLexes(c: Command, rest: string)
    requires Literal(c.argv) && '\n' !in c.why
    ensures Lex(Annotated(c) + rest, None, []) == Finish(c.argv, Lex(rest, None, []))
  {
    hide Lex, Line, Finish;
    var line := Line(c.argv) + ("\n" + rest);
    LineEnds(c.argv, rest);
    if c.why == "" {
      assert Annotated(c) + rest == line;
    } else {
      CommentLexes(c.why, line);
      assert Annotated(c) + rest == "# " + c.why + ("\n" + line);
    }
  }

  lemma {:induction false} CommentLexes(why: string, line: string)
    requires '\n' !in why
    ensures Lex("# " + why + ("\n" + line), None, []) == Lex(line, None, [])
  {
    var s := "# " + why + ("\n" + line);
    assert s == ("# " + why) + ['\n'] + line;
    IndexOfAppend("# " + why, line, '\n');
    assert s[|"# " + why|..] == "\n" + line;
    assert ("\n" + line)[1..] == line;
  }

  lemma {:induction false} FollowingLexes(script: seq<Command>)
    requires forall k :: 0 <= k < |script| ==> Literal(script[k].argv) && '\n' !in script[k].why
    ensures Lex(Following(script), None, []) == Some(Argvs(script))
    decreases |script|
  {
    if script != [] {
      assert Literal(script[0].argv);
      var rest := Annotated(script[0]) + Following(script[1..]);
      assert Following(script)[1..] == rest;
      AnnotatedLexes(script[0], Following(script[1..]));
      FollowingLexes(script[1..]);
    }
  }

  /** The annotated rendering denotes the same commands, as long as no reason runs over its line. */
  lemma {:induction false} ShellReadsBack(script: seq<Command>)
    requires forall k :: 0 <= k < |script| ==> Literal(script[k].argv) && '\n' !in script[k].why
    ensures Lex(ShellText(script), None, []) == Some(Argvs(script))
  {
    if script != [] {
      assert Literal(script[0].argv);
      AnnotatedLexes(script[0], Following(script[1..]));
      FollowingLexes(script[1..]);
    }
  }
}
