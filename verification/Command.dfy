/** Emitted configuration: argument vectors, and their rendering as shell text. */
module Command {
  import opened Basics

  datatype Command = Command(argv: seq<string>, why: string)

  predicate SafeChar(c: char) {
    'a' <= c <= 'z' || 'A' <= c <= 'Z' || '0' <= c <= '9' || c in {'.', '/', ':', '-', '_'}
  }

  /** A token the shell reads as it stands. */
  predicate Safe(s: string) {
    s != "" && forall k :: 0 <= k < |s| ==> SafeChar(s[k])
  }

  /** The token holds "$(": a command substitution. */
  predicate HasSubstitution(s: string) {
    exists k :: 0 <= k < |s| - 1 && s[k] == '$' && s[k + 1] == '('
  }

  /** Every ' written as '\''. */
  function EscapeQuotes(s: string): string {
    if s == "" then ""
    else (if s[0] == '\'' then "'\\''" else [s[0]]) + EscapeQuotes(s[1..])
  }

  function Quote(s: string): string {
    if Safe(s) then s
    else if HasSubstitution(s) && '"' !in s then "\"" + s + "\""
    else "'" + EscapeQuotes(s) + "'"
  }

  function QuoteAll(argv: seq<string>): (r: seq<string>)
    ensures |r| == |argv|
  {
    if argv == [] then [] else [Quote(argv[0])] + QuoteAll(argv[1..])
  }

  /** One command as a shell line. */
  function Line(argv: seq<string>): string {
    Join(QuoteAll(argv), " ")
  }

  function Lines(script: seq<Command>): (r: seq<string>)
    ensures |r| == |script|
  {
    if script == [] then [] else [Line(script[0].argv)] + Lines(script[1..])
  }

  /** The commands alone. */
  function PlainText(script: seq<Command>): string {
    Join(Lines(script), "\n")
  }

  /** One command with the reason it exists. */
  function Annotated(c: Command): string {
    (if c.why == "" then "" else "# " + c.why + "\n") + (Line(c.argv) + "\n")
  }

  /** The commands from the second on, each after an empty line. */
  function Following(script: seq<Command>): string {
    if script == [] then "" else "\n" + (Annotated(script[0]) + Following(script[1..]))
  }

  function ShellText(script: seq<Command>): string {
    if script == [] then "" else Annotated(script[0]) + Following(script[1..])
  }

  lemma {:induction false} QuoteAllSnoc(argv: seq<string>, a: string)
    ensures QuoteAll(argv + [a]) == QuoteAll(argv) + [Quote(a)]
  {
    if argv == [] {
      assert argv + [a] == [a];
    } else {
      assert (argv + [a])[1..] == argv[1..] + [a];
      QuoteAllSnoc(argv[1..], a);
    }
  }

  lemma {:induction false} LinesSnoc(script: seq<Command>, c: Command)
    ensures Lines(script + [c]) == Lines(script) + [Line(c.argv)]
  {
    if script == [] {
      assert script + [c] == [c];
    } else {
      assert (script + [c])[1..] == script[1..] + [c];
      LinesSnoc(script[1..], c);
    }
  }

  lemma {:induction false} FollowingSnoc(script: seq<Command>, c: Command)
    ensures Following(script + [c]) == Following(script) + ("\n" + Annotated(c))
  {
    if script == [] {
      assert script + [c] == [c];
      assert Following([c]) == "\n" + (Annotated(c) + "");
    } else {
      assert (script + [c])[1..] == script[1..] + [c];
      FollowingSnoc(script[1..], c);
      assert "\n" + (Annotated(script[0]) + (Following(script[1..]) + ("\n" + Annotated(c))))
          == "\n" + (Annotated(script[0]) + Following(script[1..])) + ("\n" + Annotated(c));
    }
  }

  // ---------------------------------------------------------------- the renderers

  /** Whether a token needs no quoting. */
  method IsSafe(s: string) returns (ok: bool)
    ensures ok == Safe(s)
    ensures ok <==>
              s != "" && forall c :: c in s ==>
                'a' <= c <= 'z' || 'A' <= c <= 'Z' || '0' <= c <= '9' || c in {'.', '/', ':', '-', '_'}
  {
    if s == "" {
      return false;
    }
    for i := 0 to |s|
      invariant forall k :: 0 <= k < i ==> SafeChar(s[k])
    {
      if !SafeChar(s[i]) {
        assert s[i] in s;
        return false;
      }
    }
    return true;
  }

  /** Render a command as a shell line. */
  method CommandString(c: Command) returns (line: string)
    ensures line == Line(c.argv)
  {
    var parts: seq<string> := [];
    for i := 0 to |c.argv|
      invariant parts == QuoteAll(c.argv[..i])
    {
      assert c.argv[..i + 1] == c.argv[..i] + [c.argv[i]];
      QuoteAllSnoc(c.argv[..i], c.argv[i]);
      parts := parts + [Quote(c.argv[i])];
    }
    assert c.argv[..|c.argv|] == c.argv;
    line := Join(parts, " ");
  }

  /** Render the commands with no comments. */
  method Plain(script: seq<Command>) returns (text: string)
    ensures text == PlainText(script)
  {
    var lines: seq<string> := [];
    for i := 0 to |script|
      invariant lines == Lines(script[..i])
    {
      assert script[..i + 1] == script[..i] + [script[i]];
      LinesSnoc(script[..i], script[i]);
      var line := CommandString(script[i]);
      lines := lines + [line];
    }
    assert script[..|script|] == script;
    text := Join(lines, "\n");
  }

  /** Render one command per line, each after the reason it exists. */
  method Shell(script: seq<Command>) returns (text: string)
    ensures text == ShellText(script)
  {
    hide ShellText, Line, Annotated;
    text := "";
    assert script[..0] == [];
    EmptyText();
    for i := 0 to |script|
      invariant text == ShellText(script[..i])
    {
      ghost var before := text;
      ShellTextSnoc(script[..i], script[i]);
      assert script[..i + 1] == script[..i] + [script[i]];
      if i > 0 {
        text := text + "\n";
      }
      if script[i].why != "" {
        text := text + ("# " + script[i].why + "\n");
      }
      var line := CommandString(script[i]);
      text := text + (line + "\n");
      AnnotatedStep(before, if i > 0 then "\n" else "", script[i]);
    }
    assert script[..|script|] == script;
  }

  lemma EmptyText()
    ensures ShellText([]) == ""
  {
  }

  /** A command appended piece by piece. */
  lemma AnnotatedStep(before: string, gap: string, c: Command)
    ensures before + gap + (if c.why == "" then "" else "# " + c.why + "\n") + (Line(c.argv) + "\n")
         == before + (gap + Annotated(c))
    ensures before + gap + (Line(c.argv) + "\n") == before + gap + "" + (Line(c.argv) + "\n")
    ensures before == before + ""
  {
  }

  lemma ShellTextSnoc(script: seq<Command>, c: Command)
    ensures ShellText(script + [c]) == ShellText(script) + ((if script == [] then "" else "\n") + Annotated(c))
  {
    if script == [] {
      assert script + [c] == [c];
      assert [c][1..] == [];
    } else {
      assert (script + [c])[1..] == script[1..] + [c];
      FollowingSnoc(script[1..], c);
    }
  }
}
