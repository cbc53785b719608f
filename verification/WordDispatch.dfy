/** A joined argument list on its way back through the shell: the operator and pipe tests of
    src/script.c come before the tokenizer. */
module WordDispatch {
  import opened Text
  import opened Operators
  import opened OperatorCode
  import opened Words
  import opened WordProofs

  // ------------------------------------------------------------------ the dispatch

  /** The operator test of execute_command_line_env looks at the raw line, quotes or not. */
  predicate HasOperator(line: string) {
    exists i | 0 <= i < |line| :: OperatorAt(line, i)
  }

  predicate OperatorAt(line: string, i: nat)
    requires i < |line|
  {
    var c, n := line[i], if i + 1 < |line| then line[i + 1] else NUL;
    c == ';' || c == '&' || (c == '|' && (n == '|' || n == '>')) || ((c == '?' || c == '~') && n == '>')
  }

  /** And so does the pipe test after it. */
  predicate HasPipe(line: string) {
    exists i | 0 <= i < |line| :: PipeAt(line, i)
  }

  predicate PipeAt(line: string, i: nat)
    requires i < |line|
  {
    line[i] == '|' && !NextIs(line, i + 1, '|') && !NextIs(line, i + 1, '>')
  }

  function ParseWords(sh: Shell): string -> seq<string> {
    text => Tokens(sh, "", text)
  }

  /** The line runs as one command with these arguments: as the single command of a chain
      without operators, or through the tokenizer alone. */
  predicate RunsAs(sh: Shell, line: string, args: seq<string>) {
    if HasOperator(line) then
      var parts := SplitFrom("", line, None, 0, false);
      && |parts| == 1 && OpOf(parts[0]) == NoOp
      && NodeOf(ParseWords(sh), parts[0]) == Node(args, false, "", NoOp, false)
    else !HasPipe(line) && Tokens(sh, "", line) == args
  }

  // --------------------------------------------------------------- lines in one piece

  /** The splitter sees no operator: each stands in what it takes for quotes or braces. */
  predicate InOnePiece(rest: string, quote: Option<char>, depth: nat)
    decreases rest
  {
    if rest == "" then true
    else
      var c, rest' := rest[0], rest[1..];
      if quote.None? && (c == '"' || c == '\'') then InOnePiece(rest', Some(c), depth)
      else if quote.Some? then InOnePiece(rest', if c == quote.value then None else quote, depth)
      else if c == '{' then InOnePiece(rest', None, depth + 1)
      else if c == '}' then InOnePiece(rest', None, if depth > 0 then depth - 1 else 0)
      else if depth > 0 then InOnePiece(rest', None, depth)
      else OpHere(rest, false) == "" && InOnePiece(rest', None, 0)
  }

  /** Some part is an operator. */
  ghost predicate Splits(parts: seq<string>) {
    exists k | 0 <= k < |parts| :: OpOf(parts[k]) != NoOp
  }

  lemma OpHereIsOp(rest: string, seen: bool)
    requires rest != "" && OpHere(rest, seen) != ""
    ensures OpOf(OpHere(rest, seen)) != NoOp
  {}

  /** A line in one piece is one part; any other has an operator among its parts. */
  lemma {:induction false} PiecesOfSplit(acc: string, rest: string, quote: Option<char>, depth: nat)
    ensures var parts := SplitFrom(acc, rest, quote, depth, false);
            if InOnePiece(rest, quote, depth) then parts == Segment(acc + rest) else Splits(parts)
    decreases rest
  {
    if rest == "" {
      assert acc + rest == acc;
    } else {
      var c, acc', rest' := rest[0], acc + [rest[0]], rest[1..];
      assert acc' + rest' == acc + rest;
      if quote.None? && (c == '"' || c == '\'') {
        PiecesOfSplit(acc', rest', Some(c), depth);
      } else if quote.Some? {
        PiecesOfSplit(acc', rest', if c == quote.value then None else quote, depth);
      } else if c == '{' {
        PiecesOfSplit(acc', rest', None, depth + 1);
      } else if c == '}' {
        PiecesOfSplit(acc', rest', None, if depth > 0 then depth - 1 else 0);
      } else if depth > 0 {
        PiecesOfSplit(acc', rest', None, depth);
      } else if OpHere(rest, false) == "" {
        PiecesOfSplit(acc', rest', None, 0);
      } else {
        OperatorPart(acc, rest);
      }
    }
  }

  lemma OperatorPart(acc: string, rest: string)
    requires rest != "" && OpHere(rest, false) != "" && rest[0] !in {'"', '\'', '{', '}'}
    ensures Splits(SplitFrom(acc, rest, None, 0, false))
  {
    var op := OpHere(rest, false);
    OpHereIsOp(rest, false);
    var after := SplitFrom("", rest[|op|..], None, 0, true);
    hide OpHere, OpOf, Segment;
    var parts := Segment(acc) + [op] + after;
    assert SplitFrom(acc, rest, None, 0, false) == parts;
    assert parts[|Segment(acc)|] == op;
  }

  /** A line that is itself an operator has none the test sees, or is not in one piece. */
  lemma OnePieceIsCommand(line: string)
    requires OpOf(line) != NoOp
    ensures !HasOperator(line) || !InOnePiece(line, None, 0)
  {
    if line == "|" {
      assert forall i | 0 <= i < |line| :: !OperatorAt(line, i);
    }
  }

  // ------------------------------------------------------------------ joined arguments

  lemma {:induction false} JoinedEnd(args: seq<string>)
    requires args != [] && args[|args| - 1] != ""
    ensures Joined(args) != "" && Joined(args)[|Joined(args)| - 1] !in {' ', '\t'}
    decreases args
  {
    if |args| == 1 {
      var arg := args[0];
      if !NeedsQuote(arg) {
        assert arg[|arg| - 1] in arg;
      }
    } else {
      JoinedEnd(args[1..]);
      assert args[1..][|args| - 2] == args[|args| - 1];
    }
  }

  /** The brace-group test of parse_operators. */
  predicate IsGroup(line: string) {
    var t := SkipBlanks(line);
    |t| >= 2 && t[0] == '{' && t[|t| - 1] == '}'
  }

  /** A line is read as a node with these arguments exactly when it is no brace group, its
      words are these, and the last of them does not ask for the background. */
  lemma NodeIsArgs(sh: Shell, part: string, args: seq<string>)
    ensures NodeOf(ParseWords(sh), part) == Node(args, false, "", NoOp, false) <==>
            && !IsGroup(part) && Tokens(sh, "", part) == args
            && (args != [] ==> args[|args| - 1] != "&")
  {
    assert ParseWords(sh)(part) == Tokens(sh, "", part);
    hide Tokens, SkipBlanks;
  }

  /** What lets a joined line past the two tests in one piece. */
  predicate PassesTests(line: string, args: seq<string>) {
    if HasOperator(line) then InOnePiece(line, None, 0) && !IsGroup(line) && (args != [] ==> args[|args| - 1] != "&")
    else !HasPipe(line)
  }

  /** A joined argument list runs as that one command again exactly when each argument
      survives quoting and the line passes the operator and pipe tests in one piece. */
  lemma RunsAgainIff(sh: Shell, args: seq<string>)
    requires PrintsStatus(sh)
    ensures RunsAs(sh, Joined(args), args) <==>
            (forall k | 0 <= k < |args| :: Exact(args[k])) && PassesTests(Joined(args), args)
  {
    var line := Joined(args);
    JoinSurvivesIff(sh, args);
    if HasOperator(line) {
      WithOperator(sh, args);
    }
  }

  lemma WithOperator(sh: Shell, args: seq<string>)
    requires HasOperator(Joined(args))
    ensures RunsAs(sh, Joined(args), args) <==>
            Tokens(sh, "", Joined(args)) == args && PassesTests(Joined(args), args)
  {
    var line := Joined(args);
    PiecesOfSplit("", line, None, 0);
    assert "" + line == line;
    if InOnePiece(line, None, 0) {
      OnePiece(sh, args);
    } else {
      SplitRunsNot(sh, line, args);
    }
  }

  /** With an operator among its parts, a line is not that one command. */
  lemma SplitRunsNot(sh: Shell, line: string, args: seq<string>)
    requires HasOperator(line) && Splits(SplitFrom("", line, None, 0, false))
    ensures !RunsAs(sh, line, args)
  {
    var parts := SplitFrom("", line, None, 0, false);
    var k :| 0 <= k < |parts| && OpOf(parts[k]) != NoOp;
    assert RunsAs(sh, line, args) ==> k == 0;
    hide *;
  }

  lemma OnePiece(sh: Shell, args: seq<string>)
    requires var line := Joined(args);
             && HasOperator(line) && InOnePiece(line, None, 0)
             && SplitFrom("", line, None, 0, false) == Segment(line)
    ensures RunsAs(sh, Joined(args), args) <==>
            Tokens(sh, "", Joined(args)) == args && PassesTests(Joined(args), args)
  {
    var line := Joined(args);
    assert args != [] && line != "";
    var part := DropTrailing(line, {' ', '\t'});
    assert Segment(line) == [part];
    NodeIsArgs(sh, part, args);
    NoEmptyToken(sh, "", part);
    NoEmptyToken(sh, "", line);
    assert RunsAs(sh, line, args) <==>
           OpOf(part) == NoOp && NodeOf(ParseWords(sh), part) == Node(args, false, "", NoOp, false);
    assert PassesTests(line, args) <==> !IsGroup(line) && args[|args| - 1] != "&";
    if args[|args| - 1] == "" {
      assert "" in args;
    } else {
      JoinedEnd(args);
      assert part == line;
      if OpOf(line) != NoOp {
        OnePieceIsCommand(line);
      }
    }
    hide *;
  }

  // ------------------------------------------------------------------------ instances

  lemma OperatorBreaks(sh: Shell, args: seq<string>)
    requires HasOperator(Joined(args)) && !InOnePiece(Joined(args), None, 0)
    ensures !RunsAs(sh, Joined(args), args)
  {
    WithOperator(sh, args);
  }

  /** The argument a;b survives the tokenizer, but the line is split into two commands. */
  lemma SemicolonSplits(sh: Shell)
    ensures Exact("a;b") && Tokens(sh, "", Joined(["a;b"])) == ["a;b"] && !RunsAs(sh, Joined(["a;b"]), ["a;b"])
  {
    var arg := "a;b";
    assert Joined([arg]) == arg && Plain(arg);
    assert OperatorAt(arg, 1);
    assert !InOnePiece(arg, None, 0) by {
      var rest := arg[1..];
      assert rest[0] == ';' && OpHere(rest, false) == ";";
    }
    hide OpHere, InOnePiece, OperatorAt, Tokens, Joined, RunsAs;
    OperatorBreaks(sh, [arg]);
    JoinRoundTrip(sh, [arg]);
  }

  /** A quoted argument splits as well once it holds a quote: the splitter takes the end of
      the escaped quote for the end of the quoting. */
  lemma QuoteUncoversOperator(sh: Shell)
    ensures Exact("'s;x") && NeedsQuote("'s;x") && !RunsAs(sh, Joined(["'s;x"]), ["'s;x"])
  {
    var arg, line := "'s;x", "''\\''s;x'";
    QuotedIs();
    assert arg[0] == '\'' && NeedsQuote(arg);
    assert Joined([arg]) == line;
    assert OperatorAt(line, 6);
    Uncovered();
    hide InOnePiece, OperatorAt, Joined, RunsAs;
    OperatorBreaks(sh, [arg]);
  }

  lemma QuotedIs()
    ensures Quoted("'s;x") == "''\\''s;x'"
  {
    var arg := "'s;x";
    assert arg[0] == '\'' && NeedsQuote(arg);
    assert arg[1..] == "s;x" && "s;x"[1..] == ";x" && ";x"[1..] == "x" && "x"[1..] == "";
    assert Escaped("x") == "x" && Escaped(";x") == ";x" && Escaped("s;x") == "s;x";
  }

  lemma Uncovered()
    ensures !InOnePiece("''\\''s;x'", None, 0)
  {
    var s0, s1, s2, s3 := "''\\''s;x'", "'\\''s;x'", "\\''s;x'", "''s;x'";
    var s4, s5, s6 := "'s;x'", "s;x'", ";x'";
    assert s0[1..] == s1 && s1[1..] == s2 && s2[1..] == s3 && s3[1..] == s4 && s4[1..] == s5 && s5[1..] == s6;
    assert !InOnePiece(s6, None, 0);
    assert !InOnePiece(s5, None, 0);
    assert !InOnePiece(s3, None, 0);
    assert !InOnePiece(s2, None, 0);
  }
}
