/** execute_script of src/script.c: a whole script file, and what running it means. */
module ScriptRun {
  import opened Text
  import opened Script
  import opened ScriptFile
  import opened ScriptTree

  /** What a top-level command does beyond its own effect: it is entered in the history
      before it runs, and its status becomes $? afterwards. */
  datatype Hooks<!S> = Hooks(remember: (S, string) -> S, report: (S, int) -> S)

  // ------------------------------------------------------------- line continuation

  /** Whether the end of a line is inside quotes. */
  function QuotesAfter(s: string, single: bool, double: bool): bool
    decreases s
  {
    if s == "" then single || double
    else if s[0] == '\'' && !double then QuotesAfter(s[1..], !single, double)
    else if s[0] == '"' && !single then QuotesAfter(s[1..], single, !double)
    else QuotesAfter(s[1..], single, double)
  }

  predicate Continues(line: string) {
    line != "" && line[|line| - 1] == '\\' && !QuotesAfter(line[..|line| - 1], false, false)
  }

  /** A line with its continuation lines joined on, as far as they fit, and what is left. */
  function Logical(line: string, rest: seq<string>): (r: (string, seq<string>))
    ensures |r.1| <= |rest|
    decreases |rest|
  {
    if !Continues(line) then (line, rest)
    else
      var cut := line[..|line| - 1];
      if rest == [] then (cut, [])
      else Logical(Joined(cut, rest[0]), rest[1..])
  }

  function Joined(cut: string, next: string): string {
    cut + Take(next, if |cut| < LINE_SIZE then LINE_SIZE - |cut| - 1 else 0)
  }

  // ------------------------------------------------------------------- whole scripts

  function TopLine<S>(m: Machine<S>, h: Hooks<S>, line: string, s: S, status: int): (S, int) {
    var (s1, expanded) := m.expandLine(s, Trim(line));
    if expanded == "" then (s1, status)
    else
      var (s2, status2) := m.exec(h.remember(s1, line), expanded);
      (h.report(s2, status2), status2)
  }

  /** execute_script on the lines of the file. At this level "break" and "continue" are
      commands like any other, an if without "fi" runs what was read, and a while without
      "done" ends the script with status 1. */
  function RunScript<S>(m: Machine<S>, h: Hooks<S>, lines: seq<string>, s: S, status: int): (S, int)
    decreases |lines|
  {
    if lines == [] then (s, status)
    else if lines[0] == "" || "#!" <= lines[0] then RunScript(m, h, lines[1..], s, status)
    else
      var (line, rest) := Logical(lines[0], lines[1..]);
      var t := Trim(line);
      if IsIgnored(t) then RunScript(m, h, rest, s, status)
      else if "while " <= t then
        var c := CollectBlock(SkipKeyword(rest, "do"), 1);
        if c.None? then (s, 1)
        else
          var (s1, status1) := RunWhile(m, WhileCondition(t), c.value.body, s);
          RunScript(m, h, c.value.rest, s1, status1)
      else if IsIf(t) then
        var g := Gather(SkipKeyword(rest, "then"), 1, false).0;
        var o := RunIf(m, IfCondition(t), g.yes, g.no, s);
        RunScript(m, h, g.rest, o.state, o.status)
      else
        var (s1, status1) := TopLine(m, h, line, s, status);
        RunScript(m, h, rest, s1, status1)
  }

  class Shell<!S> {
    const m: Machine<S>
    const h: Hooks<S>
    const blocks: Interpreter<S>

    constructor (m: Machine<S>, h: Hooks<S>, s: S)
      ensures this.m == m && this.h == h && fresh(blocks) && blocks.m == m && blocks.state == s
    {
      this.m, this.h := m, h;
      this.blocks := new Interpreter(m, s);
    }

    method Inside(line: string, length: nat) returns (quoted: bool)
      requires length <= |line|
      ensures quoted == QuotesAfter(line[..length], false, false)
    {
      var inSingle, inDouble, i := false, false, 0;
      ghost var text := line[..length];
      while i < length
        invariant i <= length
        invariant QuotesAfter(text, false, false) == QuotesAfter(text[i..], inSingle, inDouble)
      {
        assert text[i..][0] == line[i] && text[i..][1..] == text[i + 1..];
        if line[i] == '\'' && !inDouble {
          inSingle := !inSingle;
        } else if line[i] == '"' && !inSingle {
          inDouble := !inDouble;
        }
        i := i + 1;
      }
      assert text[i..] == "";
      quoted := inSingle || inDouble;
    }

    method ReadLogical(f: File, first: string) returns (line: string)
      requires f.Valid()
      modifies f
      ensures f.Valid() && f.pos >= old(f.pos)
      ensures (line, f.left) == Logical(first, old(f.left))
    {
      hide QuotesAfter, FileLines, Joined;
      line := first;
      while |line| > 0 && line[|line| - 1] == '\\'
        invariant f.Valid() && f.pos >= old(f.pos)
        invariant Logical(first, old(f.left)) == Logical(line, f.left)
        decreases |f.text| - f.pos
      {
        ghost var before := f.left;
        var quoted := Inside(line, |line| - 1);
        if quoted {
          break;
        }
        var cut := line[..|line| - 1];
        var next := f.ReadLine();
        if next.None? {
          return cut;
        }
        assert before[0] == next.value && before[1..] == f.left;
        line := Joined(cut, next.value);
      }
    }

    /** The lookahead for a "do" or "then" line: read a line, and seek back if it is not. */
    method SkipOpener(f: File, keyword: string)
      requires f.Valid()
      modifies f
      ensures f.Valid() && f.pos >= old(f.pos) && f.left == SkipKeyword(old(f.left), keyword)
    {
      hide FileLines, Trim;
      var position := f.pos;
      ghost var before := f.left;
      var line := f.ReadLine();
      if line.Some? {
        assert before[0] == line.value && before[1..] == f.left;
        if Trim(line.value) != keyword {
          f.pos := position;
          f.left := before;
        }
      }
    }

    method ExecuteScript(f: File) returns (status: int)
      requires f.Valid() && blocks.m == m
      modifies f, blocks
      ensures f.Valid()
      ensures (blocks.state, status) == RunScript(m, h, old(f.left), old(blocks.state), 0)
    {
      hide FileLines, Trim, IsIgnored, IsIf, WhileCondition, IfCondition, CollectBlock, Gather, RunWhile, RunIf,
           Logical, SkipKeyword;
      status := 0;
      ghost var goal := RunScript(m, h, f.left, blocks.state, status);
      while true
        invariant f.Valid() && blocks.m == m
        invariant goal == RunScript(m, h, f.left, blocks.state, status)
        decreases |f.text| - f.pos
      {
        ghost var before, s := f.left, blocks.state;
        var read := f.ReadLine();
        if read.None? {
          return;
        }
        assert before[0] == read.value && before[1..] == f.left;
        if read.value == "" || "#!" <= read.value {
          continue;
        }
        var line := ReadLogical(f, read.value);
        var t := Trim(line);
        if IsIgnored(t) {
          continue;
        }
        if "while " <= t {
          SkipOpener(f, "do");
          var body := new LineList();
          var ok := CollectBlockFromFile(f, body);
          if !ok {
            return 1;
          }
          status := blocks.ExecuteWhileBlock(WhileCondition(t), body);
          continue;
        }
        if IsIf(t) {
          SkipOpener(f, "then");
          var yes := new LineList();
          var no := new LineList();
          var found := CollectIfFromFile(f, yes, no);
          var flow;
          status, flow := blocks.ExecuteIfBlock(IfCondition(t), yes, no);
          continue;
        }
        status := ExecuteTopLine(line, status);
      }
    }

    method ExecuteTopLine(line: string, status0: int) returns (status: int)
      requires blocks.m == m
      modifies blocks
      ensures (blocks.state, status) == TopLine(m, h, line, old(blocks.state), status0)
    {
      var (s1, expanded) := m.expandLine(blocks.state, Trim(line));
      blocks.state := s1;
      if expanded == "" {
        return status0;
      }
      blocks.state := h.remember(blocks.state, line);
      var (s2, status2) := m.exec(blocks.state, expanded);
      status := status2;
      blocks.state := h.report(s2, status);
    }
  }

  // ---------------------------------------------------------- agreement with the tree

  /** The first line of a statement, written on these lines of the file: each but the
      last ends in a backslash outside quotes and takes in the next one. A "#!" line is
      skipped before it could. */
  predicate Breaks(parts: seq<string>, line: string) {
    parts != [] && JoinsTo(parts[0], parts[1..], line) && (|parts| == 1 || !("#!" <= parts[0]))
  }

  predicate JoinsTo(first: string, more: seq<string>, line: string)
    decreases more
  {
    if !Continues(first) then more == [] && line == first
    else more != [] && JoinsTo(Joined(first[..|first| - 1], more[0]), more[1..], line)
  }

  /** A script with the first lines of its top-level statements broken like this. */
  function PrintBroken(b: Block, heads: seq<seq<string>>): seq<string>
    requires |heads| == Statements(b)
    decreases b
  {
    match b
    case Empty => []
    case Then(first, rest) => heads[0] + PrintStmt(first)[1..] + PrintBroken(rest, heads[1..])
  }

  function Statements(b: Block): nat {
    match b
    case Empty => 0
    case Then(_, rest) => 1 + Statements(rest)
  }

  predicate BreaksAll(b: Block, heads: seq<seq<string>>)
    requires |heads| == Statements(b)
    decreases b
  {
    b.Then? ==> Breaks(heads[0], PrintStmt(b.first)[0]) && BreaksAll(b.rest, heads[1..])
  }

  /** No top-level statement starts with a line that continues. Lines inside loops and
      conditionals may end in any way: the collectors take them as they are. */
  predicate WholeHeads(b: Block) {
    b.Then? ==> !Continues(PrintStmt(b.first)[0]) && WholeHeads(b.rest)
  }

  lemma {:induction false} JoinedIsLogical(first: string, more: seq<string>, line: string, tail: seq<string>)
    requires JoinsTo(first, more, line)
    ensures Logical(first, more + tail) == (line, tail) && !Continues(line)
    ensures Continues(first) ==> first != ""
    decreases more
  {
    hide Joined, QuotesAfter;
    if Continues(first) {
      assert (more + tail)[1..] == more[1..] + tail;
      JoinedIsLogical(Joined(first[..|first| - 1], more[0]), more[1..], line, tail);
    } else {
      assert more + tail == tail;
    }
  }

  /** A broken line is read as the line it stands for. */
  lemma HeadIsJoined<S>(m: Machine<S>, h: Hooks<S>, parts: seq<string>, line: string, tail: seq<string>, s: S,
                        status: int)
    requires Breaks(parts, line)
    ensures RunScript(m, h, parts + tail, s, status) == RunScript(m, h, [line] + tail, s, status)
  {
    if |parts| == 1 {
      assert parts == [line];
    } else {
      JoinedIsLogical(parts[0], parts[1..], line, tail);
      assert (parts + tail)[0] == parts[0] && (parts + tail)[1..] == parts[1..] + tail;
      assert ([line] + tail)[1..] == tail;
      assert Continues(parts[0]);
      assert Logical(line, tail) == (line, tail);
      ShebangIsIgnored(line);
      NothingIsIgnored();
      hide Trim, IsIgnored, IsIf, WhileCondition, IfCondition, CollectBlock, Gather, RunWhile, RunIf, SkipKeyword,
           Continues, TopLine, Logical;
    }
  }

  lemma NothingIsIgnored()
    ensures IsIgnored(Trim(""))
  {}

  /** A top-level statement: not a jump, and a loop spelt "while " with a condition. */
  predicate TopLevelStmt(c: Stmt) {
    match c
    case Jump(_, _) => false
    case Loop(head, _, _, _) => "while " <= Trim(head)
    case _ => true
  }

  predicate TopLevel(b: Block) {
    b.Then? ==> TopLevelStmt(b.first) && TopLevel(b.rest)
  }

  /** The meaning of a script: its statements in order, each to its end. A command that
      expands to something is remembered as it was read, and its status reported. */
  function RunTop<S>(m: Machine<S>, h: Hooks<S>, b: Block, s: S, status: int): (S, int)
    requires WellFormed(b)
    decreases b
  {
    match b
    case Empty => (s, status)
    case Then(Command(raw), rest) =>
      var (s1, expanded) := m.expandLine(s, Trim(raw));
      if expanded == "" then RunTop(m, h, rest, s1, status)
      else
        var (s2, status2) := m.exec(h.remember(s1, raw), expanded);
        RunTop(m, h, rest, h.report(s2, status2), status2)
    case Then(first, rest) =>
      var o := RunStmt(m, first, s, status);
      RunTop(m, h, rest, o.state, o.status)
  }

  lemma KeywordLine(line: string)
    requires IsWhile(Trim(line)) || IsIf(Trim(line)) || IsOrdinary(Trim(line))
    ensures line != "" && !("#!" <= line) && !IsIgnored(Trim(line))
  {
    Keywords();
    ShebangIsIgnored(line);
  }

  lemma ShebangIsIgnored(line: string)
    ensures "#!" <= line ==> IsIgnored(Trim(line))
  {
    if "#!" <= line {
      assert line[0] == '#';
      assert SkipBlanks(line) == line;
      FirstStays(line);
    }
  }

  lemma {:induction false} FirstStays(s: string)
    requires s != ""
    ensures var d := DropTrailing(s, {' ', '\t', '\n', '\r'}); d != "" && d[0] == s[0]
    decreases |s|
  {
    if |s| > 1 {
      FirstStays(s[..|s| - 1]);
    }
  }

  /** The first line of a printed statement is read as itself. */
  lemma HeadIsLogical<S>(m: Machine<S>, h: Hooks<S>, line: string, rest: seq<string>, s: S, status: int)
    requires !Continues(line)
    requires IsWhile(Trim(line)) || IsIf(Trim(line)) || IsOrdinary(Trim(line))
    ensures var t := Trim(line);
            RunScript(m, h, [line] + rest, s, status) ==
            if "while " <= t then
              var c := CollectBlock(SkipKeyword(rest, "do"), 1);
              if c.None? then (s, 1)
              else
                var (s1, status1) := RunWhile(m, WhileCondition(t), c.value.body, s);
                RunScript(m, h, c.value.rest, s1, status1)
            else if IsIf(t) then
              var g := Gather(SkipKeyword(rest, "then"), 1, false).0;
              var o := RunIf(m, IfCondition(t), g.yes, g.no, s);
              RunScript(m, h, g.rest, o.state, o.status)
            else
              var (s1, status1) := TopLine(m, h, line, s, status);
              RunScript(m, h, rest, s1, status1)
  {
    KeywordLine(line);
    assert ([line] + rest)[1..] == rest;
    assert Logical(line, rest) == (line, rest);
    hide Trim, IsIgnored, IsIf, IsWhile, WhileCondition, IfCondition, CollectBlock, Gather, RunWhile, RunIf,
         SkipKeyword, Continues, TopLine, IsOrdinary, Logical;
  }

  /** At the top level a jump is a command like any other; in a block it ends the block. */
  lemma JumpAtTopLevel<S>(m: Machine<S>, h: Hooks<S>, line: string, rest: seq<string>, s: S, status: int)
    requires !Continues(line) && Trim(line) in {"break", "continue"}
    ensures var (s', status') := TopLine(m, h, line, s, status);
            RunScript(m, h, [line] + rest, s, status) == RunScript(m, h, rest, s', status')
    ensures RunLines(m, [line] + rest, s, status) ==
            Outcome(s, status, if Trim(line) == "break" then Break else Continue)
  {
    Keywords();
    assert "break"[0] == 'b' && "continue"[0] == 'c' && "while "[0] == 'w' && "if "[0] == 'i';
    ShebangIsIgnored(line);
    assert ([line] + rest)[1..] == rest;
    assert Logical(line, rest) == (line, rest);
    hide Trim, Continues, Logical, TopLine;
  }

  /** An if without its fi runs what was read at the top level, and nothing in a block. */
  lemma IfWithoutFi<S>(m: Machine<S>, h: Hooks<S>, line: string, rest: seq<string>, s: S, status: int)
    requires !Continues(line) && IsIf(Trim(line)) && CollectIf(SkipKeyword(rest, "then"), 1, false).None?
    ensures var g := Gather(SkipKeyword(rest, "then"), 1, false).0;
            var o := RunIf(m, IfCondition(Trim(line)), g.yes, g.no, s);
            RunScript(m, h, [line] + rest, s, status) == (o.state, o.status)
    ensures RunLines(m, [line] + rest, s, status) == Outcome(s, status, Normal)
  {
    Keywords();
    NotWhile(Trim(line));
    HeadIsLogical(m, h, line, rest, s, status);
    GatherIsCollect(SkipKeyword(rest, "then"), 1, false);
    UnfinishedTakesAll(SkipKeyword(rest, "then"), 1, false);
    assert ([line] + rest)[1..] == rest;
    assert "break"[0] == 'b' && "continue"[0] == 'c' && "if "[0] == 'i';
    hide Trim, Gather, CollectIf, RunIf, SkipKeyword, IfCondition;
  }

  lemma {:induction false} UnfinishedTakesAll(lines: seq<string>, depth: nat, inElse: bool)
    requires depth > 0 && !Gather(lines, depth, inElse).1
    ensures Gather(lines, depth, inElse).0.rest == []
    decreases lines
  {
    if lines != [] {
      var t := Trim(lines[0]);
      var depth' := if IsIf(t) then depth + 1 else if t == "fi" then depth - 1 else depth;
      UnfinishedTakesAll(lines[1..], depth', inElse || (depth' == 1 && t == "else"));
    }
  }

  /** A lone "while" is a command at the top level, and a loop header in a block. */
  lemma BareWhile<S>(m: Machine<S>, h: Hooks<S>, line: string, rest: seq<string>, s: S, status: int)
    requires !Continues(line) && Trim(line) == "while"
    ensures var (s', status') := TopLine(m, h, line, s, status);
            RunScript(m, h, [line] + rest, s, status) == RunScript(m, h, rest, s', status')
    ensures CollectBlock(SkipKeyword(rest, "do"), 1).None? ==>
              RunLines(m, [line] + rest, s, status) == Outcome(s, status, Normal)
    ensures CollectBlock(SkipKeyword(rest, "do"), 1).Some? ==>
              var c := CollectBlock(SkipKeyword(rest, "do"), 1).value;
              var (s', status') := RunWhile(m, WhileCondition("while"), c.body, s);
              RunLines(m, [line] + rest, s, status) == RunLines(m, c.rest, s', status')
  {
    Keywords();
    assert !("while " <= "while") && "while"[0] == 'w' && "break"[0] == 'b' && "continue"[0] == 'c';
    HeadIsLogical(m, h, line, rest, s, status);
    assert ([line] + rest)[1..] == rest;
    hide Trim, CollectBlock, RunWhile, SkipKeyword, TopLine;
  }

  lemma IgnoredIsSkipped<S>(m: Machine<S>, h: Hooks<S>, line: string, rest: seq<string>, s: S, status: int)
    requires !Continues(line) && IsIgnored(Trim(line))
    ensures RunScript(m, h, [line] + rest, s, status) == RunScript(m, h, rest, s, status)
  {
    assert ([line] + rest)[1..] == rest;
    assert Logical(line, rest) == (line, rest);
    hide Trim, IsIgnored, Continues, Logical;
  }

  /** Running a script whose lines print a tree, with its top-level statements broken over
      continuation lines in any way, is running the tree. */
  lemma {:induction false} BrokenScriptAgrees<S>(m: Machine<S>, h: Hooks<S>, b: Block, heads: seq<seq<string>>, s: S,
                                                 status: int)
    requires WellFormed(b) && TopLevel(b) && |heads| == Statements(b) && BreaksAll(b, heads)
    ensures RunScript(m, h, PrintBroken(b, heads), s, status) == RunTop(m, h, b, s, status)
    decreases b
  {
    if b.Then? {
      var lines := PrintStmt(b.first);
      var more := PrintBroken(b.rest, heads[1..]);
      var body := lines[1..] + more;
      Assoc(heads[0], lines[1..], more);
      assert [lines[0]] + body == lines + more;
      HeadIsJoined(m, h, heads[0], lines[0], body, s, status);
      JoinedIsLogical(heads[0][0], heads[0][1..], lines[0], []);
      var o := StmtAgrees(m, h, b.first, more, s, status);
      BrokenScriptAgrees(m, h, b.rest, heads[1..], o.0, o.1);
    }
  }

  /** The same for scripts without continuation lines. */
  lemma {:induction false} ScriptAgrees<S>(m: Machine<S>, h: Hooks<S>, b: Block, s: S, status: int)
    requires WellFormed(b) && TopLevel(b) && WholeHeads(b)
    ensures RunScript(m, h, Print(b), s, status) == RunTop(m, h, b, s, status)
    decreases b
  {
    if b.Then? {
      assert Print(b) == PrintStmt(b.first) + Print(b.rest);
      var o := StmtAgrees(m, h, b.first, Print(b.rest), s, status);
      ScriptAgrees(m, h, b.rest, o.0, o.1);
    }
  }

  lemma StmtAgrees<S>(m: Machine<S>, h: Hooks<S>, c: Stmt, tail: seq<string>, s: S, status: int) returns (o: (S, int))
    requires WellFormedStmt(c) && TopLevelStmt(c) && !Continues(PrintStmt(c)[0])
    ensures o == if c.Command? then TopLine(m, h, c.raw, s, status)
                 else (RunStmt(m, c, s, status).state, RunStmt(m, c, s, status).status)
    ensures RunScript(m, h, PrintStmt(c) + tail, s, status) == RunScript(m, h, tail, o.0, o.1)
  {
    var lines := PrintStmt(c);
    var more := (lines + tail)[1..];
    assert lines + tail == [lines[0]] + more;
    match c
    case Ignored(raw) =>
      assert more == tail;
      IgnoredIsSkipped(m, h, raw, tail, s, status);
      o := (s, status);
    case Command(raw) =>
      assert more == tail;
      HeadIsLogical(m, h, raw, tail, s, status);
      NotWhile(Trim(raw));
      o := TopLine(m, h, raw, s, status);
    case Loop(head, _, body, _) =>
      HeadIsLogical(m, h, head, more, s, status);
      CollectsLoop(c, tail);
      LoopAgrees(m, c, s, status);
      o := RunWhile(m, WhileCondition(Trim(head)), Print(body), s);
    case Choice(head, _, yes, _, no, _) =>
      HeadIsLogical(m, h, head, more, s, status);
      Keywords();
      NotWhile(Trim(head));
      CollectsChoice(c, tail);
      GatherIsCollect(SkipKeyword(more, "then"), 1, false);
      ChoiceAgrees(m, c, s, status);
      var r := RunIf(m, IfCondition(Trim(head)), Print(yes), Print(no), s);
      o := (r.state, r.status);
  }

  lemma NotWhile(t: string)
    ensures !IsWhile(t) ==> !("while " <= t)
  {}

  lemma ChoiceAgrees<S>(m: Machine<S>, c: Stmt, s: S, status: int)
    requires WellFormedStmt(c) && c.Choice?
    ensures RunStmt(m, c, s, status) == RunIf(m, IfCondition(Trim(c.head)), Print(c.yes), Print(c.no), s)
  {
    var (s1, text) := m.expandCondition(s, IfCondition(Trim(c.head)));
    var (s2, status2) := m.exec(s1, text);
    BlockInterpreterAgrees(m, if status2 == 0 then c.yes else c.no, s2, 0);
  }

  /** The same from the bytes of the file. */
  lemma FileAgrees<S>(m: Machine<S>, h: Hooks<S>, b: Block, heads: seq<seq<string>>, s: S)
    requires WellFormed(b) && TopLevel(b) && |heads| == Statements(b) && BreaksAll(b, heads)
    requires forall l | l in PrintBroken(b, heads) :: FitsLine(l) && NUL !in l
    ensures RunScript(m, h, FileLines(Unlines(PrintBroken(b, heads))), s, 0) == RunTop(m, h, b, s, 0)
  {
    FileLinesOfUnlines(PrintBroken(b, heads));
    CStringsWithoutNul(PrintBroken(b, heads));
    BrokenScriptAgrees(m, h, b, heads, s, 0);
  }
}
