/** Structured programs, their meaning, and the agreement of the flat block
    interpreter with it. */
module ScriptTree {
  import opened Text
  import opened Script

  /** A statement with the raw script lines it is written on. `opener` is the
      "do"/"then" line, when it stands on a line of its own. */
  datatype Stmt =
    | Ignored(raw: string)
    | Command(raw: string)
    | Jump(raw: string, signal: Flow)
    | Loop(head: string, opener: Option<string>, body: Block, close: string)
    | Choice(head: string, opener: Option<string>, yes: Block, middle: Option<string>, no: Block, close: string)

  datatype Block = Empty | Then(first: Stmt, rest: Block)

  function Opt(line: Option<string>): seq<string> {
    if line.Some? then [line.value] else []
  }

  function PrintStmt(c: Stmt): (lines: seq<string>)
    ensures lines != []
  {
    match c
    case Ignored(raw) => [raw]
    case Command(raw) => [raw]
    case Jump(raw, _) => [raw]
    case Loop(head, opener, body, close) => [head] + (Opt(opener) + (Print(body) + [close]))
    case Choice(head, opener, yes, middle, no, close) =>
      [head] + (Opt(opener) + (Print(yes) + (Opt(middle) + (Print(no) + [close]))))
  }

  function Print(b: Block): seq<string> {
    match b
    case Empty => []
    case Then(first, rest) => PrintStmt(first) + Print(rest)
  }

  /** The keyword stands alone on the opener line; without one, the next line is
      not that keyword (it would be taken for the opener). */
  predicate OpenerOk(opener: Option<string>, keyword: string, body: Block) {
    match opener
    case Some(line) => Trim(line) == keyword
    case None => Print(body) == [] || Trim(Print(body)[0]) != keyword
  }

  predicate IsOrdinary(t: string) {
    !IsIgnored(t) && !IsWhile(t) && !IsIf(t) && t !in {"break", "continue", "done", "else", "fi"}
  }

  /** Every node is written on lines with its own keywords. */
  predicate WellFormedStmt(c: Stmt) {
    match c
    case Ignored(raw) => IsIgnored(Trim(raw))
    case Command(raw) => IsOrdinary(Trim(raw))
    case Jump(raw, signal) =>
      Trim(raw) == (if signal == Break then "break" else "continue") && signal != Normal
    case Loop(head, opener, body, close) =>
      IsWhile(Trim(head)) && OpenerOk(opener, "do", body) && WellFormed(body) && Trim(close) == "done"
    case Choice(head, opener, yes, middle, no, close) =>
      IsIf(Trim(head)) && OpenerOk(opener, "then", yes) && WellFormed(yes) && WellFormed(no) && Trim(close) == "fi" &&
      match middle
      case Some(line) => Trim(line) == "else"
      case None => no == Empty
  }

  predicate WellFormed(b: Block) {
    b.Then? ==> WellFormedStmt(b.first) && WellFormed(b.rest)
  }

  // ------------------------------------------------------- meaning of the tree

  function RunStmt<S>(m: Machine<S>, c: Stmt, s: S, status: int): Outcome<S>
    requires WellFormedStmt(c)
    decreases c, 2, 0
  {
    match c
    case Ignored(_) => Outcome(s, status, Normal)
    case Command(raw) =>
      var (s1, expanded) := m.expandLine(s, Trim(raw));
      if expanded == "" then Outcome(s1, status, Normal)
      else
        var (s2, status2) := m.exec(s1, expanded);
        Outcome(s2, status2, Normal)
    case Jump(_, signal) => Outcome(s, status, signal)
    case Loop(head, _, body, _) =>
      var guard := GuardOf(WhileCondition(Trim(head)));
      if guard.Stream? then
        var (s1, handle) := m.openStream(s, guard.command);
        if handle.None? then Outcome(s1, 1, Normal)
        else
          var (s2, status2) := RunLoop(m, guard, handle.value, body, s1, 0, MAX_ITERATIONS);
          Outcome(m.closeStream(s2, handle.value), status2, Normal)
      else
        var (s1, status1) := RunLoop(m, guard, 0, body, s, 0, MAX_ITERATIONS);
        Outcome(s1, status1, Normal)
    case Choice(head, _, yes, _, no, _) =>
      var (s1, text) := m.expandCondition(s, IfCondition(Trim(head)));
      var (s2, status2) := m.exec(s1, text);
      RunBlock(m, if status2 == 0 then yes else no, s2, 0)
  }

  /** A jump ends the block; the enclosing loop, if any, gives it its meaning. */
  function RunBlock<S>(m: Machine<S>, b: Block, s: S, status: int): Outcome<S>
    requires WellFormed(b)
    decreases b, 0, 0
  {
    match b
    case Empty => Outcome(s, status, Normal)
    case Then(first, rest) =>
      var o := RunStmt(m, first, s, status);
      if o.flow != Normal then o else RunBlock(m, rest, o.state, o.status)
  }

  /** At most `budget` rounds. A plain loop runs its condition as a command and goes on
      while that succeeds; a streaming loop sets its variable to the next line of the
      stream and goes on while there is one. */
  function RunLoop<S>(m: Machine<S>, guard: Guard, handle: nat, body: Block,
                      s: S, status: int, budget: nat): (S, int)
    requires WellFormed(body)
    decreases body, 1, budget, 1
  {
    if m.stopped(s) || budget == 0 then (s, status)
    else match guard
      case Plain(condition) =>
        var (s1, text) := m.expandCondition(s, condition);
        var (s2, tested) := m.exec(s1, text);
        if tested != 0 then (s2, status) else RunRound(m, guard, handle, body, s2, status, budget)
      case Stream(name, _) =>
        var (s1, line) := m.readStream(s, handle);
        if line.None? then (s1, status)
        else
          var s2 := m.exec(s1, "setenv " + name + " " + line.value).0;
          RunRound(m, guard, handle, body, s2, status, budget)
  }

  function RunRound<S>(m: Machine<S>, guard: Guard, handle: nat, body: Block,
                       s: S, status: int, budget: nat): (S, int)
    requires WellFormed(body) && budget > 0
    decreases body, 1, budget, 0
  {
    var o := RunBlock(m, body, s, status);
    if o.flow == Break then (o.state, o.status)
    else RunLoop(m, guard, handle, body, o.state, o.status, budget - 1)
  }

  // ------------------------------------------ collectors step over whole blocks

  /** A while collector with d open loops takes in exactly these lines, leaving d'. */
  ghost predicate Passes(lines: seq<string>, d: nat, d': nat) {
    d > 0 && d' > 0 && forall tail :: PassesInto(lines, tail, d, d')
  }

  predicate PassesInto(lines: seq<string>, tail: seq<string>, d: nat, d': nat)
    requires d > 0 && d' > 0
  {
    CollectBlock(lines + tail, d) == Prepend(lines, CollectBlock(tail, d'))
  }

  lemma PassesBoth(a: seq<string>, b: seq<string>, d: nat, d': nat, d'': nat)
    requires Passes(a, d, d') && Passes(b, d', d'')
    ensures Passes(a + b, d, d'')
  {
    forall tail
      ensures PassesInto(a + b, tail, d, d'')
    {
      assert PassesInto(a, b + tail, d, d') && PassesInto(b, tail, d', d'');
      assert a + b + tail == a + (b + tail);
      var r := CollectBlock(tail, d'');
      if r.Some? {
        assert a + (b + r.value.body) == a + b + r.value.body;
      }
    }
  }

  lemma PassesLine(line: string, d: nat)
    requires d > 0 && (Trim(line) == "done" ==> d > 1)
    ensures Passes([line], d, if IsWhile(Trim(line)) then d + 1 else if Trim(line) == "done" then d - 1 else d)
  {
    var d' := if IsWhile(Trim(line)) then d + 1 else if Trim(line) == "done" then d - 1 else d;
    Keywords();
    forall tail
      ensures PassesInto([line], tail, d, d')
    {
      assert ([line] + tail)[1..] == tail;
    }
  }

  lemma PassesNothing(d: nat)
    requires d > 0
    ensures Passes([], d, d)
  {
    forall tail: seq<string>
      ensures PassesInto([], tail, d, d)
    {
      assert [] + tail == tail;
      PrependNothing(CollectBlock(tail, d));
    }
  }

  lemma PassesOpt(line: Option<string>, d: nat)
    requires d > 0 && (line.Some? ==> Trim(line.value) in {"do", "then", "else"})
    ensures Passes(Opt(line), d, d)
  {
    if line.Some? {
      assert "do"[0] == 'd' && |"do"| == 2 && "then"[0] == 't' && "else"[0] == 'e' && "while "[0] == 'w';
      PassesLine(line.value, d);
    } else {
      PassesNothing(d);
    }
  }

  /** A while collector passes over a whole well-formed block, at any depth: the
      "done" lines inside it are never taken for its own. */
  lemma {:induction false} CollectBlockOver(b: Block, d: nat)
    requires WellFormed(b) && d > 0
    ensures Passes(Print(b), d, d)
    decreases b
  {
    if b.Then? {
      Keywords();
      match b.first {
        case Ignored(raw) => PassesLine(raw, d);
        case Command(raw) => PassesLine(raw, d);
        case Jump(raw, _) => PassesLine(raw, d);
        case Loop(head, opener, body, close) =>
          CollectBlockOver(body, d + 1);
          PassesLine(close, d + 1);
          PassesBoth(Print(body), [close], d + 1, d + 1, d);
          PassesOpt(opener, d + 1);
          PassesBoth(Opt(opener), Print(body) + [close], d + 1, d + 1, d);
          PassesLine(head, d);
          PassesBoth([head], Opt(opener) + (Print(body) + [close]), d, d + 1, d);
        case Choice(head, opener, yes, middle, no, close) =>
          CollectBlockOver(yes, d);
          CollectBlockOver(no, d);
          PassesChoice(b.first, d);
      }
      CollectBlockOver(b.rest, d);
      PassesBoth(PrintStmt(b.first), Print(b.rest), d, d, d);
    } else {
      PassesNothing(d);
    }
  }

  lemma PassesChoice(c: Stmt, d: nat)
    requires WellFormedStmt(c) && c.Choice? && Passes(Print(c.yes), d, d) && Passes(Print(c.no), d, d)
    ensures Passes(PrintStmt(c), d, d)
  {
    Keywords();
    PassesLine(c.close, d);
    PassesBoth(Print(c.no), [c.close], d, d, d);
    PassesOpt(c.middle, d);
    PassesBoth(Opt(c.middle), Print(c.no) + [c.close], d, d, d);
    PassesBoth(Print(c.yes), Opt(c.middle) + (Print(c.no) + [c.close]), d, d, d);
    PassesOpt(c.opener, d);
    PassesBoth(Opt(c.opener), Print(c.yes) + (Opt(c.middle) + (Print(c.no) + [c.close])), d, d, d);
    PassesLine(c.head, d);
    PassesBoth([c.head], Opt(c.opener) + (Print(c.yes) + (Opt(c.middle) + (Print(c.no) + [c.close]))), d, d, d);
  }

  /** Prepending to whichever branch is being collected. */
  function PrependActive(lines: seq<string>, inElse: bool, r: Option<CollectedIf>): Option<CollectedIf> {
    if inElse then PrependIf([], lines, r) else PrependIf(lines, [], r)
  }

  /** An if collector with d open ifs takes in exactly these lines, leaving d'. */
  ghost predicate PassesIf(lines: seq<string>, d: nat, d': nat) {
    d > 0 && d' > 0 && forall tail, inElse :: PassesIfInto(lines, tail, d, d', inElse)
  }

  predicate PassesIfInto(lines: seq<string>, tail: seq<string>, d: nat, d': nat, inElse: bool)
    requires d > 0 && d' > 0
  {
    CollectIf(lines + tail, d, inElse) == PrependActive(lines, inElse, CollectIf(tail, d', inElse))
  }

  lemma PassesIfBoth(a: seq<string>, b: seq<string>, d: nat, d': nat, d'': nat)
    requires PassesIf(a, d, d') && PassesIf(b, d', d'')
    ensures PassesIf(a + b, d, d'')
  {
    forall tail, inElse
      ensures PassesIfInto(a + b, tail, d, d'', inElse)
    {
      assert PassesIfInto(a, b + tail, d, d', inElse) && PassesIfInto(b, tail, d', d'', inElse);
      hide CollectIf;
      assert a + b + tail == a + (b + tail);
      PrependBoth(a, b, inElse, CollectIf(tail, d'', inElse));
    }
  }

  lemma PrependBoth(a: seq<string>, b: seq<string>, inElse: bool, r: Option<CollectedIf>)
    ensures PrependActive(a, inElse, PrependActive(b, inElse, r)) == PrependActive(a + b, inElse, r)
  {
    if r.Some? {
      assert a + (b + r.value.yes) == a + b + r.value.yes && [] + r.value.yes == r.value.yes;
      assert a + (b + r.value.no) == a + b + r.value.no && [] + r.value.no == r.value.no;
    }
  }

  lemma PassesIfLine(line: string, d: nat)
    requires d > 0 && (Trim(line) in {"fi", "else"} ==> d > 1)
    ensures PassesIf([line], d, if IsIf(Trim(line)) then d + 1 else if Trim(line) == "fi" then d - 1 else d)
  {
    Keywords();
    var d' := if IsIf(Trim(line)) then d + 1 else if Trim(line) == "fi" then d - 1 else d;
    forall tail, inElse
      ensures PassesIfInto([line], tail, d, d', inElse)
    {
      assert ([line] + tail)[1..] == tail;
      var r := CollectIf(tail, d', inElse);
      if r.Some? {
        assert [] + r.value.yes == r.value.yes && [] + r.value.no == r.value.no;
      }
    }
  }

  lemma PassesIfNothing(d: nat)
    requires d > 0
    ensures PassesIf([], d, d)
  {
    forall tail: seq<string>, inElse
      ensures PassesIfInto([], tail, d, d, inElse)
    {
      assert [] + tail == tail;
      PrependIfNothing(CollectIf(tail, d, inElse));
    }
  }

  lemma PassesIfOpt(line: Option<string>, d: nat)
    requires d > 0
    requires line.Some? ==> Trim(line.value) in {"do", "then", "else"} && (Trim(line.value) == "else" ==> d > 1)
    ensures PassesIf(Opt(line), d, d)
  {
    if line.Some? {
      assert "do"[0] == 'd' && "then"[0] == 't' && "else"[0] == 'e' && "fi"[0] == 'f' && "if "[0] == 'i';
      PassesIfLine(line.value, d);
    } else {
      PassesIfNothing(d);
    }
  }

  /** An if collector passes over a whole well-formed block, at any depth: the
      "else" and "fi" lines inside it are never taken for its own. */
  lemma {:induction false} CollectIfOver(b: Block, d: nat)
    requires WellFormed(b) && d > 0
    ensures PassesIf(Print(b), d, d)
    decreases b
  {
    if b.Then? {
      Keywords();
      match b.first {
        case Ignored(raw) => PassesIfLine(raw, d);
        case Command(raw) => PassesIfLine(raw, d);
        case Jump(raw, _) => PassesIfLine(raw, d);
        case Loop(head, opener, body, close) =>
          CollectIfOver(body, d);
          PassesIfLine(close, d);
          PassesIfBoth(Print(body), [close], d, d, d);
          PassesIfOpt(opener, d);
          PassesIfBoth(Opt(opener), Print(body) + [close], d, d, d);
          PassesIfLine(head, d);
          PassesIfBoth([head], Opt(opener) + (Print(body) + [close]), d, d, d);
        case Choice(head, opener, yes, middle, no, close) =>
          CollectIfOver(yes, d + 1);
          CollectIfOver(no, d + 1);
          PassesIfChoice(b.first, d);
      }
      CollectIfOver(b.rest, d);
      PassesIfBoth(PrintStmt(b.first), Print(b.rest), d, d, d);
    } else {
      PassesIfNothing(d);
    }
  }

  lemma PassesIfChoice(c: Stmt, d: nat)
    requires d > 0 && WellFormedStmt(c) && c.Choice?
    requires PassesIf(Print(c.yes), d + 1, d + 1) && PassesIf(Print(c.no), d + 1, d + 1)
    ensures PassesIf(PrintStmt(c), d, d)
  {
    var e := d + 1;
    Keywords();
    PassesIfLine(c.close, e);
    PassesIfBoth(Print(c.no), [c.close], e, e, d);
    PassesIfOpt(c.middle, e);
    PassesIfBoth(Opt(c.middle), Print(c.no) + [c.close], e, e, d);
    PassesIfBoth(Print(c.yes), Opt(c.middle) + (Print(c.no) + [c.close]), e, e, d);
    PassesIfOpt(c.opener, e);
    PassesIfBoth(Opt(c.opener), Print(c.yes) + (Opt(c.middle) + (Print(c.no) + [c.close])), e, e, d);
    PassesIfLine(c.head, d);
    PassesIfBoth([c.head], Opt(c.opener) + (Print(c.yes) + (Opt(c.middle) + (Print(c.no) + [c.close]))), d, e, d);
  }

  // ----------------------------------------------------------------- agreement

  lemma SkipsOpener(opener: Option<string>, keyword: string, body: Block, next: string, tail: seq<string>)
    requires OpenerOk(opener, keyword, body) && Trim(next) != keyword
    ensures SkipKeyword(Opt(opener) + (Print(body) + ([next] + tail)), keyword) == Print(body) + ([next] + tail)
  {
    var rest := Print(body) + ([next] + tail);
    if opener.Some? {
      assert (Opt(opener) + rest)[1..] == rest;
    } else {
      assert Opt(opener) + rest == rest;
    }
  }

  /** What the interpreter collects at a while header is exactly the loop's body. */
  lemma CollectsLoop(c: Stmt, tail: seq<string>)
    requires WellFormedStmt(c) && c.Loop?
    ensures CollectBlock(SkipKeyword((PrintStmt(c) + tail)[1..], "do"), 1) == Some(Collected(Print(c.body), tail))
  {
    var t := [c.close] + tail;
    assert (PrintStmt(c) + tail)[1..] == Opt(c.opener) + (Print(c.body) + t);
    assert "done"[2] == 'n';
    SkipsOpener(c.opener, "do", c.body, c.close, tail);
    CollectBlockOver(c.body, 1);
    assert PassesInto(Print(c.body), t, 1, 1);
    assert t[1..] == tail;
    assert Print(c.body) + [] == Print(c.body);
  }

  /** What it collects at an if header is exactly the two branches. */
  lemma CollectsChoice(c: Stmt, tail: seq<string>)
    requires WellFormedStmt(c) && c.Choice?
    ensures CollectIf(SkipKeyword((PrintStmt(c) + tail)[1..], "then"), 1, false) ==
            Some(CollectedIf(Print(c.yes), Print(c.no), tail))
  {
    var end := AfterYes(c, tail);
    AfterHead(c, tail);
    assert "else"[0] == 'e' && "fi"[0] == 'f' && "then"[0] == 't';
    SkipsOpener(c.opener, "then", c.yes, end[0], end[1..]);
    assert [end[0]] + end[1..] == end;
    CollectIfOver(c.yes, 1);
    assert PassesIfInto(Print(c.yes), end, 1, 1, false);
    CollectsEnd(c, tail);
    assert Print(c.yes) + [] == Print(c.yes) && [] + Print(c.no) == Print(c.no);
  }

  /** The printed lines of a choice from just after its then-branch. */
  function AfterYes(c: Stmt, tail: seq<string>): (end: seq<string>)
    requires c.Choice?
    ensures end != []
  {
    Opt(c.middle) + (Print(c.no) + ([c.close] + tail))
  }

  lemma AfterHead(c: Stmt, tail: seq<string>)
    requires c.Choice?
    ensures (PrintStmt(c) + tail)[1..] == Opt(c.opener) + (Print(c.yes) + AfterYes(c, tail))
  {
    var close := Print(c.no) + [c.close];
    var rest := Print(c.yes) + (Opt(c.middle) + close);
    assert close + tail == Print(c.no) + ([c.close] + tail);
    assert (Opt(c.middle) + close) + tail == Opt(c.middle) + (close + tail);
    assert rest + tail == Print(c.yes) + ((Opt(c.middle) + close) + tail);
    assert PrintStmt(c) + tail == [c.head] + (Opt(c.opener) + (rest + tail));
  }

  lemma CollectsEnd(c: Stmt, tail: seq<string>)
    requires WellFormedStmt(c) && c.Choice?
    ensures CollectIf(AfterYes(c, tail), 1, false) == Some(CollectedIf([], Print(c.no), tail))
  {
    if c.middle.Some? {
      CollectsElse(c.middle.value, c.no, c.close, tail);
    } else {
      assert AfterYes(c, tail) == [c.close] + tail;
      assert ([c.close] + tail)[1..] == tail;
    }
  }

  lemma CollectsElse(middle: string, no: Block, close: string, tail: seq<string>)
    requires Trim(middle) == "else" && Trim(close) == "fi" && WellFormed(no)
    ensures CollectIf([middle] + (Print(no) + ([close] + tail)), 1, false) == Some(CollectedIf([], Print(no), tail))
  {
    var end := [close] + tail;
    Keywords();
    assert ([middle] + (Print(no) + end))[1..] == Print(no) + end;
    assert "else"[0] == 'e' && "fi"[0] == 'f';
    CollectIfOver(no, 1);
    assert PassesIfInto(Print(no), end, 1, 1, true);
    assert end[1..] == tail;
    assert Print(no) + [] == Print(no);
  }

  /** The main result: running the printed lines is running the tree. Final state,
      exit status and break/continue signal agree, iteration cap included. */
  lemma {:induction false} BlockInterpreterAgrees<S>(m: Machine<S>, b: Block, s: S, status: int)
    requires WellFormed(b)
    ensures RunLines(m, Print(b), s, status) == RunBlock(m, b, s, status)
    decreases b, 0, 0
  {
    if b.Then? {
      var lines, tail := Print(b), Print(b.rest);
      var t := Trim(lines[0]);
      Keywords();
      match b.first
      case Ignored(raw) =>
        assert PrintStmt(b.first) == [raw];
        assert lines[1..] == tail;
        BlockInterpreterAgrees(m, b.rest, s, status);
      case Command(raw) =>
        assert PrintStmt(b.first) == [raw];
        assert lines[1..] == tail;
        var (s1, status1) := RunLine(m, t, s, status);
        BlockInterpreterAgrees(m, b.rest, s1, status1);
      case Jump(raw, signal) =>
      case Loop(head, opener, body, close) =>
        CollectsLoop(b.first, tail);
        LoopAgrees(m, b.first, s, status);
        var (s1, status1) := RunWhile(m, WhileCondition(t), Print(body), s);
        BlockInterpreterAgrees(m, b.rest, s1, status1);
      case Choice(head, opener, yes, middle, no, close) =>
        CollectsChoice(b.first, tail);
        var (s1, text) := m.expandCondition(s, IfCondition(t));
        var (s2, status2) := m.exec(s1, text);
        BlockInterpreterAgrees(m, if status2 == 0 then yes else no, s2, 0);
        var o := RunStmt(m, b.first, s, status);
        BlockInterpreterAgrees(m, b.rest, o.state, o.status);
    }
  }

  lemma LoopAgrees<S>(m: Machine<S>, c: Stmt, s: S, status: int)
    requires WellFormedStmt(c) && c.Loop?
    ensures var (s1, status1) := RunWhile(m, WhileCondition(Trim(c.head)), Print(c.body), s);
            RunStmt(m, c, s, status) == Outcome(s1, status1, Normal)
    decreases c, 0, 0
  {
    var guard := GuardOf(WhileCondition(Trim(c.head)));
    if guard.Stream? {
      var (s1, handle) := m.openStream(s, guard.command);
      if handle.Some? {
        IterationAgrees(m, guard, handle.value, c.body, s1, 0, MAX_ITERATIONS);
      }
    } else {
      IterationAgrees(m, guard, 0, c.body, s, 0, MAX_ITERATIONS);
    }
  }

  lemma {:induction false} IterationAgrees<S>(m: Machine<S>, guard: Guard, handle: nat, body: Block,
                                              s: S, status: int, budget: nat)
    requires WellFormed(body)
    ensures Iterate(m, guard, handle, Print(body), s, status, budget) ==
            RunLoop(m, guard, handle, body, s, status, budget)
    decreases body, 1, budget
  {
    if !m.stopped(s) && budget > 0 {
      var (s1, go) := Test(m, guard, handle, s);
      if go {
        BlockInterpreterAgrees(m, body, s1, status);
        var o := RunBlock(m, body, s1, status);
        if o.flow != Break {
          IterationAgrees(m, guard, handle, body, o.state, o.status, budget - 1);
        }
      }
    }
  }
}
