/** The while/if block interpreter of src/script.c: a flat list of lines is
    turned into nested blocks by depth counters and run by mutual recursion. */
module Script {
  import opened Text

  const MAX_ITERATIONS: nat := 1000000

  datatype Flow = Normal | Break | Continue

  /** What the interpreter needs from the rest of the shell. `S` is everything a
      command can see or change: environment, files, the stop flag, open streams. */
  datatype Machine<!S> = Machine(
    expandLine: (S, string) -> (S, string),       // aliases, $VAR, substitutions
    expandCondition: (S, string) -> (S, string),  // $VAR and substitutions only
    exec: (S, string) -> (S, int),                // execute_command_line_env
    stopped: S -> bool,                           // get_watch_stop
    openStream: (S, string) -> (S, Option<nat>),  // stream_sub_open
    readStream: (S, nat) -> (S, Option<string>),  // stream_sub_read_line
    closeStream: (S, nat) -> S                    // stream_sub_close
  )

  datatype Outcome<S> = Outcome(state: S, status: int, flow: Flow)

  // ---------------------------------------------------------------- line syntax

  function Trim(line: string): string {
    DropTrailing(SkipBlanks(line), {' ', '\t', '\n', '\r'})
  }

  predicate IsWhile(t: string) {
    "while " <= t || t == "while"
  }

  predicate IsIf(t: string) {
    "if " <= t
  }

  predicate IsIgnored(t: string) {
    t == "" || t[0] == '#'
  }

  /** No line is two keywords at once. */
  lemma Keywords()
    ensures !IsIf("else") && !IsIf("fi") && !IsIf("break") && !IsIf("continue")
    ensures !IsWhile("done") && !IsWhile("break") && !IsWhile("continue")
    ensures forall t :: IsWhile(t) ==> !IsIf(t) && !IsIgnored(t)
    ensures forall t :: IsIf(t) ==> !IsIgnored(t)
  {
    assert "if "[0] == 'i' && "if "[1] == 'f' && "while "[0] == 'w' && "while "[1] == 'h';
    assert "else"[0] == 'e' && "done"[0] == 'd' && "break"[0] == 'b' && "continue"[0] == 'c';
  }

  function WhileCondition(t: string): string
    requires IsWhile(t)
  {
    DropTrailing(CutAt(SkipBlanks(t[5..]), ';'), {' ', '\t'})
  }

  function IfCondition(t: string): string
    requires IsIf(t)
  {
    DropTrailing(CutAt(t[3..], ';'), {' ', '\t'})
  }

  /** The text inside the parentheses that open before s, up to the matching one
      (or to the end when there is none). */
  function UpToMatching(s: string, depth: nat): string
    requires depth > 0
  {
    if s == [] then []
    else if s[0] == '(' then [s[0]] + UpToMatching(s[1..], depth + 1)
    else if s[0] == ')' then
      if depth == 1 then [] else [s[0]] + UpToMatching(s[1..], depth - 1)
    else [s[0]] + UpToMatching(s[1..], depth)
  }

  datatype Guard = Plain(condition: string) | Stream(name: string, command: string)

  /** NAME=$<(command) makes a streaming loop, anything else a plain one. */
  function GuardOf(condition: string): Guard {
    var eq := IndexOf(condition, '=');
    if eq < |condition| && "$<(" <= condition[eq + 1..] then
      Stream(condition[..eq], UpToMatching(condition[eq + 4..], 1))
    else
      Plain(condition)
  }

  /** A lone keyword line right after a header is consumed with it. */
  function SkipKeyword(lines: seq<string>, keyword: string): (rest: seq<string>)
    ensures |rest| <= |lines|
  {
    if lines != [] && Trim(lines[0]) == keyword then lines[1..] else lines
  }

  // ----------------------------------------------------- collecting, on sequences

  datatype Collected = Collected(body: seq<string>, rest: seq<string>)

  /** The lines up to the "done" that closes `depth` open while blocks. */
  function CollectBlock(lines: seq<string>, depth: nat): (r: Option<Collected>)
    requires depth > 0
    ensures r.Some? ==> |r.value.body| + |r.value.rest| < |lines|
  {
    if lines == [] then None
    else
      var t := Trim(lines[0]);
      if t == "done" && depth == 1 then Some(Collected([], lines[1..]))
      else
        var depth' := if IsWhile(t) then depth + 1 else if t == "done" then depth - 1 else depth;
        Push(lines[0], CollectBlock(lines[1..], depth'))
  }

  function Push(line: string, r: Option<Collected>): Option<Collected> {
    if r.None? then None else Some(r.value.(body := [line] + r.value.body))
  }

  datatype CollectedIf = CollectedIf(yes: seq<string>, no: seq<string>, rest: seq<string>)

  /** The then- and else-lines up to the "fi" that closes `depth` open ifs. */
  function CollectIf(lines: seq<string>, depth: nat, inElse: bool): (r: Option<CollectedIf>)
    requires depth > 0
    ensures r.Some? ==> |r.value.yes| + |r.value.no| + |r.value.rest| < |lines|
  {
    if lines == [] then None
    else
      var t := Trim(lines[0]);
      if t == "fi" && depth == 1 then Some(CollectedIf([], [], lines[1..]))
      else if t == "else" && depth == 1 then CollectIf(lines[1..], depth, true)
      else
        var depth' := if IsIf(t) then depth + 1 else if t == "fi" then depth - 1 else depth;
        PushIf(lines[0], inElse, CollectIf(lines[1..], depth', inElse))
  }

  function PushIf(line: string, inElse: bool, r: Option<CollectedIf>): Option<CollectedIf> {
    if r.None? then None
    else if inElse then Some(r.value.(no := [line] + r.value.no))
    else Some(r.value.(yes := [line] + r.value.yes))
  }

  // -------------------------------------------------------- running a flat list

  /** Evaluates a loop guard once: the state after it, and whether to run the body. */
  function Test<S>(m: Machine<S>, guard: Guard, handle: nat, s: S): (S, bool) {
    match guard
    case Plain(condition) =>
      var (s1, text) := m.expandCondition(s, condition);
      var (s2, status) := m.exec(s1, text);
      (s2, status == 0)
    case Stream(name, _) =>
      var (s1, line) := m.readStream(s, handle);
      if line.None? then (s1, false)
      else (m.exec(s1, "setenv " + name + " " + line.value).0, true)
  }

  function RunLine<S>(m: Machine<S>, text: string, s: S, status: int): (S, int) {
    var (s1, expanded) := m.expandLine(s, text);
    if expanded == "" then (s1, status) else m.exec(s1, expanded)
  }

  /** execute_line_list as a function of the line list. */
  function RunLines<S>(m: Machine<S>, lines: seq<string>, s: S, status: int): Outcome<S>
    decreases |lines|, 0, 0
  {
    if lines == [] then Outcome(s, status, Normal)
    else
      var t := Trim(lines[0]);
      if IsIgnored(t) then RunLines(m, lines[1..], s, status)
      else if t == "break" then Outcome(s, status, Break)
      else if t == "continue" then Outcome(s, status, Continue)
      else if IsWhile(t) then
        var c := CollectBlock(SkipKeyword(lines[1..], "do"), 1);
        if c.None? then Outcome(s, status, Normal)
        else
          var (s1, status1) := RunWhile(m, WhileCondition(t), c.value.body, s);
          RunLines(m, c.value.rest, s1, status1)
      else if IsIf(t) then
        var c := CollectIf(SkipKeyword(lines[1..], "then"), 1, false);
        if c.None? then Outcome(s, status, Normal)
        else
          var o := RunIf(m, IfCondition(t), c.value.yes, c.value.no, s);
          if o.flow != Normal then o else RunLines(m, c.value.rest, o.state, o.status)
      else
        var (s1, status1) := RunLine(m, t, s, status);
        RunLines(m, lines[1..], s1, status1)
  }

  function RunWhile<S>(m: Machine<S>, condition: string, body: seq<string>, s: S): (S, int)
    decreases |body|, 2, 0
  {
    match GuardOf(condition)
    case Plain(_) => Iterate(m, GuardOf(condition), 0, body, s, 0, MAX_ITERATIONS)
    case Stream(_, command) =>
      var (s1, handle) := m.openStream(s, command);
      if handle.None? then (s1, 1)
      else
        var (s2, status) := Iterate(m, GuardOf(condition), handle.value, body, s1, 0, MAX_ITERATIONS);
        (m.closeStream(s2, handle.value), status)
  }

  function Iterate<S>(m: Machine<S>, guard: Guard, handle: nat, body: seq<string>,
                      s: S, status: int, budget: nat): (S, int)
    decreases |body|, 1, budget
  {
    if m.stopped(s) || budget == 0 then (s, status)
    else
      var (s1, go) := Test(m, guard, handle, s);
      if !go then (s1, status)
      else
        var o := RunLines(m, body, s1, status);
        if o.flow == Break then (o.state, o.status)
        else Iterate(m, guard, handle, body, o.state, o.status, budget - 1)
  }

  function RunIf<S>(m: Machine<S>, condition: string, yes: seq<string>, no: seq<string>, s: S): Outcome<S>
    decreases |yes| + |no|, 1, 0
  {
    var (s1, text) := m.expandCondition(s, condition);
    var (s2, status) := m.exec(s1, text);
    RunLines(m, if status == 0 then yes else no, s2, 0)
  }

  /** The first line decides how the rest is run. */
  lemma FirstLine<S>(m: Machine<S>, lines: seq<string>, i: nat, s: S, status: int)
    requires i < |lines|
    ensures var t, rest := Trim(lines[i]), lines[i + 1..];
            RunLines(m, lines[i..], s, status) ==
            if IsIgnored(t) then RunLines(m, rest, s, status)
            else if t == "break" then Outcome(s, status, Break)
            else if t == "continue" then Outcome(s, status, Continue)
            else if IsWhile(t) then
              var c := CollectBlock(SkipKeyword(rest, "do"), 1);
              if c.None? then Outcome(s, status, Normal)
              else
                var (s1, status1) := RunWhile(m, WhileCondition(t), c.value.body, s);
                RunLines(m, c.value.rest, s1, status1)
            else if IsIf(t) then
              var c := CollectIf(SkipKeyword(rest, "then"), 1, false);
              if c.None? then Outcome(s, status, Normal)
              else
                var o := RunIf(m, IfCondition(t), c.value.yes, c.value.no, s);
                if o.flow != Normal then o else RunLines(m, c.value.rest, o.state, o.status)
            else
              var (s1, status1) := RunLine(m, t, s, status);
              RunLines(m, rest, s1, status1)
  {
    hide Trim, IsIgnored, IsWhile, IsIf, WhileCondition, IfCondition, CollectBlock, CollectIf, RunWhile, RunIf,
         RunLine, SkipKeyword;
    assert lines[i..][0] == lines[i] && lines[i..][1..] == lines[i + 1..];
  }

  lemma NoLines<S>(m: Machine<S>, lines: seq<string>, i: nat, s: S, status: int)
    requires i == |lines|
    ensures RunLines(m, lines[i..], s, status) == Outcome(s, status, Normal)
  {}

  lemma LineIs<S>(m: Machine<S>, text: string, s: S, status: int)
    ensures var (s1, expanded) := m.expandLine(s, text);
            RunLine(m, text, s, status) == if expanded == "" then (s1, status) else m.exec(s1, expanded)
  {}

  // ------------------------------------------------- the interpreter as it runs

  /** detect_streaming_assignment */
  method DetectStreaming(condition: string) returns (guard: Guard)
    ensures guard == GuardOf(condition)
  {
    hide UpToMatching;
    var eq := IndexOf(condition, '=');
    if eq == |condition| || !("$<(" <= condition[eq + 1..]) {
      return Plain(condition);
    }
    var command := Inside(condition[eq + 4..]);
    return Stream(condition[..eq], command);
  }

  /** Its loop over the text after the opening parenthesis. */
  method Inside(text: string) returns (command: string)
    ensures command == UpToMatching(text, 1)
  {
    hide UpToMatching;
    var depth, p := 1, 0;
    assert text[0..] == text && text[..0] == [];
    while p < |text| && depth > 0
      invariant 0 <= p <= |text| && depth >= 0
      invariant depth == 0 ==> UpToMatching(text, 1) == text[..p]
      invariant depth > 0 ==> UpToMatching(text, 1) == text[..p] + UpToMatching(text[p..], depth)
      decreases |text| - p, depth
    {
      InsideStep(text, p, depth);
      if text[p] == '(' {
        depth := depth + 1;
      } else if text[p] == ')' {
        depth := depth - 1;
      }
      if depth > 0 {
        p := p + 1;
      }
    }
    if depth > 0 {
      InsideEnd(text, p, depth);
    }
    return text[..p];
  }

  lemma InsideEnd(text: string, p: nat, depth: nat)
    requires p == |text| && depth > 0
    ensures text[..p] + UpToMatching(text[p..], depth) == text[..p]
  {}

  lemma InsideStep(text: string, p: nat, depth: nat)
    requires p < |text| && depth > 0
    ensures var depth' := if text[p] == '(' then depth + 1 else if text[p] == ')' then depth - 1 else depth;
            text[..p] + UpToMatching(text[p..], depth) ==
            if depth' > 0 then text[..p + 1] + UpToMatching(text[p + 1..], depth') else text[..p]
  {
    assert text[p..][1..] == text[p + 1..];
    assert text[..p + 1] == text[..p] + [text[p]];
    assert text[..p] + [] == text[..p];
  }

  /** A growable list of lines (struct LineList). */
  class LineList {
    var lines: seq<string>

    constructor ()
      ensures lines == []
    {
      lines := [];
    }

    method Add(line: string)
      modifies this
      ensures lines == old(lines) + [line]
    {
      lines := lines + [line];
    }
  }

  /** collect_block_from_list: on success `next` is just past the matching "done". */
  method CollectBlockFromList(outer: LineList, start: nat, body: LineList)
    returns (ok: bool, next: nat)
    requires start <= |outer.lines| && outer != body && body.lines == []
    modifies body
    ensures next <= |outer.lines|
    ensures var c := CollectBlock(outer.lines[start..], 1);
            ok == c.Some? && (ok ==> c.value == Collected(body.lines, outer.lines[next..]))
    ensures !ok ==> next == |outer.lines|
  {
    var depth := 1;
    next := start;
    ghost var goal := CollectBlock(outer.lines[start..], 1);
    PrependNothing(goal);
    while next < |outer.lines|
      invariant start <= next <= |outer.lines| && depth > 0
      invariant outer.lines == old(outer.lines)
      invariant goal == Prepend(body.lines, CollectBlock(outer.lines[next..], depth))
    {
      var raw := outer.lines[next];
      var trimmed := Trim(raw);
      assert outer.lines[next..][1..] == outer.lines[next + 1..];
      PrependPush(body.lines, raw, CollectBlock(outer.lines[next + 1..],
        if IsWhile(trimmed) then depth + 1 else if trimmed == "done" && depth > 1 then depth - 1 else depth));
      next := next + 1;
      if IsWhile(trimmed) {
        depth := depth + 1;
      }
      if trimmed == "done" {
        depth := depth - 1;
        if depth == 0 {
          return true, next;
        }
      }
      body.Add(raw);
    }
    return false, next;
  }

  /** collect_if_from_list: on success `next` is just past the matching "fi". */
  method CollectIfFromList(outer: LineList, start: nat, yes: LineList, no: LineList)
    returns (ok: bool, next: nat)
    requires start <= |outer.lines| && outer != yes && outer != no && yes != no
    requires yes.lines == [] && no.lines == []
    modifies yes, no
    ensures next <= |outer.lines|
    ensures var c := CollectIf(outer.lines[start..], 1, false);
            ok == c.Some? && (ok ==> c.value == CollectedIf(yes.lines, no.lines, outer.lines[next..]))
    ensures !ok ==> next == |outer.lines|
  {
    hide Trim, IsIf, CollectIf;
    var active := yes;
    var depth := 1;
    next := start;
    ghost var goal := CollectIf(outer.lines[start..], 1, false);
    PrependIfNothing(goal);
    while next < |outer.lines|
      invariant start <= next <= |outer.lines| && depth > 0
      invariant outer.lines == old(outer.lines)
      invariant active == yes || active == no
      invariant goal == PrependIf(yes.lines, no.lines, CollectIf(outer.lines[next..], depth, active == no))
    {
      var raw := outer.lines[next];
      var trimmed := Trim(raw);
      assert outer.lines[next..] == [raw] + outer.lines[next + 1..];
      next := next + 1;
      Keywords();
      CollectIfStep(yes.lines, no.lines, raw, outer.lines[next..], depth, active == no);
      if IsIf(trimmed) {
        depth := depth + 1;
      }
      if trimmed == "fi" {
        depth := depth - 1;
        if depth == 0 {
          return true, next;
        }
      }
      if depth == 1 && trimmed == "else" {
        active := no;
        continue;
      }
      active.Add(raw);
    }
    NoFi(outer.lines, next, depth, active == no);
    return false, next;
  }

  lemma NoFi(lines: seq<string>, next: nat, depth: nat, inElse: bool)
    requires next == |lines| && depth > 0
    ensures CollectIf(lines[next..], depth, inElse).None?
  {}

  function Prepend(lines: seq<string>, r: Option<Collected>): Option<Collected> {
    if r.None? then None else Some(r.value.(body := lines + r.value.body))
  }

  lemma PrependNothing(r: Option<Collected>)
    ensures Prepend([], r) == r
  {
    if r.Some? {
      assert [] + r.value.body == r.value.body;
    }
  }

  lemma PrependPush(lines: seq<string>, line: string, r: Option<Collected>)
    ensures Prepend(lines, Push(line, r)) == Prepend(lines + [line], r)
  {
    if r.Some? {
      assert lines + ([line] + r.value.body) == lines + [line] + r.value.body;
    }
  }

  function PrependIf(yes: seq<string>, no: seq<string>, r: Option<CollectedIf>): Option<CollectedIf> {
    if r.None? then None
    else Some(r.value.(yes := yes + r.value.yes, no := no + r.value.no))
  }

  lemma PrependIfNothing(r: Option<CollectedIf>)
    ensures PrependIf([], [], r) == r
  {
    if r.Some? {
      assert [] + r.value.yes == r.value.yes && [] + r.value.no == r.value.no;
    }
  }

  lemma PrependPushIf(yes: seq<string>, no: seq<string>, line: string, inElse: bool, r: Option<CollectedIf>)
    ensures PrependIf(yes, no, PushIf(line, inElse, r)) ==
            if inElse then PrependIf(yes, no + [line], r) else PrependIf(yes + [line], no, r)
  {
    if r.Some? {
      assert yes + ([line] + r.value.yes) == yes + [line] + r.value.yes;
      assert no + ([line] + r.value.no) == no + [line] + r.value.no;
    }
  }

  /** One line of the if collector, seen from what has been collected so far. */
  lemma CollectIfStep(yes: seq<string>, no: seq<string>, line: string, rest: seq<string>, depth: nat, inElse: bool)
    requires depth > 0
    ensures var t := Trim(line);
            var depth' := if IsIf(t) then depth + 1 else if t == "fi" then depth - 1 else depth;
            PrependIf(yes, no, CollectIf([line] + rest, depth, inElse)) ==
            if depth' == 0 then Some(CollectedIf(yes, no, rest))
            else if depth' == 1 && t == "else" then PrependIf(yes, no, CollectIf(rest, depth', true))
            else if inElse then PrependIf(yes, no + [line], CollectIf(rest, depth', inElse))
            else PrependIf(yes + [line], no, CollectIf(rest, depth', inElse))
  {
    var t := Trim(line);
    var depth' := if IsIf(t) then depth + 1 else if t == "fi" then depth - 1 else depth;
    Keywords();
    assert ([line] + rest)[1..] == rest;
    if depth' == 0 {
      assert yes + [] == yes && no + [] == no;
    } else if !(depth' == 1 && t == "else") {
      PrependPushIf(yes, no, line, inElse, CollectIf(rest, depth', inElse));
    }
  }

  /** The interpreter with the shell state it updates through env_ptr. */
  class Interpreter<!S> {
    const m: Machine<S>
    var state: S

    constructor (m: Machine<S>, s: S)
      ensures this.m == m && state == s
    {
      this.m, state := m, s;
    }

    method ExecuteLineList(body: LineList, status0: int) returns (status: int, flow: Flow)
      modifies this
      ensures Outcome(state, status, flow) == RunLines(m, body.lines, old(state), status0)
      decreases |body.lines|, 0, 0
    {
      hide Trim, IsIgnored, IsWhile, IsIf, WhileCondition, IfCondition, CollectBlock, CollectIf, RunWhile, RunIf,
           RunLines, RunLine;
      status := status0;
      var i := 0;
      ghost var goal := RunLines(m, body.lines, state, status);
      while i < |body.lines|
        invariant i <= |body.lines|
        invariant goal == RunLines(m, body.lines[i..], state, status)
        decreases |body.lines| - i
      {
        var trimmed := Trim(body.lines[i]);
        FirstLine(m, body.lines, i, state, status);
        if IsIgnored(trimmed) {
          i := i + 1;
          continue;
        }
        if trimmed == "break" {
          return status, Break;
        }
        if trimmed == "continue" {
          return status, Continue;
        }
        if IsWhile(trimmed) {
          i := i + 1;
          if i < |body.lines| && Trim(body.lines[i]) == "do" {
            assert body.lines[i..][1..] == body.lines[i + 1..];
            i := i + 1;
          }
          var nested := new LineList();
          var ok, next := CollectBlockFromList(body, i, nested);
          i := next;
          if ok {
            status := ExecuteWhileBlock(WhileCondition(trimmed), nested);
          } else {
            NoLines(m, body.lines, i, state, status);
          }
          continue;
        }
        if IsIf(trimmed) {
          i := i + 1;
          if i < |body.lines| && Trim(body.lines[i]) == "then" {
            assert body.lines[i..][1..] == body.lines[i + 1..];
            i := i + 1;
          }
          var yes := new LineList();
          var no := new LineList();
          var ok, next := CollectIfFromList(body, i, yes, no);
          i := next;
          if ok {
            status, flow := ExecuteIfBlock(IfCondition(trimmed), yes, no);
            if flow != Normal {
              return;
            }
          } else {
            NoLines(m, body.lines, i, state, status);
          }
          continue;
        }
        LineIs(m, trimmed, state, status);
        var (s1, expanded) := m.expandLine(state, trimmed);
        state := s1;
        if expanded != "" {
          var (s2, st) := m.exec(state, expanded);
          state, status := s2, st;
        }
        i := i + 1;
      }
      NoLines(m, body.lines, i, state, status);
      return status, Normal;
    }

    method ExecuteWhileBlock(condition: string, body: LineList) returns (status: int)
      modifies this
      ensures (state, status) == RunWhile(m, condition, body.lines, old(state))
      decreases |body.lines|, 2, 0
    {
      var guard := DetectStreaming(condition);
      var handle := 0;
      if guard.Stream? {
        var (s1, h) := m.openStream(state, guard.command);
        state := s1;
        if h.None? {
          return 1;
        }
        handle := h.value;
      }
      status := 0;
      var budget := MAX_ITERATIONS;
      var doBreak := false;
      ghost var goal := Iterate(m, guard, handle, body.lines, state, status, budget);
      while !m.stopped(state) && budget > 0 && !doBreak
        invariant goal == if doBreak then (state, status)
                          else Iterate(m, guard, handle, body.lines, state, status, budget)
        decreases budget
      {
        match guard {
          case Stream(name, _) =>
            var (s1, line) := m.readStream(state, handle);
            state := s1;
            if line.None? {
              break;
            }
            var (s2, _) := m.exec(state, "setenv " + name + " " + line.value);
            state := s2;
          case Plain(text) =>
            var (s1, expanded) := m.expandCondition(state, text);
            var (s2, cs) := m.exec(s1, expanded);
            state := s2;
            if cs != 0 {
              break;
            }
        }
        var flow;
        status, flow := ExecuteLineList(body, status);
        if flow == Break {
          doBreak := true;
        }
        budget := budget - 1;
      }
      assert goal == (state, status);
      if guard.Stream? {
        state := m.closeStream(state, handle);
      }
    }

    method ExecuteIfBlock(condition: string, yes: LineList, no: LineList) returns (status: int, flow: Flow)
      modifies this
      ensures Outcome(state, status, flow) == RunIf(m, condition, yes.lines, no.lines, old(state))
      decreases |yes.lines| + |no.lines|, 1, 0
    {
      var (s1, text) := m.expandCondition(state, condition);
      var (s2, cs) := m.exec(s1, text);
      state := s2;
      if cs != 0 && |no.lines| == 0 {
        return 0, Normal;
      }
      status, flow := ExecuteLineList(if cs == 0 then yes else no, 0);
    }
  }
}
