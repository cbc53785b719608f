/** What a loop does, round by round, in terms of the commands it runs. */
module ScriptLoops {
  import opened Script
  import opened ScriptTree

  /** At s the guard lets a round start, and the body runs from s'. */
  ghost predicate Admits<S>(m: Machine<S>, guard: Guard, handle: nat, s: S, s': S) {
    match guard
    case Plain(condition) =>
      var (s1, text) := m.expandCondition(s, condition);
      m.exec(s1, text) == (s', 0)
    case Stream(name, _) =>
      var (s1, line) := m.readStream(s, handle);
      line.Some? && m.exec(s1, "setenv " + name + " " + line.value).0 == s'
  }

  /** At s the guard ends the loop, which leaves s': the condition fails, or the stream
      is at its end. */
  ghost predicate Refuses<S>(m: Machine<S>, guard: Guard, handle: nat, s: S, s': S) {
    match guard
    case Plain(condition) =>
      var (s1, text) := m.expandCondition(s, condition);
      m.exec(s1, text).0 == s' && m.exec(s1, text).1 != 0
    case Stream(_, _) => m.readStream(s, handle).0 == s' && m.readStream(s, handle).1.None?
  }

  /** A round that starts after o, runs the body from start, and ends in next. */
  ghost predicate IsRound<S>(m: Machine<S>, guard: Guard, handle: nat, body: seq<string>,
                             o: Outcome<S>, start: S, next: Outcome<S>) {
    && o.flow != Break && !m.stopped(o.state) && Admits(m, guard, handle, o.state, start)
    && next == RunLines(m, body, start, o.status)
  }

  /** The states in which the bodies start, and the outcomes they end in, the first
      outcome being what the loop begins with. */
  ghost predicate AreRounds<S>(m: Machine<S>, guard: Guard, handle: nat, body: seq<string>,
                               starts: seq<S>, outcomes: seq<Outcome<S>>) {
    && |outcomes| == |starts| + 1
    && forall k | 0 <= k < |starts| :: IsRound(m, guard, handle, body, outcomes[k], starts[k], outcomes[k + 1])
  }

  /** How a loop ends after the outcome o: by a break, the stop flag or the cap as it is,
      and otherwise by its guard, whose own status does not count. */
  ghost predicate EndsIn<S>(m: Machine<S>, guard: Guard, handle: nat, o: Outcome<S>, capped: bool, r: (S, int)) {
    if o.flow == Break || m.stopped(o.state) || capped then r == (o.state, o.status)
    else Refuses(m, guard, handle, o.state, r.0) && r.1 == o.status
  }

  /** The evaluation of the guard: a failed condition or an ended stream refuses. */
  lemma TestIs<S>(m: Machine<S>, guard: Guard, handle: nat, s: S)
    ensures var (s', go) := Test(m, guard, handle, s);
            if go then Admits(m, guard, handle, s, s') else Refuses(m, guard, handle, s, s')
  {
    match guard
    case Plain(condition) =>
      var (s1, text) := m.expandCondition(s, condition);
      var (s2, status) := m.exec(s1, text);
    case Stream(name, _) =>
      var (s1, line) := m.readStream(s, handle);
  }

  lemma {:induction false} LoopRounds<S>(m: Machine<S>, guard: Guard, handle: nat, body: seq<string>,
                                         s: S, status: int, budget: nat, flow: Flow)
    returns (starts: seq<S>, outcomes: seq<Outcome<S>>)
    requires flow != Break
    ensures AreRounds(m, guard, handle, body, starts, outcomes)
    ensures outcomes[0] == Outcome(s, status, flow) && |starts| <= budget
    ensures EndsIn(m, guard, handle, outcomes[|starts|], |starts| == budget,
                   Iterate(m, guard, handle, body, s, status, budget))
    decreases budget
  {
    var first := Outcome(s, status, flow);
    starts, outcomes := [], [first];
    if !m.stopped(s) && budget > 0 {
      var (s1, go) := Test(m, guard, handle, s);
      TestIs(m, guard, handle, s);
      if go {
        var o := RunLines(m, body, s1, status);
        starts, outcomes := [s1], [first, o];
        if o.flow != Break {
          var starts1, outcomes1 := LoopRounds(m, guard, handle, body, o.state, o.status, budget - 1, o.flow);
          RoundFirst(m, guard, handle, body, first, s1, starts1, outcomes1);
          starts, outcomes := [s1] + starts1, [first] + outcomes1;
        }
      }
    }
  }

  lemma RoundFirst<S>(m: Machine<S>, guard: Guard, handle: nat, body: seq<string>, first: Outcome<S>, start: S,
                      starts: seq<S>, outcomes: seq<Outcome<S>>)
    requires AreRounds(m, guard, handle, body, starts, outcomes)
    requires IsRound(m, guard, handle, body, first, start, outcomes[0])
    ensures AreRounds(m, guard, handle, body, [start] + starts, [first] + outcomes)
  {
    hide IsRound;
    var starts', outcomes' := [start] + starts, [first] + outcomes;
    forall k | 0 <= k < |starts'|
      ensures IsRound(m, guard, handle, body, outcomes'[k], starts'[k], outcomes'[k + 1])
    {
      if k > 0 {
        assert IsRound(m, guard, handle, body, outcomes[k - 1], starts[k - 1], outcomes[k]);
      }
    }
  }

  /** A plain loop: every round that runs is one whose condition succeeded, at most a
      million of them, and the loop ends by a failed condition, a break, the stop flag or
      the cap, and not before. */
  lemma PlainWhile<S>(m: Machine<S>, condition: string, body: seq<string>, s: S)
    returns (starts: seq<S>, outcomes: seq<Outcome<S>>)
    requires GuardOf(condition) == Plain(condition)
    ensures AreRounds(m, Plain(condition), 0, body, starts, outcomes)
    ensures outcomes[0] == Outcome(s, 0, Normal) && |starts| <= 1000000
    ensures EndsIn(m, Plain(condition), 0, outcomes[|starts|], |starts| == 1000000, RunWhile(m, condition, body, s))
  {
    starts, outcomes := LoopRounds(m, Plain(condition), 0, body, s, 0, MAX_ITERATIONS, Normal);
  }

  /** A streaming loop: the stream is opened once, each round sets the variable to the
      next line, no line ends the loop, and the stream is closed however it ends. */
  lemma StreamWhile<S>(m: Machine<S>, condition: string, name: string, command: string, body: seq<string>, s: S)
    returns (starts: seq<S>, outcomes: seq<Outcome<S>>, r: (S, int))
    requires GuardOf(condition) == Stream(name, command)
    ensures var (s1, handle) := m.openStream(s, command);
            if handle.None? then RunWhile(m, condition, body, s) == (s1, 1)
            else
              && AreRounds(m, Stream(name, command), handle.value, body, starts, outcomes)
              && outcomes[0] == Outcome(s1, 0, Normal) && |starts| <= 1000000
              && EndsIn(m, Stream(name, command), handle.value, outcomes[|starts|], |starts| == 1000000, r)
              && RunWhile(m, condition, body, s) == (m.closeStream(r.0, handle.value), r.1)
  {
    var (s1, handle) := m.openStream(s, command);
    starts, outcomes, r := [], [], (s1, 1);
    if handle.Some? {
      r := Iterate(m, Stream(name, command), handle.value, body, s1, 0, MAX_ITERATIONS);
      starts, outcomes := LoopRounds(m, Stream(name, command), handle.value, body, s1, 0, MAX_ITERATIONS, Normal);
    }
  }

  /** The first test decides: a failing condition leaves the loop at once with status 0,
      a succeeding one runs the body from the state it left. */
  lemma FirstTest<S>(m: Machine<S>, condition: string, body: seq<string>, s: S)
    requires GuardOf(condition) == Plain(condition) && !m.stopped(s)
    ensures var (s1, text) := m.expandCondition(s, condition);
            var (s2, tested) := m.exec(s1, text);
            var o := RunLines(m, body, s2, 0);
            && (tested != 0 ==> RunWhile(m, condition, body, s) == (s2, 0))
            && (tested == 0 && o.flow == Break ==> RunWhile(m, condition, body, s) == (o.state, o.status))
  {
    var starts, outcomes := PlainWhile(m, condition, body, s);
    assert |starts| > 0 ==> IsRound(m, Plain(condition), 0, body, outcomes[0], starts[0], outcomes[1]);
    assert |starts| > 1 ==> IsRound(m, Plain(condition), 0, body, outcomes[1], starts[1], outcomes[2]);
    hide RunWhile, RunLines;
  }

  /** The rounds of a tree loop are those of the printed one: each body outcome is the
      meaning of the body's tree. */
  lemma TreeRounds<S>(m: Machine<S>, guard: Guard, handle: nat, body: Block, s: S, status: int, budget: nat)
    returns (starts: seq<S>, outcomes: seq<Outcome<S>>)
    requires WellFormed(body)
    ensures AreRounds(m, guard, handle, Print(body), starts, outcomes)
    ensures outcomes[0] == Outcome(s, status, Normal) && |starts| <= budget
    ensures forall k | 0 <= k < |starts| :: outcomes[k + 1] == RunBlock(m, body, starts[k], outcomes[k].status)
    ensures EndsIn(m, guard, handle, outcomes[|starts|], |starts| == budget,
                   RunLoop(m, guard, handle, body, s, status, budget))
  {
    starts, outcomes := LoopRounds(m, guard, handle, Print(body), s, status, budget, Normal);
    IterationAgrees(m, guard, handle, body, s, status, budget);
    forall k | 0 <= k < |starts|
      ensures outcomes[k + 1] == RunBlock(m, body, starts[k], outcomes[k].status)
    {
      assert IsRound(m, guard, handle, Print(body), outcomes[k], starts[k], outcomes[k + 1]);
      BlockInterpreterAgrees(m, body, starts[k], outcomes[k].status);
    }
  }
}
