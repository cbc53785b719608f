/** What a chain does at each node, by the fields of the nodes alone: which commands run,
    which start in the background, and which operators act on which nodes. */
module OperatorTraces {
  import opened Text
  import opened Operators
  import opened OperatorProofs

  // ------------------------------------------------------------- the date range

  predicate IsDigits(s: string, n: nat) {
    |s| == n && forall c | c in s :: IsDigit(c)
  }

  ghost predicate IsDate(s: string) {
    exists y, m, d :: IsDigits(y, 4) && IsDigits(m, 2) && IsDigits(d, 2) && s == y + "-" + m + "-" + d
  }

  /** YYYY:YYYY or YYYY-MM-DD:YYYY-MM-DD. */
  ghost predicate IsRange(s: string) {
    exists from: string, to: string ::
      s == from + ":" + to && ((IsDigits(from, 4) && IsDigits(to, 4)) || (IsDate(from) && IsDate(to)))
  }

  lemma FullDateIff(s: string)
    ensures FullDate(s) <==> IsDate(s)
  {
    if FullDate(s) {
      var y, m, d := s[..4], s[5..7], s[8..];
      assert s == y + "-" + m + "-" + d;
      assert IsDigits(y, 4) && IsDigits(m, 2) && IsDigits(d, 2);
    }
    if IsDate(s) {
      var y, m, d :| IsDigits(y, 4) && IsDigits(m, 2) && IsDigits(d, 2) && s == y + "-" + m + "-" + d;
      assert forall k | 0 <= k < 4 :: s[k] == y[k];
      assert forall k | 5 <= k < 7 :: s[k] == m[k - 5];
      assert forall k | 8 <= k < 10 :: s[k] == d[k - 8];
    }
  }

  lemma DateHasNoColon(s: string)
    requires IsDate(s)
    ensures ':' !in s
  {}

  lemma YearsIff(s: string)
    ensures |s| == 4 && DigitsAt(s, 0, 4) <==> IsDigits(s, 4)
  {
    if |s| == 4 && DigitsAt(s, 0, 4) {
      assert forall c | c in s :: IsDigit(c);
    }
  }

  lemma ValidIsRange(s: string)
    requires ValidRange(s)
    ensures IsRange(s)
  {
    var k := IndexOf(s, ':');
    var from, to := s[..k], s[k + 1..];
    assert s == from + ":" + to;
    hide FullDate, IsDate, IsDigits;
    FullDateIff(from);
    FullDateIff(to);
    YearsIff(from);
    YearsIff(to);
  }

  lemma RangeIsValid(s: string)
    requires IsRange(s)
    ensures ValidRange(s)
  {
    var from: string, to: string :|
      s == from + ":" + to && ((IsDigits(from, 4) && IsDigits(to, 4)) || (IsDate(from) && IsDate(to)));
    if IsDate(from) {
      DateHasNoColon(from);
    }
    assert ':' !in from;
    hide FullDate, IsDate, IsDigits, IsRange;
    assert s[..|from|] == from && s[|from|] == ':' && s[|from| + 1..] == to;
    IndexOfIs(s, ':', |from|);
    FullDateIff(from);
    FullDateIff(to);
    YearsIff(from);
    YearsIff(to);
  }

  lemma ValidRangeIff(s: string)
    ensures ValidRange(s) <==> IsRange(s)
  {
    hide ValidRange, IsRange;
    if ValidRange(s) {
      ValidIsRange(s);
    }
    if IsRange(s) {
      RangeIsValid(s);
    }
  }

  // ------------------------------------------------------------------ every deed

  predicate IsCommand(n: Node) {
    !n.isGroup && n.args != []
  }

  /** What an action of any run has to do with its nodes. */
  ghost predicate Fits(nodes: seq<Node>, a: Action) {
    match a
    case Run(i) =>
      i < |nodes| && IsCommand(nodes[i]) && !InBackground(nodes[i]) && nodes[i].op in {NoOp, AndIf, OrIf, Semi}
    case Start(i) =>
      i < |nodes| && IsCommand(nodes[i]) && InBackground(nodes[i]) && nodes[i].op in {NoOp, AndIf, OrIf, Semi, Amp}
    case RunGroup(i) => i < |nodes| && nodes[i].isGroup && !InBackground(nodes[i])
    case StartGroup(i) => i < |nodes| && nodes[i].isGroup && InBackground(nodes[i])
    case LogCsv(left, file) => FollowsBy(nodes, left, LogTo, file)
    case RiskGate(left, checker) =>
      FollowsBy(nodes, left, Gate, checker) && !exists next :: FollowsBy(nodes, checker, Bar, next)
    case GateChained(left, checker, next) =>
      && FollowsBy(nodes, left, Gate, checker) && FollowsBy(nodes, checker, Bar, next)
      && !exists file :: FollowsBy(nodes, next, LogTo, file)
    case GateLogged(left, checker, next, file) =>
      && FollowsBy(nodes, left, Gate, checker) && FollowsBy(nodes, checker, Bar, next)
      && FollowsBy(nodes, next, LogTo, file)
    case PipeInto(left, right) => FollowsBy(nodes, left, Bar, right)
    case RunBacktest(left, dates) => FollowsBy(nodes, left, Backtest, dates) && IsRange(nodes[dates].args[0])
  }

  /** The node at i is followed by this operator and then by a node with words. */
  predicate FollowsBy(nodes: seq<Node>, i: nat, op: Op, next: nat) {
    next == i + 1 < |nodes| && nodes[i].op == op && nodes[next].args != []
  }

  lemma TurnFits(nodes: seq<Node>, i: nat, status: int)
    requires WellFormed(nodes) && i < |nodes|
    ensures var e := TurnAt(nodes, i, status).effect; e.Do? ==> Fits(nodes, e.action)
  {
    if nodes[i].args != [] {
      ValidRangeIff(nodes[i].args[0]);
    }
    hide ValidRange, IsRange;
  }

  /** Whatever a run does fits its nodes: a command or a group is started exactly when it
      is marked for the background, and every operator acts on its own neighbours. */
  lemma {:induction false} TraceFits<S>(m: Machine<S>, nodes: seq<Node>, i: nat, s: S, status: int)
    requires WellFormed(nodes)
    ensures forall d | d in Trace(m, nodes, i, s, status) :: Fits(nodes, d.action)
    decreases |nodes| - i
  {
    if i < |nodes| {
      var t := TurnAt(nodes, i, status);
      var (s', status') := Perform(m, t.effect, s, status);
      TurnFits(nodes, i, status);
      NextStopIsNext(nodes, i, status);
      hide TurnAt, Fits;
      TraceFits(m, nodes, t.next, s', status');
    }
  }

  // ------------------------------------------------------------------ every node

  /** At node i the run does this action and goes on at next. */
  ghost predicate Does<S>(m: Machine<S>, nodes: seq<Node>, i: nat, s: S, status: int, a: Action, next: nat) {
    var (s', status') := m.exec(s, status, a);
    && Trace(m, nodes, i, s, status) == [Deed(a, m.reach(s, status, a))] + Trace(m, nodes, next, s', status')
    && RunFrom(m, nodes, i, s, status) == RunFrom(m, nodes, next, s', status')
  }

  /** It does nothing there and goes on at the next node, with this status. */
  ghost predicate StepsOver<S>(m: Machine<S>, nodes: seq<Node>, i: nat, s: S, status: int, status': int) {
    && Trace(m, nodes, i, s, status) == Trace(m, nodes, i + 1, s, status')
    && RunFrom(m, nodes, i, s, status) == RunFrom(m, nodes, i + 1, s, status')
  }

  lemma TurnDoes<S>(m: Machine<S>, nodes: seq<Node>, i: nat, s: S, status: int)
    requires i < |nodes|
    ensures var t := TurnAt(nodes, i, status);
            match t.effect
            case Do(a) => Does(m, nodes, i, s, status, a, t.next)
            case Keep => t.next == i + 1 ==> StepsOver(m, nodes, i, s, status, status)
            case Fail => t.next == i + 1 ==> StepsOver(m, nodes, i, s, status, 1)
  {
    hide TurnAt;
    var t := TurnAt(nodes, i, status);
    var (s', status') := Perform(m, t.effect, s, status);
    var rest := Trace(m, nodes, t.next, s', status');
    assert Trace(m, nodes, i, s, status) == Deeds(m, t.effect, s, status) + rest;
    assert RunFrom(m, nodes, i, s, status) == RunFrom(m, nodes, t.next, s', status');
    hide Trace, RunFrom;
    assert [] + rest == rest;
  }

  /** The guard before a node keeps it from running. */
  predicate Skips(op: Op, status: int) {
    (op == AndIf && status != 0) || (op == OrIf && status == 0)
  }

  /** A node that no operator before it takes or skips is stepped over when it has no
      words or its own operator takes it, and otherwise runs or starts, once, as marked. */
  lemma OwnNode<S>(m: Machine<S>, nodes: seq<Node>, i: nat, s: S, status: int)
    requires i < |nodes| && OpBefore(nodes, i) !in {LogTo, Gate, Backtest, Bar} && !Skips(OpBefore(nodes, i), status)
    ensures var n := nodes[i];
            if n.isGroup then
              Does(m, nodes, i, s, status, if InBackground(n) then StartGroup(i) else RunGroup(i), i + 1)
            else if n.args == [] || n.op in {LogTo, Gate, Backtest, Bar} then StepsOver(m, nodes, i, s, status, status)
            else Does(m, nodes, i, s, status, if InBackground(n) then Start(i) else Run(i), i + 1)
  {
    OwnTurn(nodes, i, status);
    hide TurnAt, Does, StepsOver;
    TurnDoes(m, nodes, i, s, status);
  }

  lemma OwnTurn(nodes: seq<Node>, i: nat, status: int)
    requires i < |nodes| && OpBefore(nodes, i) !in {LogTo, Gate, Backtest, Bar} && !Skips(OpBefore(nodes, i), status)
    ensures var n := nodes[i];
            TurnAt(nodes, i, status) ==
            Turn(if !n.isGroup && (n.args == [] || n.op in {LogTo, Gate, Backtest, Bar}) then Keep
                 else if n.isGroup then Do(if InBackground(n) then StartGroup(i) else RunGroup(i))
                 else Do(if InBackground(n) then Start(i) else Run(i)), i + 1)
  {
    hide GateTurn, ValidRange;
  }

  lemma SkippedNode<S>(m: Machine<S>, nodes: seq<Node>, i: nat, s: S, status: int)
    requires i < |nodes| && Skips(OpBefore(nodes, i), status)
    ensures StepsOver(m, nodes, i, s, status, status)
  {
    TurnDoes(m, nodes, i, s, status);
    hide Does, StepsOver, GateTurn, ValidRange;
  }

  /** A node behind a log, pipe or backtest operator is what that operator acts with. A
      group there is stepped over, as a failure behind a backtest, and so is a text there
      that is no date range. */
  lemma TakenNode<S>(m: Machine<S>, nodes: seq<Node>, i: nat, s: S, status: int)
    requires WellFormed(nodes) && 0 < i < |nodes| && nodes[i - 1].op in {LogTo, Bar, Backtest}
    ensures var n := nodes[i];
            var op := nodes[i - 1].op;
            if n.args == [] then StepsOver(m, nodes, i, s, status, if n.isGroup && op == Backtest then 1 else status)
            else if op == LogTo then Does(m, nodes, i, s, status, LogCsv(i - 1, i), i + 1)
            else if op == Bar then Does(m, nodes, i, s, status, PipeInto(i - 1, i), i + 1)
            else if IsRange(n.args[0]) then Does(m, nodes, i, s, status, RunBacktest(i - 1, i), i + 1)
            else StepsOver(m, nodes, i, s, status, 1)
  {
    TurnDoes(m, nodes, i, s, status);
    if nodes[i].args != [] {
      ValidRangeIff(nodes[i].args[0]);
    }
    hide Does, StepsOver, GateTurn, ValidRange, IsRange;
  }

  /** A node behind a gate is its checker, which takes a command piped behind it along, and
      a log file behind that. */
  lemma CheckerNode<S>(m: Machine<S>, nodes: seq<Node>, i: nat, s: S, status: int)
    requires WellFormed(nodes) && 0 < i < |nodes| && nodes[i - 1].op == Gate
    ensures if nodes[i].args == [] then StepsOver(m, nodes, i, s, status, if nodes[i].isGroup then 1 else status)
            else if !FollowsBy(nodes, i, Bar, i + 1) then Does(m, nodes, i, s, status, RiskGate(i - 1, i), i + 1)
            else if !FollowsBy(nodes, i + 1, LogTo, i + 2) then
              Does(m, nodes, i, s, status, GateChained(i - 1, i, i + 1), i + 2)
            else Does(m, nodes, i, s, status, GateLogged(i - 1, i, i + 1, i + 2), i + 3)
  {
    TurnDoes(m, nodes, i, s, status);
    hide Does, StepsOver, ValidRange;
  }
}
