/** Command chains: what execute_sequence in src/operators.c does at each node of a
    parsed chain. Running a command is an uninterpreted function of the shell state. */
module Operators {
  import opened Text

  /** The operator written after a node; NoOp on the last one. */
  datatype Op = NoOp | AndIf | OrIf | Amp | Semi | LogTo | Gate | Backtest | Bar

  /** The operators that run their left operand themselves, with its output captured. */
  predicate Capturing(op: Op) {
    op == LogTo || op == Gate || op == Backtest || op == Bar
  }

  datatype Node = Node(args: seq<string>, isGroup: bool, body: string, op: Op, background: bool)

  /** A group has a body and an empty argument list. */
  predicate WellFormed(nodes: seq<Node>) {
    forall i | 0 <= i < |nodes| && nodes[i].isGroup :: nodes[i].args == []
  }

  /** What is handed to an executor, by positions in the chain. */
  datatype Action =
    | Run(i: nat)
    | Start(i: nat)
    | RunGroup(i: nat)
    | StartGroup(i: nat)
    | LogCsv(left: nat, file: nat)
    | RiskGate(left: nat, checker: nat)
    | GateChained(left: nat, checker: nat, next: nat)
    | GateLogged(left: nat, checker: nat, next: nat, file: nat)
    | PipeInto(left: nat, right: nat)
    | RunBacktest(left: nat, dates: nat)

  /** How far a gate gets: the configured limits refuse the captured lines before the
      checker starts, the checker rejects them, or it passes them on. */
  datatype Reach = Refused | Rejected | Passed

  /** How an action changes the shell state and the last status, and how far it gets. */
  datatype Machine<!S> = Machine(exec: (S, int, Action) -> (S, int), reach: (S, int, Action) -> Reach)

  /** An action of a run with how far it got. */
  datatype Deed = Deed(action: Action, reach: Reach)

  /** What one turn of the loop does: nothing, set the status to 1, or an action. */
  datatype Effect = Keep | Fail | Do(action: Action)

  datatype Turn = Turn(effect: Effect, next: nat)

  // ------------------------------------------------------- the backtest date range

  predicate DigitsAt(s: string, from: nat, to: nat)
    requires from <= to <= |s|
  {
    forall k | from <= k < to :: IsDigit(s[k])
  }

  predicate FullDate(s: string) {
    |s| == 10 && DigitsAt(s, 0, 4) && s[4] == '-' && DigitsAt(s, 5, 7) && s[7] == '-' && DigitsAt(s, 8, 10)
  }

  /** parse_backtest_date succeeds: YYYY:YYYY or YYYY-MM-DD:YYYY-MM-DD. */
  predicate ValidRange(s: string) {
    var k := IndexOf(s, ':');
    && k < |s|
    && var left, right := s[..k], s[k + 1..];
       || (k == 4 && DigitsAt(left, 0, 4) && |right| == 4 && DigitsAt(right, 0, 4))
       || (FullDate(left) && FullDate(right))
  }

  // ------------------------------------------------------------------ one turn

  predicate HasArgs(nodes: seq<Node>, i: nat) {
    i < |nodes| && nodes[i].args != []
  }

  function OpBefore(nodes: seq<Node>, i: nat): Op
    requires i <= |nodes|
  {
    if i == 0 then NoOp else nodes[i - 1].op
  }

  /** The general path: a group runs, a node whose own operator captures is left to
      that operator, anything else runs, in the background if so marked. */
  function OwnEffect(nodes: seq<Node>, i: nat): Effect
    requires i < |nodes|
  {
    var n := nodes[i];
    var background := n.background || n.op == Amp;
    if n.isGroup then Do(if background then StartGroup(i) else RunGroup(i))
    else if Capturing(n.op) then Keep
    else Do(if background then Start(i) else Run(i))
  }

  /** '?>': a checker followed by '| next', or by '| next |> file', absorbs those nodes. */
  function GateTurn(nodes: seq<Node>, i: nat): (t: Turn)
    requires 0 < i < |nodes|
  {
    if nodes[i].args == [] then Turn(Fail, i + 1)
    else if nodes[i].op == Bar && HasArgs(nodes, i + 1) then
      if nodes[i + 1].op == LogTo && HasArgs(nodes, i + 2)
      then Turn(Do(GateLogged(i - 1, i, i + 1, i + 2)), i + 3)
      else Turn(Do(GateChained(i - 1, i, i + 1)), i + 2)
    else Turn(Do(RiskGate(i - 1, i)), i + 1)
  }

  function TurnAt(nodes: seq<Node>, i: nat, status: int): (t: Turn)
    requires i < |nodes|
  {
    if !nodes[i].isGroup && nodes[i].args == [] then Turn(Keep, i + 1)
    else match OpBefore(nodes, i)
      case AndIf => Turn(if status != 0 then Keep else OwnEffect(nodes, i), i + 1)
      case OrIf => Turn(if status == 0 then Keep else OwnEffect(nodes, i), i + 1)
      case LogTo => Turn(if nodes[i].args != [] then Do(LogCsv(i - 1, i)) else Keep, i + 1)
      case Gate => GateTurn(nodes, i)
      case Bar => Turn(if nodes[i].args != [] then Do(PipeInto(i - 1, i)) else Keep, i + 1)
      case Backtest =>
        Turn(if nodes[i].args != [] && ValidRange(nodes[i].args[0]) then Do(RunBacktest(i - 1, i)) else Fail, i + 1)
      case _ => Turn(OwnEffect(nodes, i), i + 1)
  }

  function Perform<S>(m: Machine<S>, e: Effect, s: S, status: int): (S, int) {
    match e
    case Keep => (s, status)
    case Fail => (s, 1)
    case Do(action) => m.exec(s, status, action)
  }

  /** The whole loop, from the node at position i. */
  function RunFrom<S>(m: Machine<S>, nodes: seq<Node>, i: nat, s: S, status: int): (S, int)
    decreases |nodes| - i
  {
    if i >= |nodes| then (s, status)
    else
      var t := TurnAt(nodes, i, status);
      var (s', status') := Perform(m, t.effect, s, status);
      RunFrom(m, nodes, t.next, s', status')
  }

  /** What that run does, in order. */
  function Trace<S>(m: Machine<S>, nodes: seq<Node>, i: nat, s: S, status: int): seq<Deed>
    decreases |nodes| - i
  {
    if i >= |nodes| then []
    else
      var t := TurnAt(nodes, i, status);
      var (s', status') := Perform(m, t.effect, s, status);
      Deeds(m, t.effect, s, status) + Trace(m, nodes, t.next, s', status')
  }

  function Deeds<S>(m: Machine<S>, e: Effect, s: S, status: int): seq<Deed> {
    if e.Do? then [Deed(e.action, m.reach(s, status, e.action))] else []
  }
}
