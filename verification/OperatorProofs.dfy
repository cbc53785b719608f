/** What a chain means: AND-OR lists, and when a command can run twice. */
module OperatorProofs {
  import opened Operators

  // ------------------------------------------------------------ AND-OR lists

  /** Section 2.9.3 of the POSIX Shell Command Language: left associative, with equal
      precedence for '&&' and '||'. Leaves are positions in the chain. */
  datatype AndOr = Leaf(i: nat) | And(left: AndOr, i: nat) | Or(left: AndOr, i: nat)

  /** An AND-OR list with its separator: '&' makes the whole list asynchronous. */
  datatype Item = Item(list: AndOr, async: bool)

  predicate Within(t: AndOr, n: nat) {
    t.i < n && (t.Leaf? || Within(t.left, n))
  }

  predicate AllWithin(ts: seq<Item>, n: nat) {
    forall k | 0 <= k < |ts| :: Within(ts[k].list, n)
  }

  /** Marked for the background, by '&' behind it or in its words. */
  predicate InBackground(n: Node) {
    n.op == Amp || n.background
  }

  /** An empty operand does nothing; a command or a group starts in the background when it
      is marked so, and otherwise it runs to its end. */
  function EvalLeaf<S>(m: Machine<S>, nodes: seq<Node>, i: nat, s: S, status: int): (S, int)
    requires i < |nodes|
  {
    var n := nodes[i];
    if n.isGroup then m.exec(s, status, if InBackground(n) then StartGroup(i) else RunGroup(i))
    else if n.args == [] then (s, status)
    else m.exec(s, status, if InBackground(n) then Start(i) else Run(i))
  }

  function EvalAndOr<S>(m: Machine<S>, nodes: seq<Node>, t: AndOr, s: S, status: int): (S, int)
    requires Within(t, |nodes|)
    decreases t
  {
    match t
    case Leaf(i) => EvalLeaf(m, nodes, i, s, status)
    case And(left, i) =>
      var (s', status') := EvalAndOr(m, nodes, left, s, status);
      if status' == 0 then EvalLeaf(m, nodes, i, s', status') else (s', status')
    case Or(left, i) =>
      var (s', status') := EvalAndOr(m, nodes, left, s, status);
      if status' != 0 then EvalLeaf(m, nodes, i, s', status') else (s', status')
  }

  /** How a list of several commands is started in the background as a whole. */
  type Launcher<!S> = (S, int, AndOr) -> (S, int)

  function EvalItem<S>(m: Machine<S>, launch: Launcher<S>, nodes: seq<Node>, t: Item, s: S, status: int): (S, int)
    requires Within(t.list, |nodes|)
  {
    if t.async && !t.list.Leaf? then launch(s, status, t.list) else EvalAndOr(m, nodes, t.list, s, status)
  }

  /** The POSIX list: its items in order. */
  function EvalList<S>(m: Machine<S>, launch: Launcher<S>, nodes: seq<Node>, ts: seq<Item>, s: S, status: int): (S, int)
    requires AllWithin(ts, |nodes|)
    decreases ts
  {
    if ts == [] then (s, status)
    else
      var (s', status') := EvalItem(m, launch, nodes, ts[0], s, status);
      EvalList(m, launch, nodes, ts[1..], s', status')
  }

  /** The list a chain denotes: ';' and '&' separate AND-OR lists. */
  function ListFrom(nodes: seq<Node>, i: nat, current: AndOr): (ts: seq<Item>)
    requires 0 < i <= |nodes| && Within(current, |nodes|)
    ensures AllWithin(ts, |nodes|)
    decreases |nodes| - i
  {
    var op := nodes[i - 1].op;
    if i == |nodes| then [Item(current, op == Amp)]
    else if op == AndIf then ListFrom(nodes, i + 1, And(current, i))
    else if op == OrIf then ListFrom(nodes, i + 1, Or(current, i))
    else [Item(current, op == Amp)] + ListFrom(nodes, i + 1, Leaf(i))
  }

  function ListOf(nodes: seq<Node>): (ts: seq<Item>)
    ensures AllWithin(ts, |nodes|)
  {
    if nodes == [] then [] else ListFrom(nodes, 1, Leaf(0))
  }

  /** Only '&&', '||', ';' and '&' between the nodes. */
  predicate SequencingOnly(nodes: seq<Node>) {
    forall i | 0 <= i < |nodes| :: !Capturing(nodes[i].op)
  }

  predicate Joins(op: Op) {
    op == AndIf || op == OrIf
  }

  /** Every list that '&' ends is a single command or group. */
  predicate SingleAsync(nodes: seq<Node>, i: nat) {
    forall k | i <= k < |nodes| && k > 0 && nodes[k].op == Amp :: !Joins(nodes[k - 1].op)
  }

  /** One node of a sequencing chain: skipped, or run as an operand. */
  lemma OperandStep<S>(m: Machine<S>, nodes: seq<Node>, i: nat, s: S, status: int)
    requires SequencingOnly(nodes) && 0 < i < |nodes|
    ensures var op := nodes[i - 1].op;
            var skipped := (op == AndIf && status != 0) || (op == OrIf && status == 0);
            var (s', status') := if skipped then (s, status) else EvalLeaf(m, nodes, i, s, status);
            RunFrom(m, nodes, i, s, status) == RunFrom(m, nodes, i + 1, s', status')
  {
    assert !Capturing(nodes[i - 1].op);
    hide ValidRange, GateTurn;
  }

  /** What is left of the loop's run when the current list is foreground or single. */
  lemma {:induction false} ListFromAgrees<S>(m: Machine<S>, launch: Launcher<S>, nodes: seq<Node>, i: nat,
                                             current: AndOr, s: S, status: int)
    requires SequencingOnly(nodes) && 0 < i <= |nodes| && Within(current, |nodes|) && SingleAsync(nodes, i)
    requires nodes[i - 1].op == Amp ==> current.Leaf?
    ensures var (s', status') := EvalAndOr(m, nodes, current, s, status);
            EvalList(m, launch, nodes, ListFrom(nodes, i, current), s, status) == RunFrom(m, nodes, i, s', status')
    decreases |nodes| - i
  {
    var (s', status') := EvalAndOr(m, nodes, current, s, status);
    var op := nodes[i - 1].op;
    var item := Item(current, op == Amp);
    if i == |nodes| {
      ItemFirst(m, launch, nodes, item, [], s, status);
      assert [item] + [] == [item];
    } else {
      assert nodes[i].op == Amp ==> !Joins(op);
      OperandStep(m, nodes, i, s', status');
      SingleLater(nodes, i);
      OneMore(m, nodes, current, i, s, status);
      hide RunFrom, EvalLeaf, SequencingOnly, SingleAsync, EvalList, EvalItem, EvalAndOr, AllWithin;
      if op == AndIf {
        ListFromAgrees(m, launch, nodes, i + 1, And(current, i), s, status);
      } else if op == OrIf {
        ListFromAgrees(m, launch, nodes, i + 1, Or(current, i), s, status);
      } else {
        ListFromAgrees(m, launch, nodes, i + 1, Leaf(i), s', status');
        ItemFirst(m, launch, nodes, item, ListFrom(nodes, i + 1, Leaf(i)), s, status);
      }
    }
  }

  lemma OneMore<S>(m: Machine<S>, nodes: seq<Node>, current: AndOr, i: nat, s: S, status: int)
    requires Within(current, |nodes|) && i < |nodes|
    ensures Within(And(current, i), |nodes|) && Within(Or(current, i), |nodes|) && Within(Leaf(i), |nodes|)
    ensures var (s', status') := EvalAndOr(m, nodes, current, s, status);
            var after := EvalLeaf(m, nodes, i, s', status');
            && EvalAndOr(m, nodes, And(current, i), s, status) == (if status' == 0 then after else (s', status'))
            && EvalAndOr(m, nodes, Or(current, i), s, status) == (if status' != 0 then after else (s', status'))
            && EvalAndOr(m, nodes, Leaf(i), s', status') == after
  {
    hide EvalLeaf;
  }

  lemma ItemFirst<S>(m: Machine<S>, launch: Launcher<S>, nodes: seq<Node>, item: Item, rest: seq<Item>, s: S,
                     status: int)
    requires Within(item.list, |nodes|) && AllWithin(rest, |nodes|) && (item.async ==> item.list.Leaf?)
    ensures var (s', status') := EvalAndOr(m, nodes, item.list, s, status);
            EvalList(m, launch, nodes, [item] + rest, s, status) == EvalList(m, launch, nodes, rest, s', status')
  {
    assert ([item] + rest)[1..] == rest;
    hide EvalAndOr;
  }

  lemma SingleLater(nodes: seq<Node>, i: nat)
    requires SingleAsync(nodes, i)
    ensures SingleAsync(nodes, i + 1)
  {}

  /** On chains of '&&', '||', ';', '&' and groups whose '&' ends single commands, the
      prev/node loop computes the left-associative AND-OR lists. */
  lemma SequenceIsAndOrList<S>(m: Machine<S>, launch: Launcher<S>, nodes: seq<Node>, s: S)
    requires SequencingOnly(nodes) && SingleAsync(nodes, 0)
    ensures RunFrom(m, nodes, 0, s, 0) == EvalList(m, launch, nodes, ListOf(nodes), s, 0)
  {
    if nodes != [] {
      ListFromAgrees(m, launch, nodes, 1, Leaf(0), s, 0);
      assert RunFrom(m, nodes, 0, s, 0) ==
             var (s', status') := EvalLeaf(m, nodes, 0, s, 0); RunFrom(m, nodes, 1, s', status');
    }
  }

  /** A machine that does nothing, and a launcher that counts. */
  const IDLE: Machine<int> := Machine((s, status, a) => (s, 0), (s, status, a) => Passed)

  const COUNTING: Launcher<int> := (s, status, t) => (s + 1, 0)

  /** The loop never launches a whole list. */
  lemma {:induction false} LoopLaunchesNothing(nodes: seq<Node>, i: nat, s: int, status: int)
    ensures RunFrom(IDLE, nodes, i, s, status).0 == s
    decreases |nodes| - i
  {
    if i < |nodes| {
      var t := TurnAt(nodes, i, status);
      var (s', status') := Perform(IDLE, t.effect, s, status);
      hide TurnAt;
      LoopLaunchesNothing(nodes, t.next, s', status');
    }
  }

  lemma {:induction false} ListLeavesCount(nodes: seq<Node>, t: AndOr, s: int, status: int)
    requires Within(t, |nodes|)
    ensures EvalAndOr(IDLE, nodes, t, s, status).0 == s
    decreases t
  {
    if !t.Leaf? {
      ListLeavesCount(nodes, t.left, s, status);
    }
  }

  function Launches(ts: seq<Item>): nat {
    if ts == [] then 0 else (if ts[0].async && !ts[0].list.Leaf? then 1 else 0) + Launches(ts[1..])
  }

  /** The POSIX list launches each asynchronous list of several commands. */
  lemma {:induction false} PosixLaunches(nodes: seq<Node>, ts: seq<Item>, s: int, status: int)
    requires AllWithin(ts, |nodes|)
    ensures EvalList(IDLE, COUNTING, nodes, ts, s, status).0 == s + Launches(ts)
    decreases ts
  {
    if ts != [] {
      ListLeavesCount(nodes, ts[0].list, s, status);
      var (s', status') := EvalItem(IDLE, COUNTING, nodes, ts[0], s, status);
      hide EvalAndOr;
      PosixLaunches(nodes, ts[1..], s', status');
    }
  }

  lemma {:induction false} LaunchesIff(nodes: seq<Node>, i: nat, current: AndOr)
    requires 0 < i <= |nodes| && Within(current, |nodes|)
    requires nodes[i - 1].op == Amp && i > 1 ==> (current.Leaf? <==> !Joins(nodes[i - 2].op))
    requires i == 1 || !Joins(nodes[i - 2].op) ==> current.Leaf?
    ensures Launches(ListFrom(nodes, i, current)) == 0 <==>
            (nodes[i - 1].op == Amp ==> current.Leaf?) && SingleAsync(nodes, i)
    decreases |nodes| - i
  {
    var op := nodes[i - 1].op;
    var item := Item(current, op == Amp);
    if i == |nodes| {
      assert [item][1..] == [];
    } else {
      assert SingleAsync(nodes, i) <==> (nodes[i].op == Amp ==> !Joins(op)) && SingleAsync(nodes, i + 1);
      if op == AndIf {
        LaunchesIff(nodes, i + 1, And(current, i));
      } else if op == OrIf {
        LaunchesIff(nodes, i + 1, Or(current, i));
      } else {
        LaunchesIff(nodes, i + 1, Leaf(i));
        var rest := ListFrom(nodes, i + 1, Leaf(i));
        assert ([item] + rest)[1..] == rest;
      }
    }
  }

  /** On sequencing chains the loop is the POSIX list, for every machine and every way to
      launch a list, if and only if '&' ends no list of several commands. */
  lemma SequenceIsPosixIff(nodes: seq<Node>)
    requires SequencingOnly(nodes)
    ensures (forall m: Machine<int>, launch: Launcher<int>, s: int ::
               RunFrom(m, nodes, 0, s, 0) == EvalList(m, launch, nodes, ListOf(nodes), s, 0))
            <==> SingleAsync(nodes, 0)
  {
    if SingleAsync(nodes, 0) {
      forall m: Machine<int>, launch: Launcher<int>, s: int
        ensures RunFrom(m, nodes, 0, s, 0) == EvalList(m, launch, nodes, ListOf(nodes), s, 0)
      {
        SequenceIsAndOrList(m, launch, nodes, s);
      }
    } else {
      LoopLaunchesNothing(nodes, 0, 0, 0);
      LaunchesIff(nodes, 1, Leaf(0));
      PosixLaunches(nodes, ListOf(nodes), 0, 0);
      assert RunFrom(IDLE, nodes, 0, 0, 0) != EvalList(IDLE, COUNTING, nodes, ListOf(nodes), 0, 0);
    }
  }

  /** 'a && b &' runs a in the foreground and starts b alone; POSIX starts the list. */
  lemma AmpTakesLastOnly<S>(m: Machine<S>, launch: Launcher<S>, a: string, b: string, s: S)
    requires m.exec(s, 0, Run(0)).1 == 0
    ensures var nodes := [Node([a], false, "", AndIf, false), Node([b], false, "", Amp, false)];
            var (s', status') := m.exec(s, 0, Run(0));
            && RunFrom(m, nodes, 0, s, 0) == m.exec(s', status', Start(1))
            && ListOf(nodes) == [Item(And(Leaf(0), 1), true)]
            && EvalList(m, launch, nodes, ListOf(nodes), s, 0) == launch(s, 0, And(Leaf(0), 1))
  {
    var nodes := [Node([a], false, "", AndIf, false), Node([b], false, "", Amp, false)];
    var (s', status') := m.exec(s, 0, Run(0));
    var (s2, status2) := m.exec(s', status', Start(1));
    assert RunFrom(m, nodes, 2, s2, status2) == (s2, status2);
    assert RunFrom(m, nodes, 1, s', status') == (s2, status2);
    var ts := [Item(And(Leaf(0), 1), true)];
    assert ListFrom(nodes, 2, And(Leaf(0), 1)) == ts;
    assert ts[1..] == [];
  }

  // ------------------------------------------------------ how often a command runs

  function Nonempty(nodes: seq<Node>, i: nat): set<nat> {
    if HasArgs(nodes, i) then {i} else {}
  }

  /** The commands a deed runs. A log file and a date range are not run; a gate without a
      left command returns at once, and one that refuses or rejects runs no more than it
      has reached. The logged gate does not consult the configured limits. */
  function Commands(nodes: seq<Node>, d: Deed): set<nat> {
    match d.action
    case Run(i) => {i}
    case Start(i) => {i}
    case RunGroup(i) => {i}
    case StartGroup(i) => {i}
    case LogCsv(left, _) => Nonempty(nodes, left)
    case RiskGate(left, checker) =>
      if !HasArgs(nodes, left) then {} else if d.reach.Refused? then {left} else {left, checker}
    case GateChained(left, checker, next) =>
      if !HasArgs(nodes, left) then {}
      else if d.reach.Refused? then {left}
      else if d.reach.Rejected? then {left, checker}
      else {left, checker, next}
    case GateLogged(left, checker, next, _) =>
      if !HasArgs(nodes, left) then {} else if d.reach.Passed? then {left, checker, next} else {left, checker}
    case PipeInto(left, right) => Nonempty(nodes, left) + {right}
    case RunBacktest(left, _) => Nonempty(nodes, left)
  }

  function Times(nodes: seq<Node>, deeds: seq<Deed>, c: nat): nat {
    if deeds == [] then 0
    else (if c in Commands(nodes, deeds[0]) then 1 else 0) + Times(nodes, deeds[1..], c)
  }

  /** The node that follows the turn at i; the same whatever the status is. */
  function NextStop(nodes: seq<Node>, i: nat): nat
    requires i < |nodes|
  {
    TurnAt(nodes, i, 0).next
  }

  /** The operator before node k runs node k - 1 as its left operand. */
  predicate Captures(nodes: seq<Node>, k: nat) {
    && 0 < k < |nodes| && HasArgs(nodes, k)
    && match nodes[k - 1].op
       case LogTo => true
       case Gate => true
       case Bar => true
       case Backtest => ValidRange(nodes[k].args[0])
       case _ => false
  }

  /** The turn at i can run the last node it consumes as the right operand of '|' or of a
      '?>' that has a left command. */
  predicate RunsRightOperand(nodes: seq<Node>, i: nat)
    requires i < |nodes|
  {
    && HasArgs(nodes, i)
    && match OpBefore(nodes, i)
       case Bar => true
       case Gate => HasArgs(nodes, i - 1) && NextStop(nodes, i) < i + 3
       case _ => false
  }

  /** No right operand of '|' or '?>' is itself the left operand of a capturing operator,
      unless it is the command absorbed by '?> checker | command |> file'. */
  predicate Clean(nodes: seq<Node>, i: nat)
    decreases |nodes| - i
  {
    i >= |nodes| ||
    (!(RunsRightOperand(nodes, i) && Captures(nodes, NextStop(nodes, i))) && Clean(nodes, NextStop(nodes, i)))
  }

  lemma NextStopIsNext(nodes: seq<Node>, i: nat, status: int)
    requires i < |nodes|
    ensures i < TurnAt(nodes, i, status).next == NextStop(nodes, i) <= i + 3
    ensures NextStop(nodes, i) <= |nodes|
  {}

  lemma TimesCons<S>(m: Machine<S>, nodes: seq<Node>, e: Effect, s: S, status: int, rest: seq<Deed>, c: nat)
    ensures Times(nodes, Deeds(m, e, s, status) + rest, c) ==
            Times(nodes, Deeds(m, e, s, status), c) + Times(nodes, rest, c)
  {
    var ds := Deeds(m, e, s, status);
    if e.Do? {
      assert (ds + rest)[0] == ds[0] && (ds + rest)[1..] == rest && ds[1..] == [];
    } else {
      assert ds + rest == rest;
    }
  }

  /** Which commands the turn at i runs: among i - 1 and the nodes it consumes, each at
      most once; the one before it exactly when captured, the last one it consumes only as
      a right operand if that is captured in turn, and then whenever the gates pass. */
  lemma TurnTimes<S>(m: Machine<S>, nodes: seq<Node>, i: nat, s: S, status: int, c: nat)
    requires WellFormed(nodes) && i < |nodes|
    ensures var e := TurnAt(nodes, i, status).effect; var n := Times(nodes, Deeds(m, e, s, status), c);
            && n <= 1
            && (c + 1 < i ==> n == 0)
            && (c + 1 == i ==> (n == 1 <==> Captures(nodes, i) && HasArgs(nodes, c)))
            && (c >= NextStop(nodes, i) ==> n == 0)
            && (c + 1 == NextStop(nodes, i) && Captures(nodes, c + 1) && HasArgs(nodes, c) ==>
                  && (n == 1 ==> RunsRightOperand(nodes, i))
                  && (RunsRightOperand(nodes, i) && e.Do? && m.reach(s, status, e.action).Passed? ==> n == 1)
                  && (RunsRightOperand(nodes, i) ==> e.Do?))
  {
    var e := TurnAt(nodes, i, status).effect;
    if e.Do? {
      var d := Deed(e.action, m.reach(s, status, e.action));
      assert Deeds(m, e, s, status)[0] == d && Deeds(m, e, s, status)[1..] == [];
      assert Times(nodes, [d], c) == if c in Commands(nodes, d) then 1 else 0;
    }
  }

  /** From position i on nothing before i - 1 runs, and i - 1 runs at most once: just when
      the operator after it captures it. */
  lemma {:induction false} TimesBefore<S>(m: Machine<S>, nodes: seq<Node>, i: nat, s: S, status: int, c: nat)
    requires WellFormed(nodes) && c < i
    ensures Times(nodes, Trace(m, nodes, i, s, status), c) ==
            if c + 1 == i && Captures(nodes, i) && HasArgs(nodes, c) then 1 else 0
    decreases |nodes| - i
  {
    if i < |nodes| {
      var t := TurnAt(nodes, i, status);
      var (s', status') := Perform(m, t.effect, s, status);
      NextStopIsNext(nodes, i, status);
      TurnTimes(m, nodes, i, s, status, c);
      TimesCons(m, nodes, t.effect, s, status, Trace(m, nodes, t.next, s', status'), c);
      hide TurnAt, Captures, Times, Deeds;
      TimesBefore(m, nodes, t.next, s', status', c);
    }
  }

  lemma TimesStep<S>(m: Machine<S>, nodes: seq<Node>, i: nat, s: S, status: int, c: nat)
    requires WellFormed(nodes) && i < |nodes|
    ensures var t := TurnAt(nodes, i, status);
            var (s', status') := Perform(m, t.effect, s, status);
            && i < t.next == NextStop(nodes, i)
            && Times(nodes, Trace(m, nodes, i, s, status), c) ==
               Times(nodes, Deeds(m, t.effect, s, status), c) + Times(nodes, Trace(m, nodes, t.next, s', status'), c)
  {
    var t := TurnAt(nodes, i, status);
    var (s', status') := Perform(m, t.effect, s, status);
    NextStopIsNext(nodes, i, status);
    TimesCons(m, nodes, t.effect, s, status, Trace(m, nodes, t.next, s', status'), c);
    hide TurnAt, Times, Deeds;
  }

  /** One turn adds at most one run of a command to what the rest of the run does, and a
      second one only where the chain is not clean, there certainly if the gate passes. */
  lemma OneTurn<S>(m: Machine<S>, nodes: seq<Node>, i: nat, s: S, status: int, c: nat)
    requires WellFormed(nodes) && i < |nodes|
    ensures var t := TurnAt(nodes, i, status);
            var (s', status') := Perform(m, t.effect, s, status);
            var n := Times(nodes, Trace(m, nodes, i, s, status), c);
            var r := Times(nodes, Trace(m, nodes, t.next, s', status'), c);
            var bad := c + 1 == t.next && RunsRightOperand(nodes, i) && Captures(nodes, t.next);
            && n >= r
            && n <= (if bad then 2 else if c < t.next then 1 else r)
            && (bad ==> t.effect.Do? && (m.reach(s, status, t.effect.action).Passed? ==> n == 2))
  {
    var t := TurnAt(nodes, i, status);
    var (s', status') := Perform(m, t.effect, s, status);
    hide *;
    TimesStep(m, nodes, i, s, status, c);
    TurnTimes(m, nodes, i, s, status, c);
    if c < t.next {
      TimesBefore(m, nodes, t.next, s', status', c);
      if c + 1 == t.next && RunsRightOperand(nodes, i) {
        RightOperandHasArgs(nodes, i);
      }
    }
  }

  lemma RightOperandHasArgs(nodes: seq<Node>, i: nat)
    requires i < |nodes| && RunsRightOperand(nodes, i)
    ensures HasArgs(nodes, NextStop(nodes, i) - 1)
  {}

  /** Its gates pass whatever they are given. */
  ghost predicate Passing<S(!new)>(m: Machine<S>) {
    forall s, status, a :: m.reach(s, status, a) == Passed
  }

  /** In a clean chain every command runs at most once, in every run of every machine. */
  lemma {:induction false} CleanRunsOnce<S(!new)>(m: Machine<S>, nodes: seq<Node>, i: nat, s: S, status: int, c: nat)
    requires WellFormed(nodes) && Clean(nodes, i)
    ensures Times(nodes, Trace(m, nodes, i, s, status), c) <= 1
    decreases |nodes| - i
  {
    if i < |nodes| {
      var t := TurnAt(nodes, i, status);
      var (s', status') := Perform(m, t.effect, s, status);
      NextStopIsNext(nodes, i, status);
      OneTurn(m, nodes, i, s, status, c);
      hide TurnAt, Trace, Times, Captures, RunsRightOperand;
      CleanRunsOnce(m, nodes, t.next, s', status', c);
    }
  }

  /** In any other chain some command runs twice, whenever all gates pass. */
  lemma {:induction false} UncleanRunsTwice<S(!new)>(m: Machine<S>, nodes: seq<Node>, i: nat, s: S, status: int)
    returns (c: nat)
    requires WellFormed(nodes) && !Clean(nodes, i) && Passing(m)
    ensures Times(nodes, Trace(m, nodes, i, s, status), c) >= 2
    decreases |nodes| - i
  {
    var t := TurnAt(nodes, i, status);
    var (s', status') := Perform(m, t.effect, s, status);
    NextStopIsNext(nodes, i, status);
    if RunsRightOperand(nodes, i) && Captures(nodes, t.next) {
      c := t.next - 1;
    } else {
      c := UncleanRunsTwice(m, nodes, t.next, s', status');
    }
    OneTurn(m, nodes, i, s, status, c);
    hide TurnAt, Trace, Times, Captures, RunsRightOperand;
  }

  /** The exact condition under which every command runs at most once, in every run of
      every machine. */
  lemma RunsAtMostOnce<S(!new)>(nodes: seq<Node>, some: S)
    requires WellFormed(nodes)
    ensures (forall m: Machine<S>, s: S, status: int, c: nat :: Times(nodes, Trace(m, nodes, 0, s, status), c) <= 1)
            <==> Clean(nodes, 0)
  {
    if Clean(nodes, 0) {
      forall m: Machine<S>, s: S, status: int, c: nat
        ensures Times(nodes, Trace(m, nodes, 0, s, status), c) <= 1
      {
        CleanRunsOnce(m, nodes, 0, s, status, c);
      }
    } else {
      var m: Machine<S> := Machine((s, status, a) => (s, 0), (s, status, a) => Passed);
      var c := UncleanRunsTwice(m, nodes, 0, some, 0);
    }
  }

  // ------------------------------------------------------------- which chains are clean

  /** A gate at k that takes the checker at k + 1 and the command at k + 2 together. */
  predicate Absorbs(nodes: seq<Node>, k: nat) {
    k + 2 < |nodes| && nodes[k].op == Gate && nodes[k + 1].op == Bar && HasArgs(nodes, k + 1) && HasArgs(nodes, k + 2)
  }

  /** And the log file at k + 3 as well. */
  predicate AbsorbsLog(nodes: seq<Node>, k: nat) {
    Absorbs(nodes, k) && nodes[k + 2].op == LogTo && HasArgs(nodes, k + 3)
  }

  /** Capturing operators stand next to each other only inside '?> c | n' and
      '?> c | n |> f', wherever these stand. */
  predicate Tidy(nodes: seq<Node>) {
    forall k | 0 <= k < |nodes| - 1 :: TidyAt(nodes, k)
  }

  predicate TidyAt(nodes: seq<Node>, k: nat)
    requires k + 1 < |nodes|
  {
    Capturing(nodes[k].op) && Capturing(nodes[k + 1].op) ==>
      Absorbs(nodes, k) || (k > 0 && AbsorbsLog(nodes, k - 1))
  }

  /** Tidy chains are clean, from every node that is not inside an absorbed form. */
  lemma {:induction false} AbsorbedIsClean(nodes: seq<Node>, i: nat)
    requires Tidy(nodes) && !(i >= 2 && Absorbs(nodes, i - 2))
    ensures Clean(nodes, i)
    decreases |nodes| - i
  {
    if i < |nodes| {
      var k := NextStop(nodes, i);
      NextStopIsNext(nodes, i, 0);
      if i > 0 {
        assert TidyAt(nodes, i - 1);
      }
      if k == i + 2 && k < |nodes| {
        assert TidyAt(nodes, i);
      }
      AbsorbedIsClean(nodes, k);
    }
  }

  /** Separating the capturing operators is enough, from every node. */
  lemma SeparatedIsClean(nodes: seq<Node>, i: nat)
    requires forall k | 0 <= k < |nodes| - 1 :: !(Capturing(nodes[k].op) && Capturing(nodes[k + 1].op))
    ensures Clean(nodes, i)
  {
    if i >= 2 && i - 1 < |nodes| {
      assert !(Capturing(nodes[i - 2].op) && Capturing(nodes[i - 2 + 1].op));
    }
    AbsorbedIsClean(nodes, i);
  }

  lemma TidyRunsOnce<S(!new)>(m: Machine<S>, nodes: seq<Node>, s: S, status: int, c: nat)
    requires WellFormed(nodes) && Tidy(nodes)
    ensures Times(nodes, Trace(m, nodes, 0, s, status), c) <= 1
  {
    AbsorbedIsClean(nodes, 0);
    CleanRunsOnce(m, nodes, 0, s, status, c);
  }

  // -------------------------------------------------------------------- instances

  /** A guard that skips an operand keeps it from running just when no capturing operator
      with something to capture follows it. */
  lemma SkippedOperandRuns<S>(m: Machine<S>, nodes: seq<Node>, i: nat, s: S, status: int)
    requires WellFormed(nodes) && 0 < i < |nodes| && HasArgs(nodes, i)
    requires (nodes[i - 1].op == AndIf && status != 0) || (nodes[i - 1].op == OrIf && status == 0)
    ensures Times(nodes, Trace(m, nodes, i, s, status), i) == if Captures(nodes, i + 1) then 1 else 0
  {
    var t := TurnAt(nodes, i, status);
    assert t == Turn(Keep, i + 1);
    TimesStep(m, nodes, i, s, status, i);
    assert Deeds(m, t.effect, s, status) == [];
    hide TurnAt, Trace, Captures, GateTurn;
    TimesBefore(m, nodes, i + 1, s, status, i);
  }

  function Word(w: string, op: Op): Node {
    Node([w], false, "", op, false)
  }

  lemma LastDeed<S>(m: Machine<S>, nodes: seq<Node>, i: nat, s: S, status: int)
    requires i + 1 == |nodes| && TurnAt(nodes, i, status).effect.Do?
    ensures var a := TurnAt(nodes, i, status).effect.action;
            Trace(m, nodes, i, s, status) == [Deed(a, m.reach(s, status, a))]
  {
    var a := TurnAt(nodes, i, status).effect.action;
    var (s', status') := m.exec(s, status, a);
    assert Trace(m, nodes, |nodes|, s', status') == [];
    assert [Deed(a, m.reach(s, status, a))] + [] == [Deed(a, m.reach(s, status, a))];
  }

  /** 'a && b |> f' logs b even though a failed. */
  lemma GuardDoesNotStopCapture<S>(m: Machine<S>, a: string, b: string, f: string, s: S)
    requires m.exec(s, 0, Run(0)).1 != 0
    ensures var nodes := [Word(a, AndIf), Word(b, LogTo), Word(f, NoOp)];
            var (s', status') := m.exec(s, 0, Run(0));
            Trace(m, nodes, 0, s, 0) ==
            [Deed(Run(0), m.reach(s, 0, Run(0))), Deed(LogCsv(1, 2), m.reach(s', status', LogCsv(1, 2)))]
  {
    var nodes := [Word(a, AndIf), Word(b, LogTo), Word(f, NoOp)];
    var (s', status') := m.exec(s, 0, Run(0));
    LastDeed(m, nodes, 2, s', status');
    assert TurnAt(nodes, 1, status') == Turn(Keep, 2);
    assert Trace(m, nodes, 1, s', status') == Trace(m, nodes, 2, s', status');
  }

  /** 'a ?> b |> f' runs b twice, unless the configured limits refuse what a printed. */
  lemma AdjacentCapturesRunTwice<S>(m: Machine<S>, a: string, b: string, f: string, s: S)
    ensures var nodes := [Word(a, Gate), Word(b, LogTo), Word(f, NoOp)];
            Times(nodes, Trace(m, nodes, 0, s, 0), 1) == if m.reach(s, 0, RiskGate(0, 1)).Refused? then 1 else 2
  {
    var nodes := [Word(a, Gate), Word(b, LogTo), Word(f, NoOp)];
    var (s', status') := m.exec(s, 0, RiskGate(0, 1));
    var first := Deed(RiskGate(0, 1), m.reach(s, 0, RiskGate(0, 1)));
    var rest := Trace(m, nodes, 2, s', status');
    assert TurnAt(nodes, 2, status') == Turn(Do(LogCsv(1, 2)), 3);
    assert TurnAt(nodes, 0, 0) == Turn(Keep, 1);
    assert TurnAt(nodes, 1, 0) == Turn(Do(RiskGate(0, 1)), 2);
    hide TurnAt;
    LastDeed(m, nodes, 2, s', status');
    assert Trace(m, nodes, 0, s, 0) == Trace(m, nodes, 1, s, 0) == [first] + rest;
    hide Trace;
    assert ([first] + rest)[1..] == rest && rest[1..] == [];
    assert Times(nodes, rest, 1) == 1;
  }

  /** '{ g; } ?> b |> f' runs b once: the gate has no left command and returns at once. */
  lemma GroupBeforeGateIsClean(g: string, b: string, f: string)
    ensures Clean([Node([], true, g, Gate, false), Word(b, LogTo), Word(f, NoOp)], 0)
  {
    var nodes := [Node([], true, g, Gate, false), Word(b, LogTo), Word(f, NoOp)];
    assert NextStop(nodes, 0) == 1 && NextStop(nodes, 1) == 2 && NextStop(nodes, 2) == 3;
    assert !RunsRightOperand(nodes, 0) && !RunsRightOperand(nodes, 1) && !RunsRightOperand(nodes, 2);
    assert Clean(nodes, 3) && Clean(nodes, 2) && Clean(nodes, 1);
  }
}
