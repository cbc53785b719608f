/** The code of src/operators.c: splitting a line, building the linked list of nodes and
    walking it. */
module OperatorCode {
  import opened Text
  import opened Operators

  // --------------------------------------------------------- splitting a line

  /** The operator a text starts with, if any; a single '|' only after another operator. */
  function OpHere(rest: string, seen: bool): (op: string)
    requires rest != ""
    ensures op <= rest
  {
    var c, n := rest[0], if |rest| > 1 then rest[1] else '\0';
    if c == '?' && n == '>' then "?>"
    else if c == '~' && n == '>' then "~>"
    else if c == '|' && n == '>' then "|>"
    else if c == '&' && n == '&' then "&&"
    else if c == '|' && n == '|' then "||"
    else if c == ';' then ";"
    else if c == '&' then "&"
    else if seen && c == '|' then "|"
    else ""
  }

  /** The text between two operators, without trailing blanks; an empty one is dropped. */
  function Segment(s: string): seq<string> {
    if s == "" then [] else [DropTrailing(s, {' ', '\t'})]
  }

  /** split_on_operators, having read acc since the last operator. */
  function SplitFrom(acc: string, rest: string, quote: Option<char>, depth: nat, seen: bool): seq<string>
    decreases rest
  {
    if rest == "" then Segment(acc)
    else
      var c, acc', rest' := rest[0], acc + [rest[0]], rest[1..];
      if quote.None? && (c == '"' || c == '\'') then SplitFrom(acc', rest', Some(c), depth, seen)
      else if quote.Some? then SplitFrom(acc', rest', if c == quote.value then None else quote, depth, seen)
      else if c == '{' then SplitFrom(acc', rest', None, depth + 1, seen)
      else if c == '}' then SplitFrom(acc', rest', None, if depth > 0 then depth - 1 else 0, seen)
      else if depth > 0 then SplitFrom(acc', rest', None, depth, seen)
      else
        var op := OpHere(rest, seen);
        if op == "" then SplitFrom(acc', rest', None, 0, seen)
        else Segment(acc) + [op] + SplitFrom("", rest[|op|..], None, 0, true)
  }

  method SplitOnOperators(input: string) returns (parts: seq<string>)
    ensures parts == SplitFrom("", input, None, 0, false)
  {
    var inQuotes, quoteChar, depth: nat, seen := false, '\0', 0, false;
    var start, current := 0, 0;
    parts := [];
    while current < |input|
      invariant 0 <= start <= current <= |input|
      invariant SplitFrom("", input, None, 0, false) ==
                parts + SplitFrom(input[start..current], input[current..],
                                  if inQuotes then Some(quoteChar) else None, depth, seen)
      decreases |input| - current
    {
      var c := input[current];
      assert input[current..][0] == c && input[current..][1..] == input[current + 1..];
      assert input[start..current] + [c] == input[start..current + 1];
      if !inQuotes && (c == '"' || c == '\'') {
        inQuotes, quoteChar := true, c;
        current := current + 1;
        continue;
      }
      if inQuotes && c == quoteChar {
        inQuotes := false;
        current := current + 1;
        continue;
      }
      if inQuotes {
        current := current + 1;
        continue;
      }
      if c == '{' {
        depth := depth + 1;
        current := current + 1;
        continue;
      }
      if c == '}' {
        if depth > 0 {
          depth := depth - 1;
        }
        current := current + 1;
        continue;
      }
      if depth > 0 {
        current := current + 1;
        continue;
      }
      var op := OpHere(input[current..], seen);
      if |op| > 0 {
        ghost var before, acc := parts, input[start..current];
        ghost var rest := SplitFrom("", input[current..][|op|..], None, 0, true);
        seen := true;
        if current > start {
          parts := parts + [DropTrailing(input[start..current], {' ', '\t'})];
        }
        parts := parts + [op];
        assert parts + rest == before + (Segment(acc) + [op] + rest);
        current := current + |op|;
        start := current;
        assert input[start..current] == "";
        continue;
      }
      current := current + 1;
    }
    assert input[current..] == "" && input[start..current] == input[start..];
    if current > start {
      parts := parts + [DropTrailing(input[start..], {' ', '\t'})];
    }
  }

  // --------------------------------------------------------- building the nodes

  /** The operator a part spells, or NoOp when it is a command. */
  function OpOf(part: string): Op {
    if part == "&&" then AndIf
    else if part == "||" then OrIf
    else if part == "&" then Amp
    else if part == ";" then Semi
    else if part == "|>" then LogTo
    else if part == "?>" then Gate
    else if part == "~>" then Backtest
    else if part == "|" then Bar
    else NoOp
  }

  /** A command part: a brace group, or words, of which a last "&" asks for background. */
  function NodeOf(parse: string -> seq<string>, part: string): Node {
    var t := SkipBlanks(part);
    if |t| >= 2 && t[0] == '{' && t[|t| - 1] == '}' then Node([], true, t[1..|t| - 1], NoOp, false)
    else
      var args := parse(part);
      if args != [] && args[|args| - 1] == "&" then Node(args[..|args| - 1], false, "", NoOp, true)
      else Node(args, false, "", NoOp, false)
  }

  function AddPart(parse: string -> seq<string>, nodes: seq<Node>, part: string): seq<Node> {
    if OpOf(part) == NoOp then nodes + [NodeOf(parse, part)]
    else if nodes == [] then []
    else nodes[|nodes| - 1 := nodes[|nodes| - 1].(op := OpOf(part))]
  }

  /** parse_operators, on the parts of the line. */
  function NodesOf(parse: string -> seq<string>, parts: seq<string>): seq<Node> {
    if parts == [] then [] else AddPart(parse, NodesOf(parse, parts[..|parts| - 1]), parts[|parts| - 1])
  }

  lemma {:induction false} NodesAreWellFormed(parse: string -> seq<string>, parts: seq<string>)
    ensures WellFormed(NodesOf(parse, parts))
  {
    if parts != [] {
      NodesAreWellFormed(parse, parts[..|parts| - 1]);
    }
  }

  class CommandNode {
    const position: nat
    var args: seq<string>
    var isGroup: bool
    var body: string
    var op: Op
    var background: bool
    var next: CommandNode?

    constructor (position: nat, n: Node)
      ensures this.position == position && next == null
      ensures args == n.args && isGroup == n.isGroup && body == n.body && op == n.op && background == n.background
    {
      this.position := position;
      args, isGroup, body, op, background := n.args, n.isGroup, n.body, n.op, n.background;
      next := null;
    }

    ghost function Value(): Node
      reads this
    {
      Node(args, isGroup, body, op, background)
    }
  }

  /** The list at head is exactly these nodes, in order. */
  ghost predicate Linked(head: CommandNode?, nodes: seq<CommandNode>)
    reads nodes
  {
    && head == (if nodes == [] then null else nodes[0])
    && (forall i | 0 <= i < |nodes| :: nodes[i].position == i)
    && (forall i | 0 <= i < |nodes| :: nodes[i].next == if i + 1 < |nodes| then nodes[i + 1] else null)
  }

  ghost predicate Holds(nodes: seq<CommandNode>, values: seq<Node>)
    reads nodes
  {
    |nodes| == |values| && forall i | 0 <= i < |nodes| :: nodes[i].Value() == values[i]
  }

  /** Writes the operator into the last node. */
  method SetLastOperator(ghost nodes: seq<CommandNode>, ghost values: seq<Node>, current: CommandNode, op: Op)
    requires nodes != [] && current == nodes[|nodes| - 1] && Linked(nodes[0], nodes) && Holds(nodes, values)
    modifies current`op
    ensures Linked(nodes[0], nodes)
    ensures Holds(nodes, values[|values| - 1 := values[|values| - 1].(op := op)])
  {
    current.op := op;
    forall i | 0 <= i < |nodes|
      ensures nodes[i].next == if i + 1 < |nodes| then nodes[i + 1] else null
    {
      assert nodes[i].next == old(nodes[i].next);
    }
    forall i | 0 <= i < |nodes| - 1
      ensures nodes[i] != current
    {
      assert nodes[i].position == i;
    }
  }

  /** Appends a node after the last one, if there is one. */
  method AppendNode(head: CommandNode?, ghost nodes: seq<CommandNode>, ghost values: seq<Node>,
                    current: CommandNode?, count: nat, n: Node)
    returns (head': CommandNode, node: CommandNode)
    requires Linked(head, nodes) && Holds(nodes, values) && count == |nodes|
    requires current == if nodes == [] then null else nodes[|nodes| - 1]
    modifies current
    ensures fresh(node) && Linked(head', nodes + [node]) && Holds(nodes + [node], values + [n])
  {
    node := new CommandNode(count, n);
    if head == null {
      head' := node;
    } else {
      current.next := node;
      head' := head;
      forall i | 0 <= i < |nodes| - 1
        ensures nodes[i] != current
      {
        assert nodes[i].position == i;
      }
    }
    ghost var all := nodes + [node];
    forall i | 0 <= i < |all|
      ensures all[i].position == i && all[i].next == (if i + 1 < |all| then all[i + 1] else null)
      ensures all[i].Value() == (values + [n])[i]
    {
      if i < |nodes| {
        assert all[i] == nodes[i];
      }
    }
  }

  /** The list built so far, with its length and its last node. */
  ghost predicate Built(head: CommandNode?, current: CommandNode?, count: nat,
                        nodes: seq<CommandNode>, values: seq<Node>)
    reads nodes
  {
    && Linked(head, nodes) && Holds(nodes, values) && count == |nodes|
    && current == if nodes == [] then null else nodes[|nodes| - 1]
  }

  /** One part: an operator goes into the last node, if any; a command becomes a node. */
  method TakePart(parse: string -> seq<string>, part: string, head: CommandNode?, current: CommandNode?, count: nat,
                  ghost nodes: seq<CommandNode>, ghost values: seq<Node>)
    returns (head': CommandNode?, current': CommandNode?, count': nat, ghost nodes': seq<CommandNode>)
    requires Built(head, current, count, nodes, values)
    modifies current
    ensures Built(head', current', count', nodes', AddPart(parse, values, part))
    ensures fresh(set n | n in nodes' && n !in nodes)
  {
    head', current', count', nodes' := head, current, count, nodes;
    assert nodes == [] <==> values == [];
    hide NodeOf, Linked, Holds;
    if OpOf(part) != NoOp {
      if current != null {
        SetLastOperator(nodes, values, current, OpOf(part));
      }
    } else {
      head', current' := AppendNode(head, nodes, values, current, count, NodeOf(parse, part));
      count', nodes' := count + 1, nodes + [current'];
    }
  }

  method ParseOperators(parse: string -> seq<string>, parts: seq<string>)
    returns (head: CommandNode?, ghost nodes: seq<CommandNode>)
    ensures fresh(nodes) && Linked(head, nodes) && Holds(nodes, NodesOf(parse, parts))
  {
    head, nodes := null, [];
    var current: CommandNode? := null;
    var i, count := 0, 0;
    while i < |parts|
      invariant i <= |parts| && fresh(nodes)
      invariant Built(head, current, count, nodes, NodesOf(parse, parts[..i]))
    {
      ghost var values := NodesOf(parse, parts[..i]);
      assert parts[..i + 1][..i] == parts[..i] && parts[..i + 1][i] == parts[i];
      assert NodesOf(parse, parts[..i + 1]) == AddPart(parse, values, parts[i]);
      assert current == null || current in nodes;
      hide NodesOf, AddPart, Built;
      head, current, count, nodes := TakePart(parse, parts[i], head, current, count, nodes, values);
      i := i + 1;
    }
    assert parts[..i] == parts;
  }

  // ----------------------------------------------------------- walking the list

  method ExecuteSequence<S>(m: Machine<S>, head: CommandNode?, ghost nodes: seq<CommandNode>,
                            ghost values: seq<Node>, start: S)
    returns (s: S, lastStatus: int)
    requires Linked(head, nodes) && Holds(nodes, values)
    ensures (s, lastStatus) == RunFrom(m, values, 0, start, 0)
  {
    hide TurnAt;
    var node, prev: CommandNode? := head, null;
    s, lastStatus := start, 0;
    ghost var i: nat := 0;
    while node != null
      invariant i <= |nodes| && node == (if i < |nodes| then nodes[i] else null)
      invariant prev == if i == 0 then null else nodes[i - 1]
      invariant RunFrom(m, values, 0, start, 0) == RunFrom(m, values, i, s, lastStatus)
      decreases |nodes| - i
    {
      ghost var turn := TurnAt(values, i, lastStatus);
      prev, node, s, lastStatus := OneNode(m, node, prev, nodes, values, i, s, lastStatus);
      i := turn.next;
    }
  }

  method Execute<S>(m: Machine<S>, s: S, status: int, a: Action) returns (s': S, status': int)
    ensures (s', status') == m.exec(s, status, a)
  {
    var r := m.exec(s, status, a);
    return r.0, r.1;
  }

  lemma ListAt(nodes: seq<CommandNode>, values: seq<Node>, i: nat)
    requires i < |nodes| && Linked(nodes[0], nodes) && Holds(nodes, values)
    ensures |nodes| == |values| && nodes[i].position == i && nodes[i].Value() == values[i]
    ensures nodes[i].next == if i + 1 < |nodes| then nodes[i + 1] else null
  {}

  /** The '?>' handler, which may take the next one or two nodes with it. */
  method GateNode<S>(m: Machine<S>, node: CommandNode, prev: CommandNode, ghost nodes: seq<CommandNode>,
                     ghost values: seq<Node>, ghost i: nat, s0: S, status0: int)
    returns (prev': CommandNode, node': CommandNode?, s: S, lastStatus: int)
    requires 0 < i < |nodes| && node == nodes[i] && prev == nodes[i - 1]
    requires Linked(nodes[0], nodes) && Holds(nodes, values)
    ensures |nodes| == |values|
    ensures var t := GateTurn(values, i);
            && i < t.next <= |nodes|
            && prev' == nodes[t.next - 1] && node' == (if t.next < |nodes| then nodes[t.next] else null)
            && (s, lastStatus) == Perform(m, t.effect, s0, status0)
  {
    hide Linked, Holds;
    s, lastStatus := s0, status0;
    prev', node' := node, node.next;
    ListAt(nodes, values, i - 1);
    ListAt(nodes, values, i);
    if i + 1 < |nodes| {
      ListAt(nodes, values, i + 1);
    }
    if i + 2 < |nodes| {
      ListAt(nodes, values, i + 2);
    }
    if node.args == [] {
      lastStatus := 1;
    } else if node.op == Bar && node.next != null && node.next.args != [] {
      var next := node.next;
      if next.op == LogTo && next.next != null && next.next.args != [] {
        var file := next.next;
        s, lastStatus := Execute(m, s, lastStatus,
                                 GateLogged(prev.position, node.position, next.position, file.position));
        prev', node' := next.next, next.next.next;
      } else {
        s, lastStatus := Execute(m, s, lastStatus, GateChained(prev.position, node.position, next.position));
        prev', node' := next, next.next;
      }
    } else {
      s, lastStatus := Execute(m, s, lastStatus, RiskGate(prev.position, node.position));
    }
  }

  /** One turn of the loop, at node, with prev before it. */
  method OneNode<S>(m: Machine<S>, node: CommandNode, prev: CommandNode?, ghost nodes: seq<CommandNode>,
                    ghost values: seq<Node>, ghost i: nat, s0: S, status0: int)
    returns (prev': CommandNode?, node': CommandNode?, s: S, lastStatus: int)
    requires i < |nodes| && node == nodes[i] && prev == if i == 0 then null else nodes[i - 1]
    requires Linked(nodes[0], nodes) && Holds(nodes, values)
    ensures var t := TurnAt(values, i, status0);
            && i < t.next <= |nodes|
            && prev' == nodes[t.next - 1] && node' == (if t.next < |nodes| then nodes[t.next] else null)
            && (s, lastStatus) == Perform(m, t.effect, s0, status0)
  {
    hide ValidRange, Linked, Holds;
    s, lastStatus := s0, status0;
    prev', node' := node, node.next;
    ListAt(nodes, values, i);
    if i > 0 {
      ListAt(nodes, values, i - 1);
    }
    hide GateTurn;
    if !node.isGroup && node.args == [] {
      return;
    }
    if prev != null {
      if prev.op == AndIf && lastStatus != 0 {
        return;
      }
      if prev.op == OrIf && lastStatus == 0 {
        return;
      }
      if prev.op == LogTo {
        if node.args != [] {
          s, lastStatus := Execute(m, s, lastStatus, LogCsv(prev.position, node.position));
        }
        return;
      }
      if prev.op == Gate {
        prev', node', s, lastStatus := GateNode(m, node, prev, nodes, values, i, s, lastStatus);
        return;
      }
      if prev.op == Bar {
        if node.args != [] {
          s, lastStatus := Execute(m, s, lastStatus, PipeInto(prev.position, node.position));
        }
        return;
      }
      if prev.op == Backtest {
        if node.args != [] && ValidRange(node.args[0]) {
          s, lastStatus := Execute(m, s, lastStatus, RunBacktest(prev.position, node.position));
        } else {
          lastStatus := 1;
        }
        return;
      }
    }
    var background := node.background || node.op == Amp;
    if node.isGroup {
      s, lastStatus := Execute(m, s, lastStatus,
        if background then StartGroup(node.position) else RunGroup(node.position));
      return;
    }
    if Capturing(node.op) {
      return;
    }
    s, lastStatus := Execute(m, s, lastStatus, if background then Start(node.position) else Run(node.position));
  }
}
