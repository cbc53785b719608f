/** Reading a line back: commands joined by operators are split and parsed into exactly
    those commands with those operators. */
module OperatorText {
  import opened Text
  import opened Operators
  import opened OperatorCode

  /** A command text and the operator written after it. */
  datatype Link = Link(text: string, op: string)

  function Join(links: seq<Link>, last: string): string {
    if links == [] then last else links[0].text + (links[0].op + Join(links[1..], last))
  }

  function First(s: string): string {
    if s == "" then "" else [s[0]]
  }

  /** The splitter reads over seg, which after follows, without seeing an operator, and
      ends outside quotes and braces. */
  predicate Passes(seg: string, after: string, quote: Option<char>, depth: nat, seen: bool)
    decreases seg
  {
    if seg == "" then quote.None? && depth == 0
    else
      var c, rest := seg[0], seg[1..];
      if quote.None? && (c == '"' || c == '\'') then Passes(rest, after, Some(c), depth, seen)
      else if quote.Some? then Passes(rest, after, if c == quote.value then None else quote, depth, seen)
      else if c == '{' then Passes(rest, after, None, depth + 1, seen)
      else if c == '}' then Passes(rest, after, None, if depth > 0 then depth - 1 else 0, seen)
      else if depth > 0 then Passes(rest, after, None, depth, seen)
      else OpHere(seg + after, seen) == "" && Passes(rest, after, None, 0, seen)
  }

  lemma OpHereIsLocal(seg: string, tail: string, seen: bool)
    requires seg != ""
    ensures OpHere(seg + tail, seen) == OpHere(seg + First(tail), seen)
  {
    if |seg| == 1 && tail != "" {
      assert (seg + tail)[1] == tail[0] == (seg + First(tail))[1];
    } else if |seg| > 1 {
      assert (seg + tail)[1] == seg[1] == (seg + First(tail))[1];
    }
  }

  lemma {:induction false} PassesSplit(acc: string, seg: string, tail: string,
                                       quote: Option<char>, depth: nat, seen: bool)
    requires Passes(seg, First(tail), quote, depth, seen)
    ensures SplitFrom(acc, seg + tail, quote, depth, seen) == SplitFrom(acc + seg, tail, None, 0, seen)
    decreases seg
  {
    if seg == "" {
      assert seg + tail == tail && acc + seg == acc;
    } else {
      var c, rest := seg[0], seg[1..];
      assert (seg + tail)[0] == c && (seg + tail)[1..] == rest + tail;
      assert acc + [c] + rest == acc + seg;
      OpHereIsLocal(seg, tail, seen);
      hide OpHere;
      if quote.None? && (c == '"' || c == '\'') {
        PassesSplit(acc + [c], rest, tail, Some(c), depth, seen);
      } else if quote.Some? {
        PassesSplit(acc + [c], rest, tail, if c == quote.value then None else quote, depth, seen);
      } else if c == '{' {
        PassesSplit(acc + [c], rest, tail, None, depth + 1, seen);
      } else if c == '}' {
        PassesSplit(acc + [c], rest, tail, None, if depth > 0 then depth - 1 else 0, seen);
      } else if depth > 0 {
        PassesSplit(acc + [c], rest, tail, None, depth, seen);
      } else {
        PassesSplit(acc + [c], rest, tail, None, 0, seen);
      }
    }
  }

  /** Every text passes, and every operator is read as written; a single '|' is one only
      after another operator. */
  predicate Readable(links: seq<Link>, last: string, seen: bool)
    decreases links
  {
    if links == [] then Passes(last, "", None, 0, seen)
    else
      var l, rest := links[0], Join(links[1..], last);
      && l.op != ""
      && Passes(l.text, First(l.op), None, 0, seen)
      && OpHere(l.op + rest, seen) == l.op
      && Readable(links[1..], last, true)
  }

  function Parts(links: seq<Link>, last: string): seq<string>
    decreases links
  {
    if links == [] then Segment(last) else Segment(links[0].text) + [links[0].op] + Parts(links[1..], last)
  }

  lemma {:induction false} SplitOfJoin(links: seq<Link>, last: string, seen: bool)
    requires Readable(links, last, seen)
    ensures SplitFrom("", Join(links, last), None, 0, seen) == Parts(links, last)
    decreases links
  {
    if links == [] {
      assert last + "" == last && "" + last == last;
      PassesSplit("", last, "", None, 0, seen);
    } else {
      var l, rest := links[0], Join(links[1..], last);
      var tail := l.op + rest;
      assert First(tail) == First(l.op);
      PassesSplit("", l.text, tail, None, 0, seen);
      assert "" + l.text == l.text;
      SplitOfJoin(links[1..], last, true);
      StopsAtOperator(l, rest, seen);
    }
  }

  lemma StopsAtOperator(l: Link, rest: string, seen: bool)
    requires l.op != "" && OpHere(l.op + rest, seen) == l.op
    ensures SplitFrom(l.text, l.op + rest, None, 0, seen) ==
            Segment(l.text) + [l.op] + SplitFrom("", rest, None, 0, true)
  {
    var tail := l.op + rest;
    assert tail[0] == l.op[0] && tail[|l.op|..] == rest;
  }

  // ------------------------------------------------------------ the nodes of a line

  function FoldParts(parse: string -> seq<string>, nodes: seq<Node>, parts: seq<string>): seq<Node>
    decreases parts
  {
    if parts == [] then nodes else FoldParts(parse, AddPart(parse, nodes, parts[0]), parts[1..])
  }

  lemma {:induction false} FoldLast(parse: string -> seq<string>, nodes: seq<Node>, parts: seq<string>, p: string)
    ensures FoldParts(parse, nodes, parts + [p]) == AddPart(parse, FoldParts(parse, nodes, parts), p)
    decreases parts
  {
    if parts == [] {
      assert (parts + [p])[1..] == [];
    } else {
      assert (parts + [p])[1..] == parts[1..] + [p];
      FoldLast(parse, AddPart(parse, nodes, parts[0]), parts[1..], p);
    }
  }

  lemma {:induction false} NodesOfIsFold(parse: string -> seq<string>, parts: seq<string>)
    ensures NodesOf(parse, parts) == FoldParts(parse, [], parts)
  {
    if parts != [] {
      var init, p := parts[..|parts| - 1], parts[|parts| - 1];
      assert parts == init + [p];
      NodesOfIsFold(parse, init);
      FoldLast(parse, [], init, p);
    }
  }

  /** The node a command text becomes. */
  function CommandOf(parse: string -> seq<string>, text: string): Node {
    NodeOf(parse, DropTrailing(text, {' ', '\t'}))
  }

  function ChainOf(parse: string -> seq<string>, links: seq<Link>, last: string): seq<Node>
    decreases links
  {
    if links == [] then (if last == "" then [] else [CommandOf(parse, last)])
    else [CommandOf(parse, links[0].text).(op := OpOf(links[0].op))] + ChainOf(parse, links[1..], last)
  }

  predicate IsCommand(text: string) {
    text != "" && OpOf(DropTrailing(text, {' ', '\t'})) == NoOp
  }

  lemma FoldOfLink(parse: string -> seq<string>, nodes: seq<Node>, l: Link, rest: seq<string>)
    requires IsCommand(l.text) && OpOf(l.op) != NoOp
    ensures FoldParts(parse, nodes, [DropTrailing(l.text, {' ', '\t'})] + [l.op] + rest) ==
            FoldParts(parse, nodes + [CommandOf(parse, l.text).(op := OpOf(l.op))], rest)
  {
    var text := DropTrailing(l.text, {' ', '\t'});
    var node := CommandOf(parse, l.text);
    var parts := [text] + [l.op] + rest;
    assert parts[0] == text && parts[1..][0] == l.op && parts[1..][1..] == rest;
    assert AddPart(parse, nodes, text) == nodes + [node];
    assert AddPart(parse, nodes + [node], l.op) == nodes + [node.(op := OpOf(l.op))];
    hide NodeOf, OpOf, DropTrailing, AddPart;
  }

  lemma {:induction false} FoldOfParts(parse: string -> seq<string>, nodes: seq<Node>, links: seq<Link>, last: string)
    requires forall k | 0 <= k < |links| :: IsCommand(links[k].text) && OpOf(links[k].op) != NoOp
    requires last == "" || IsCommand(last)
    ensures FoldParts(parse, nodes, Parts(links, last)) == nodes + ChainOf(parse, links, last)
    decreases links
  {
    hide NodeOf, OpOf, DropTrailing;
    if links == [] {
      if last == "" {
        assert nodes + [] == nodes;
      } else {
        assert Segment(last)[1..] == [];
      }
    } else {
      var l, rest := links[0], links[1..];
      var node := CommandOf(parse, l.text).(op := OpOf(l.op));
      assert Segment(l.text) == [DropTrailing(l.text, {' ', '\t'})];
      FoldOfLink(parse, nodes, l, Parts(rest, last));
      FoldOfParts(parse, nodes + [node], rest, last);
      assert nodes + [node] + ChainOf(parse, rest, last) == nodes + ([node] + ChainOf(parse, rest, last));
    }
  }

  /** A readable line is parsed into its own commands and operators. */
  lemma LineToChain(parse: string -> seq<string>, links: seq<Link>, last: string)
    requires Readable(links, last, false)
    requires forall k | 0 <= k < |links| :: IsCommand(links[k].text) && OpOf(links[k].op) != NoOp
    requires last == "" || IsCommand(last)
    ensures NodesOf(parse, SplitFrom("", Join(links, last), None, 0, false)) == ChainOf(parse, links, last)
  {
    SplitOfJoin(links, last, false);
    NodesOfIsFold(parse, Parts(links, last));
    FoldOfParts(parse, [], links, last);
  }

  // -------------------------------------------------------- what hides an operator

  lemma {:induction false} PassesQuoted(body: string, q: char, after: string, depth: nat, rest: string, seen: bool)
    requires q !in body
    ensures Passes(body + ([q] + rest), after, Some(q), depth, seen) == Passes(rest, after, None, depth, seen)
    decreases body
  {
    var t := body + ([q] + rest);
    if body == "" {
      assert t[0] == q && t[1..] == rest;
    } else {
      assert t[0] == body[0] && t[1..] == body[1..] + ([q] + rest);
      assert body[0] in body;
      PassesQuoted(body[1..], q, after, depth, rest, seen);
    }
  }

  /** Whatever stands between two quotes is passed over, operators and braces included. */
  lemma QuotesHideOperators(body: string, q: char, after: string, depth: nat, rest: string, seen: bool)
    requires q in {'"', '\''} && q !in body
    ensures Passes([q] + (body + ([q] + rest)), after, None, depth, seen) == Passes(rest, after, None, depth, seen)
  {
    var t := [q] + (body + ([q] + rest));
    assert t[0] == q && t[1..] == body + ([q] + rest);
    PassesQuoted(body, q, after, depth, rest, seen);
  }

  lemma {:induction false} PassesBraced(body: string, after: string, depth: nat, rest: string, seen: bool)
    requires forall c | c in body :: c !in {'"', '\'', '{', '}'}
    ensures Passes(body + rest, after, None, depth + 1, seen) == Passes(rest, after, None, depth + 1, seen)
    decreases body
  {
    if body == "" {
      assert body + rest == rest;
    } else {
      assert (body + rest)[0] == body[0] && (body + rest)[1..] == body[1..] + rest;
      assert body[0] in body && forall c | c in body[1..] :: c in body;
      PassesBraced(body[1..], after, depth, rest, seen);
    }
  }

  /** So is what stands inside braces, at any depth. */
  lemma BracesHideOperators(body: string, after: string, depth: nat, rest: string, seen: bool)
    requires forall c | c in body :: c !in {'"', '\'', '{', '}'}
    ensures Passes("{" + (body + ("}" + rest)), after, None, depth, seen) == Passes(rest, after, None, depth, seen)
  {
    var t := "{" + (body + ("}" + rest));
    assert t[0] == '{' && t[1..] == body + ("}" + rest);
    PassesBraced(body, after, depth, "}" + rest, seen);
    assert ("}" + rest)[0] == '}' && ("}" + rest)[1..] == rest;
  }
}
