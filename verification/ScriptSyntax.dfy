/** What the line syntax of a script means: trimmed lines, conditions, and the guard of a
    streaming loop. */
module ScriptSyntax {
  import opened Text
  import opened Script

  const BLANKS := {' ', '\t'}
  const WHITE := {' ', '\t', '\n', '\r'}

  predicate Blanks(s: string) {
    forall c | c in s :: c in BLANKS
  }

  predicate AreWhite(s: string) {
    forall c | c in s :: c in WHITE
  }

  lemma {:induction false} SkipBlanksIs(pre: string, s: string)
    requires Blanks(pre) && (s == "" || s[0] !in BLANKS)
    ensures SkipBlanks(pre + s) == s
    decreases pre
  {
    if pre == "" {
      assert pre + s == s;
    } else {
      assert pre[0] in pre && (pre + s)[1..] == pre[1..] + s;
      assert forall c | c in pre[1..] :: c in pre;
      SkipBlanksIs(pre[1..], s);
    }
  }

  lemma {:induction false} DropTrailingIs(s: string, post: string, drop: set<char>)
    requires s != "" && s[|s| - 1] !in drop && forall c | c in post :: c in drop
    ensures DropTrailing(s + post, drop) == s
    decreases |post|
  {
    if post == "" {
      assert s + post == s;
    } else {
      var t, n := s + post, |post| - 1;
      assert t[|t| - 1] == post[n] && post[n] in post;
      assert t[..|t| - 1] == s + post[..n];
      assert forall c | c in post[..n] :: c in post;
      DropTrailingIs(s, post[..n], drop);
    }
  }

  /** A text that starts and ends with something to keep. */
  predicate IsCore(s: string) {
    s != "" && s[0] !in WHITE && s[|s| - 1] !in WHITE
  }

  /** Trimming takes off the blanks in front and the white space behind, and nothing else. */
  lemma TrimIs(pre: string, core: string, post: string)
    requires Blanks(pre) && IsCore(core) && AreWhite(post)
    ensures Trim(pre + core + post) == core
  {
    assert pre + core + post == pre + (core + post);
    assert (core + post)[0] == core[0];
    SkipBlanksIs(pre, core + post);
    DropTrailingIs(core, post, WHITE);
  }

  /** What may follow a condition on its line: blanks, and a semicolon with anything. */
  predicate EndsCondition(tail: string) {
    Blanks(CutAt(tail, ';'))
  }

  lemma CutCondition(c: string, tail: string)
    requires c != "" && ';' !in c && c[|c| - 1] !in BLANKS && EndsCondition(tail)
    ensures DropTrailing(CutAt(c + tail, ';'), {' ', '\t'}) == c
  {
    IndexOfAfter(c, tail, ';');
    var n := IndexOf(tail, ';');
    assert (c + tail)[..|c| + n] == c + tail[..n];
    DropTrailingIs(c, tail[..n], {' ', '\t'});
  }

  /** The condition of a while header, with or without "; do" behind it. */
  lemma WhileConditionIs(pre: string, c: string, tail: string)
    requires Blanks(pre) && c != "" && ';' !in c && c[0] !in BLANKS && c[|c| - 1] !in BLANKS && EndsCondition(tail)
    requires pre != "" && pre[0] == ' '
    ensures var t := "while" + pre + c + tail; IsWhile(t) && WhileCondition(t) == c
  {
    var t := "while" + pre + c + tail;
    assert t[5..] == pre + (c + tail) && (c + tail)[0] == c[0];
    assert t[..6] == "while ";
    SkipBlanksIs(pre, c + tail);
    CutCondition(c, tail);
  }

  /** The condition of an if header, with or without "; then" behind it. */
  lemma IfConditionIs(c: string, tail: string)
    requires c != "" && ';' !in c && c[|c| - 1] !in BLANKS && EndsCondition(tail)
    ensures var t := "if " + c + tail; IsIf(t) && IfCondition(t) == c
  {
    var t := "if " + c + tail;
    assert t[3..] == c + tail && t[..3] == "if ";
    CutCondition(c, tail);
  }

  // ----------------------------------------------------------- streaming guards

  /** Text whose parentheses are balanced. */
  datatype Nested = End | Char(c: char, rest: Nested) | Group(inner: Nested, rest: Nested)

  predicate IsNested(t: Nested) {
    match t
    case End => true
    case Char(c, rest) => c != '(' && c != ')' && IsNested(rest)
    case Group(inner, rest) => IsNested(inner) && IsNested(rest)
  }

  function Show(t: Nested): string {
    match t
    case End => ""
    case Char(c, rest) => [c] + Show(rest)
    case Group(inner, rest) => "(" + (Show(inner) + (")" + Show(rest)))
  }

  /** Balanced text is read over at any depth. */
  lemma {:induction false} OverNested(t: Nested, tail: string, depth: nat)
    requires IsNested(t) && depth > 0
    ensures UpToMatching(Show(t) + tail, depth) == Show(t) + UpToMatching(tail, depth)
    decreases t
  {
    match t
    case End =>
      assert Show(t) + tail == tail;
    case Char(c, rest) =>
      OverNested(rest, tail, depth);
      hide UpToMatching, Show;
      CharStep(c, Show(rest) + tail, depth);
      Assoc([c], Show(rest), tail);
      Assoc([c], Show(rest), UpToMatching(tail, depth));
    case Group(inner, rest) =>
      var after := Show(rest) + tail;
      OverNested(inner, ")" + after, depth + 1);
      OverNested(rest, tail, depth);
      hide UpToMatching, Show;
      GroupStep(Show(inner), after, depth);
      GroupJoins(Show(inner), Show(rest), tail);
      GroupJoins(Show(inner), Show(rest), UpToMatching(tail, depth));
  }

  lemma GroupJoins(inner: string, rest: string, tail: string)
    ensures "(" + (inner + (")" + rest)) + tail == "(" + (inner + (")" + (rest + tail)))
  {}

  lemma CharStep(c: char, s: string, depth: nat)
    requires c != '(' && c != ')' && depth > 0
    ensures UpToMatching([c] + s, depth) == [c] + UpToMatching(s, depth)
  {
    assert ([c] + s)[1..] == s;
  }

  lemma GroupStep(inner: string, after: string, depth: nat)
    requires depth > 0 && UpToMatching(inner + (")" + after), depth + 1) == inner + UpToMatching(")" + after, depth + 1)
    ensures UpToMatching("(" + (inner + (")" + after)), depth) == "(" + (inner + (")" + UpToMatching(after, depth)))
  {
    assert ("(" + (inner + (")" + after)))[1..] == inner + (")" + after);
    assert (")" + after)[1..] == after;
  }

  lemma GuardShape(name: string, after: string)
    requires '=' !in name
    ensures GuardOf(name + ("=$<(" + after)) == Stream(name, UpToMatching(after, 1))
  {
    hide UpToMatching, IndexOf;
    var guard := "=$<(" + after;
    var s := name + guard;
    assert s[|name|] == '=' && s[..|name|] == name;
    IndexOfIs(s, '=', |name|);
    Opening(name, after);
  }

  lemma Opening(name: string, after: string)
    ensures var s := name + ("=$<(" + after); s[|name| + 4..] == after && "$<(" <= s[|name| + 1..]
  {
    var s := name + ("=$<(" + after);
    assert s[|name| + 1..] == "$<(" + after;
  }

  /** NAME=$<(command) is a streaming guard for exactly that name and command, whatever
      balanced parentheses the command holds and whatever follows it. */
  lemma StreamGuard(name: string, command: Nested, rest: string)
    requires '=' !in name && IsNested(command)
    ensures GuardOf(name + ("=$<(" + (Show(command) + (")" + rest)))) == Stream(name, Show(command))
  {
    var closed := ")" + rest;
    assert UpToMatching(closed, 1) == [];
    hide UpToMatching, GuardOf, Show, IsNested;
    OverNested(command, closed, 1);
    GuardShape(name, Show(command) + closed);
    assert Show(command) + [] == Show(command);
  }

  /** Every other condition is a plain one. */
  lemma PlainGuardIff(condition: string)
    ensures GuardOf(condition) == Plain(condition) <==>
            !exists name: string, rest: string :: '=' !in name && condition == name + ("=$<(" + rest)
  {
    var eq := IndexOf(condition, '=');
    if eq < |condition| && "$<(" <= condition[eq + 1..] {
      var name, rest := condition[..eq], condition[eq + 4..];
      assert condition[eq + 1..][..3] == "$<(";
      assert condition == name + ("=$<(" + rest);
    } else {
      hide UpToMatching;
      assert GuardOf(condition) == Plain(condition);
      hide GuardOf;
      forall name: string, rest: string | '=' !in name
        ensures condition != name + ("=$<(" + rest)
      {
        GuardShape(name, rest);
      }
    }
  }
}
