/** The collectors that read a script straight from its file (collect_block and
    the inline if collector of execute_script), and their agreement with the
    list-based ones. */
module ScriptFile {
  import opened Text
  import opened Script

  const LINE_SIZE: nat := 4096

  function WithoutNewline(line: string): string {
    if line != "" && line[|line| - 1] == NEWLINE then line[..|line| - 1] else line
  }

  /** The lines successive reads of the text see; an overlong line is several, and a NUL
      ends a line early. */
  function FileLines(text: string): seq<string> {
    if text == "" then []
    else [WithoutNewline(CString(text[..ReadSize(text, LINE_SIZE)]))] + FileLines(text[ReadSize(text, LINE_SIZE)..])
  }

  /** A line that one read takes in. */
  predicate FitsLine(line: string) {
    NEWLINE !in line && |line| < 4095
  }

  function CStrings(lines: seq<string>): seq<string> {
    if lines == [] then [] else [CString(lines[0])] + CStrings(lines[1..])
  }

  lemma {:induction false} CStringsWithoutNul(lines: seq<string>)
    requires forall l :: l in lines ==> NUL !in l
    ensures CStrings(lines) == lines
  {
    if lines != [] {
      CStringWithoutNul(lines[0]);
      CStringsWithoutNul(lines[1..]);
    }
  }

  /** Reading back what was written, line by line: each up to its first NUL. */
  lemma {:induction false} FileLinesOfUnlines(lines: seq<string>)
    requires forall l :: l in lines ==> FitsLine(l)
    ensures FileLines(Unlines(lines)) == CStrings(lines)
  {
    if lines != [] {
      var text := Unlines(lines);
      var l := lines[0];
      assert text[..|l|] == l;
      assert FitsLine(l);
      IndexOfIs(text, NEWLINE, |l|);
      assert text[..|l| + 1] == l + [NEWLINE];
      LineIsRead(l);
      assert text[|l| + 1..] == Unlines(lines[1..]);
      FileLinesOfUnlines(lines[1..]);
    }
  }

  lemma LineIsRead(l: string)
    requires NEWLINE !in l
    ensures WithoutNewline(CString(l + [NEWLINE])) == CString(l)
  {
    if NUL in l {
      var n := IndexOf(l, NUL);
      assert l[n] == NUL;
      assert (l + [NEWLINE])[..n] == l[..n];
      IndexOfIs(l + [NEWLINE], NUL, n);
      assert forall c | c in l[..n] :: c in l;
    } else {
      CStringWithoutNul(l);
      CStringWithoutNul(l + [NEWLINE]);
    }
  }

  /** An open script file: its text and the read position. `left` is what the
      remaining reads will see. */
  class File {
    const text: string
    var pos: nat
    ghost var left: seq<string>

    ghost predicate Valid()
      reads this
    {
      pos <= |text| && left == FileLines(text[pos..])
    }

    constructor (text: string)
      ensures Valid() && this.text == text && pos == 0
    {
      this.text, pos := text, 0;
      left := FileLines(text[0..]);
    }

    /** fgets and strlen, with the newline cut off, as every caller does or lets trimming do. */
    method ReadLine() returns (line: Option<string>)
      requires Valid()
      modifies this
      ensures Valid()
      ensures old(left) == if line.None? then [] else [line.value] + left
      ensures line.None? ==> left == []
      ensures pos >= old(pos) && (line.Some? ==> pos > old(pos))
    {
      if pos == |text| {
        return None;
      }
      var n := ReadSize(text[pos..], LINE_SIZE);
      line := Some(WithoutNewline(CString(text[pos..][..n])));
      assert text[pos..][n..] == text[pos + n..];
      pos := pos + n;
      left := FileLines(text[pos..]);
    }
  }

  /** collect_block: the same body as the list-based collector on the file's lines. */
  method CollectBlockFromFile(f: File, body: LineList) returns (ok: bool)
    requires f.Valid() && body.lines == []
    modifies f, body
    ensures f.Valid() && f.pos >= old(f.pos)
    ensures var c := CollectBlock(old(f.left), 1);
            ok == c.Some? && (ok ==> c.value == Collected(body.lines, f.left))
  {
    hide Trim, IsWhile, FileLines;
    var depth := 1;
    ghost var goal := CollectBlock(f.left, 1);
    PrependNothing(goal);
    while true
      invariant f.Valid() && f.pos >= old(f.pos) && depth > 0
      invariant goal == Prepend(body.lines, CollectBlock(f.left, depth))
      decreases |f.text| - f.pos
    {
      ghost var before := f.left;
      var read := f.ReadLine();
      if read.None? {
        return false;
      }
      var line := read.value;
      assert before[0] == line && before[1..] == f.left;
      var trimmed := Trim(line);
      Keywords();
      if IsWhile(trimmed) {
        depth := depth + 1;
      }
      if trimmed == "done" {
        depth := depth - 1;
        if depth == 0 {
          return true;
        }
      }
      ghost var r := CollectBlock(f.left, depth);
      PrependPush(body.lines, line, r);
      body.Add(line);
    }
  }

  /** What the if collector of execute_script has taken in when it stops, and whether
      it stopped at its "fi". Without one it has taken in all lines. */
  function Gather(lines: seq<string>, depth: nat, inElse: bool): (r: (CollectedIf, bool))
    requires depth > 0
    ensures |r.0.rest| <= |lines|
  {
    if lines == [] then (CollectedIf([], [], []), false)
    else
      var t := Trim(lines[0]);
      var depth' := if IsIf(t) then depth + 1 else if t == "fi" then depth - 1 else depth;
      if depth' == 0 then (CollectedIf([], [], lines[1..]), true)
      else if depth' == 1 && t == "else" then Gather(lines[1..], depth', true)
      else GatherPush(lines[0], inElse, Gather(lines[1..], depth', inElse))
  }

  function GatherPush(line: string, inElse: bool, r: (CollectedIf, bool)): (CollectedIf, bool) {
    (if inElse then r.0.(no := [line] + r.0.no) else r.0.(yes := [line] + r.0.yes), r.1)
  }

  /** With a matching "fi" it takes in the same lines as the list-based collector. */
  lemma {:induction false} GatherIsCollect(lines: seq<string>, depth: nat, inElse: bool)
    requires depth > 0
    ensures CollectIf(lines, depth, inElse) ==
            if Gather(lines, depth, inElse).1 then Some(Gather(lines, depth, inElse).0) else None
    decreases lines
  {
    if lines != [] {
      Keywords();
      var t := Trim(lines[0]);
      var depth' := if IsIf(t) then depth + 1 else if t == "fi" then depth - 1 else depth;
      if depth' > 0 {
        GatherIsCollect(lines[1..], depth', inElse || (depth' == 1 && t == "else"));
      }
    }
  }

  function GatherAfter(yes: seq<string>, no: seq<string>, r: (CollectedIf, bool)): (CollectedIf, bool) {
    (r.0.(yes := yes + r.0.yes, no := no + r.0.no), r.1)
  }

  lemma GatherNothing(r: (CollectedIf, bool))
    ensures GatherAfter([], [], r) == r
  {
    assert [] + r.0.yes == r.0.yes && [] + r.0.no == r.0.no;
  }

  lemma GatherStep(yes: seq<string>, no: seq<string>, line: string, rest: seq<string>, depth: nat, inElse: bool)
    requires depth > 0
    ensures var t := Trim(line);
            var depth' := if IsIf(t) then depth + 1 else if t == "fi" then depth - 1 else depth;
            GatherAfter(yes, no, Gather([line] + rest, depth, inElse)) ==
            if depth' == 0 then (CollectedIf(yes, no, rest), true)
            else if depth' == 1 && t == "else" then GatherAfter(yes, no, Gather(rest, depth', true))
            else if inElse then GatherAfter(yes, no + [line], Gather(rest, depth', inElse))
            else GatherAfter(yes + [line], no, Gather(rest, depth', inElse))
    ensures GatherAfter(yes, no, Gather([], depth, inElse)) == (CollectedIf(yes, no, []), false)
  {
    var t := Trim(line);
    var depth' := if IsIf(t) then depth + 1 else if t == "fi" then depth - 1 else depth;
    assert ([line] + rest)[1..] == rest && yes + [] == yes && no + [] == no;
    if depth' > 0 && !(depth' == 1 && t == "else") {
      var r := Gather(rest, depth', inElse);
      Assoc(if inElse then no else yes, [line], if inElse then r.0.no else r.0.yes);
    }
  }

  /** The if/else/fi collector of execute_script. */
  method CollectIfFromFile(f: File, yes: LineList, no: LineList) returns (found: bool)
    requires f.Valid() && yes != no && yes.lines == [] && no.lines == []
    modifies f, yes, no
    ensures f.Valid() && f.pos >= old(f.pos)
    ensures (CollectedIf(yes.lines, no.lines, f.left), found) == Gather(old(f.left), 1, false)
  {
    hide Trim, IsIf, FileLines, Gather, GatherAfter;
    Keywords();
    var active := yes;
    var depth := 1;
    ghost var goal := Gather(f.left, 1, false);
    GatherNothing(goal);
    while true
      invariant f.Valid() && f.pos >= old(f.pos) && depth > 0
      invariant active == yes || active == no
      invariant goal == GatherAfter(yes.lines, no.lines, Gather(f.left, depth, active == no))
      decreases |f.text| - f.pos
    {
      ghost var before := f.left;
      var read := f.ReadLine();
      if read.None? {
        GatherStep(yes.lines, no.lines, "", [], depth, active == no);
        return false;
      }
      var line := read.value;
      assert [line] + f.left == before;
      GatherStep(yes.lines, no.lines, line, f.left, depth, active == no);
      var trimmed := Trim(line);
      if IsIf(trimmed) {
        depth := depth + 1;
      }
      if trimmed == "fi" {
        depth := depth - 1;
        if depth == 0 {
          return true;
        }
      }
      if depth == 1 && trimmed == "else" {
        active := no;
        continue;
      }
      active.Add(line);
    }
  }
}
