/** When a script line goes on on the next one, and what is read then. */
module ScriptContinuation {
  import opened Text
  import opened Script
  import opened ScriptFile
  import opened ScriptRun

  /** Text in which every quote that opens is closed: a character that is no quote, or a
      quoted piece without its own quote, and so on. */
  datatype Quoted = End | Char(c: char, rest: Quoted) | Piece(quote: char, inside: string, rest: Quoted)

  predicate IsClosed(t: Quoted) {
    match t
    case End => true
    case Char(c, rest) => c != '\'' && c != '"' && IsClosed(rest)
    case Piece(q, inside, rest) => (q == '\'' || q == '"') && q !in inside && IsClosed(rest)
  }

  function Show(t: Quoted): string {
    match t
    case End => ""
    case Char(c, rest) => [c] + Show(rest)
    case Piece(q, inside, rest) => [q] + (inside + ([q] + Show(rest)))
  }

  lemma {:induction false} OverInside(q: char, inside: string, rest: string)
    requires (q == '\'' || q == '"') && q !in inside
    ensures QuotesAfter(inside + rest, q == '\'', q == '"') == QuotesAfter(rest, q == '\'', q == '"')
    decreases inside
  {
    if inside == "" {
      assert inside + rest == rest;
    } else {
      var t := inside + rest;
      assert inside[0] in inside && t[0] == inside[0] && t[1..] == inside[1..] + rest;
      assert forall c | c in inside[1..] :: c in inside;
      OverInside(q, inside[1..], rest);
    }
  }

  lemma OverQuote(q: char, single: bool, double: bool, rest: string)
    requires q == '\'' || q == '"'
    ensures QuotesAfter([q] + rest, false, false) == QuotesAfter(rest, q == '\'', q == '"')
    ensures QuotesAfter([q] + rest, q == '\'', q == '"') == QuotesAfter(rest, false, false)
  {
    assert ([q] + rest)[1..] == rest;
  }

  lemma {:induction false} OverClosed(t: Quoted, rest: string)
    requires IsClosed(t)
    ensures QuotesAfter(Show(t) + rest, false, false) == QuotesAfter(rest, false, false)
    decreases t
  {
    match t
    case End =>
      assert Show(t) + rest == rest;
    case Char(c, more) =>
      var s := Show(t) + rest;
      assert s[0] == c && s[1..] == Show(more) + rest;
      OverClosed(more, rest);
    case Piece(q, inside, more) =>
      var after := Show(more) + rest;
      assert Show(t) + rest == [q] + (inside + ([q] + after));
      OverClosed(more, rest);
      hide QuotesAfter;
      OverQuote(q, false, false, inside + ([q] + after));
      OverInside(q, inside, [q] + after);
      OverQuote(q, false, false, after);
  }

  /** Every text is closed text, and perhaps an open quote with what is inside it. */
  lemma {:induction false} Parses(s: string) returns (t: Quoted, open: Option<(char, string)>)
    ensures IsClosed(t)
    ensures open.Some? ==>
              (open.value.0 == '\'' || open.value.0 == '"') && open.value.0 !in open.value.1
    ensures s == Show(t) + if open.Some? then [open.value.0] + open.value.1 else ""
    decreases |s|
  {
    t, open := End, None;
    if s != "" {
      var c, rest := s[0], s[1..];
      assert s == [c] + rest;
      if c == '\'' || c == '"' {
        var k := IndexOf(rest, c);
        if k == |rest| {
          open := Some((c, rest));
        } else {
          var inside, more := rest[..k], rest[k + 1..];
          assert rest == inside + ([c] + more);
          t, open := Parses(more);
          var tail := if open.Some? then [open.value.0] + open.value.1 else "";
          Regroup(c, inside, Show(t), tail);
          t := Piece(c, inside, t);
        }
      } else {
        t, open := Parses(rest);
        Assoc([c], Show(t), if open.Some? then [open.value.0] + open.value.1 else "");
        t := Char(c, t);
      }
    }
  }

  lemma Regroup(c: char, inside: string, more: string, tail: string)
    ensures [c] + (inside + ([c] + (more + tail))) == [c] + (inside + ([c] + more)) + tail
  {}

  /** The end of the text is inside a quote: after closed text a quote opens and is not
      closed again. */
  ghost predicate EndsInQuote(s: string) {
    exists t: Quoted, q: char, inside: string ::
      IsClosed(t) && (q == '\'' || q == '"') && q !in inside && s == Show(t) + ([q] + inside)
  }

  lemma QuotesAfterIff(s: string)
    ensures QuotesAfter(s, false, false) <==> EndsInQuote(s)
  {
    hide QuotesAfter;
    if EndsInQuote(s) {
      var t: Quoted, q: char, inside: string :|
        IsClosed(t) && (q == '\'' || q == '"') && q !in inside && s == Show(t) + ([q] + inside);
      EndsOpen(t, q, inside);
    }
    var t, open := Parses(s);
    if open.None? {
      assert s == Show(t) + "";
      OverClosed(t, "");
      AtEnd(false, false);
    }
  }

  lemma EndsOpen(t: Quoted, q: char, inside: string)
    requires IsClosed(t) && (q == '\'' || q == '"') && q !in inside
    ensures QuotesAfter(Show(t) + ([q] + inside), false, false)
  {
    hide QuotesAfter;
    OverClosed(t, [q] + inside);
    OverQuote(q, false, false, inside);
    OverInside(q, inside, "");
    assert inside + "" == inside;
    AtEnd(q == '\'', q == '"');
  }

  lemma AtEnd(single: bool, double: bool)
    ensures QuotesAfter("", single, double) == (single || double)
  {}

  /** A line goes on exactly when it ends in a backslash that stands outside quotes. */
  lemma ContinuesIff(line: string)
    ensures Continues(line) <==> exists before: string :: line == before + "\\" && !EndsInQuote(before)
  {
    hide QuotesAfter, EndsInQuote;
    if line != "" {
      var before := line[..|line| - 1];
      QuotesAfterIff(before);
      if line[|line| - 1] == '\\' {
        assert line == before + "\\";
      }
    }
    if before: string :| line == before + "\\" && !EndsInQuote(before) {
      assert line[..|line| - 1] == before;
      QuotesAfterIff(before);
    }
  }

  /** The next line is joined on as far as the 4096 characters of the buffer go. */
  lemma JoinedFits(cut: string, next: string)
    ensures cut <= Joined(cut, next) <= cut + next
    ensures |Joined(cut, next)| < 4096 || Joined(cut, next) == cut
    ensures Joined(cut, next) == cut + next <==> |cut + next| < 4096 || next == ""
  {}

  /** Empty lines and lines that start with "#!" are passed over. */
  lemma LinePassedOver<S>(m: Machine<S>, h: Hooks<S>, line: string, rest: seq<string>, s: S, status: int)
    requires line == "" || (|line| >= 2 && line[0] == '#' && line[1] == '!')
    ensures RunScript(m, h, [line] + rest, s, status) == RunScript(m, h, rest, s, status)
  {
    assert ([line] + rest)[1..] == rest;
    hide Logical, Trim, IsIgnored, IsIf, CollectBlock, Gather, RunWhile, RunIf, TopLine, SkipKeyword;
  }

  /** A line longer than the buffer is read as several, the first of 4095 characters. */
  lemma LongLineIsCut(text: string)
    requires |text| > 4095 && NEWLINE !in text[..4095]
    ensures FileLines(text) == [CString(text[..4095])] + FileLines(text[4095..])
  {
    var front := text[..4095];
    assert forall i | 0 <= i < 4095 :: front[i] == text[i] != NEWLINE;
    assert ReadSize(text, 4096) == 4095;
    var shown := CString(front);
    if shown != "" {
      assert shown[|shown| - 1] == front[|shown| - 1];
    }
  }
}
