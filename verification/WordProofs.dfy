/** The quoter and the splitter undo each other, and exactly when. */
module WordProofs {
  import opened Text
  import opened Words

  /** The splitter takes this character of an unquoted word as it stands. */
  predicate GoodAt(s: string, k: nat)
    requires k < |s|
  {
    var c := s[k];
    && !IsSpaceChar(c) && c != '\'' && c != '"'
    && !(c == '$' && NextIs(s, k + 1, '?'))
    && (c == '<' || c == '>' ==> NextIs(s, k + 1, '=') || (c == '>' && k > 0 && s[k - 1] == '?'))
  }

  predicate Plain(s: string) {
    forall k | 0 <= k < |s| :: GoodAt(s, k)
  }

  predicate IsRedirection(s: string) {
    s == "<" || s == ">" || s == ">>"
  }

  /** The arguments that survive: quoted ones, plain ones, and redirection operators. */
  predicate Exact(arg: string) {
    arg != "" && (NeedsQuote(arg) || Plain(arg) || IsRedirection(arg))
  }

  /** A word ends at the end of the text or at a space. */
  predicate Ends(tail: string) {
    tail == "" || tail[0] == ' '
  }

  function After(sh: Shell, tail: string): seq<string> {
    if tail == "" then [] else Tokens(sh, "", tail[1..])
  }

  // --------------------------------------------------------------- plain words

  lemma NextIsLocal(s: string, k: nat, tail: string, c: char)
    requires k < |s| && Ends(tail) && c != ' '
    ensures NextIs(s[k..] + tail, 1, c) <==> NextIs(s, k + 1, c)
  {
    var t := s[k..] + tail;
    if k + 1 < |s| {
      assert t[1] == s[k + 1];
    } else if tail != "" {
      assert t[1] == tail[0];
    }
  }

  lemma GoodStep(sh: Shell, s: string, k: nat, tail: string)
    requires k < |s| && GoodAt(s, k) && Ends(tail)
    ensures Tokens(sh, s[..k], s[k..] + tail) == Tokens(sh, s[..k + 1], s[k + 1..] + tail)
  {
    var c, t := s[k], s[k..] + tail;
    assert t[0] == c && t[1..] == s[k + 1..] + tail;
    assert s[..k] + [c] == s[..k + 1];
    NextIsLocal(s, k, tail, '=');
    NextIsLocal(s, k, tail, '>');
    NextIsLocal(s, k, tail, '?');
    if (c == '<' || c == '>') && NextIs(s, k + 1, '=') {
      assert t[1] == '=' && t[1..][1..] == t[2..];
      assert s[..k + 1] + ['='] == s[..k] + [c, '='];
    }
  }

  lemma {:induction false} GoodRun(sh: Shell, s: string, k: nat, tail: string)
    requires k <= |s| && Ends(tail) && forall i | 0 <= i < k :: GoodAt(s, i)
    ensures Tokens(sh, "", s + tail) == Tokens(sh, s[..k], s[k..] + tail)
  {
    if k == 0 {
      assert s[..0] == "" && s[0..] == s;
    } else {
      GoodRun(sh, s, k - 1, tail);
      GoodStep(sh, s, k - 1, tail);
    }
  }

  lemma PlainWord(sh: Shell, s: string, tail: string)
    requires s != "" && Plain(s) && Ends(tail)
    ensures Tokens(sh, "", s + tail) == [s] + After(sh, tail)
  {
    GoodRun(sh, s, |s|, tail);
    assert s[..|s|] == s && s[|s|..] + tail == tail;
  }

  lemma RedirectionWord(sh: Shell, s: string, tail: string)
    requires IsRedirection(s) && Ends(tail)
    ensures Tokens(sh, "", s + tail) == [s] + After(sh, tail)
  {
    var t := s + tail;
    assert t[0] == s[0] && t[|s|..] == tail;
    if |s| == 1 {
      assert tail != "" ==> t[1] == ' ';
      assert [s[0]] == s;
    } else {
      assert t[1] == '>';
    }
    assert Tokens(sh, "", tail) == After(sh, tail);
  }

  // -------------------------------------------------------------- quoted words

  lemma QuoteStep(buf: string, rest: string)
    ensures Single(buf, ESCAPED_QUOTE + rest) == Single(buf + ['\''], rest)
  {
    var t := ESCAPED_QUOTE + rest;
    assert t[0] == '\'' && t[1] == '\\' && t[2] == '\'' && t[3] == '\'' && t[4..] == rest;
  }

  lemma PieceStep(buf: string, c: char, rest: string)
    ensures Single(buf, Piece(c) + rest) == Single(buf + [c], rest)
  {
    if c == '\'' {
      QuoteStep(buf, rest);
    } else {
      assert ([c] + rest)[0] == c && ([c] + rest)[1..] == rest;
    }
  }

  lemma ClosingQuote(buf: string, tail: string)
    requires Ends(tail)
    ensures Single(buf, "'" + tail) == (buf, tail)
  {
    var t := "'" + tail;
    assert t[0] == '\'' && t[1..] == tail;
    assert !NextIs(t, 1, '\\');
  }

  /** Reading back what the escaping wrote, up to the closing quote. */
  lemma {:induction false} SingleOfEscaped(buf: string, s: string, tail: string)
    requires Ends(tail)
    ensures Single(buf, Escaped(s) + ("'" + tail)) == (buf + s, tail)
    decreases s
  {
    hide Single, Piece;
    if s == "" {
      assert Escaped(s) + ("'" + tail) == "'" + tail;
      assert buf + s == buf;
      ClosingQuote(buf, tail);
    } else {
      var more := Escaped(s[1..]) + ("'" + tail);
      assert Escaped(s) + ("'" + tail) == Piece(s[0]) + more;
      PieceStep(buf, s[0], more);
      SingleOfEscaped(buf + [s[0]], s[1..], tail);
      assert buf + [s[0]] + s[1..] == buf + s;
    }
  }

  lemma OpenQuote(sh: Shell, inner: string)
    ensures Tokens(sh, "", "'" + inner) == var (b, after) := Single("", inner); Tokens(sh, b, after)
  {
    var t := "'" + inner;
    assert t[0] == '\'' && t[1..] == inner;
  }

  lemma WordEnds(sh: Shell, s: string, tail: string)
    requires s != "" && Ends(tail)
    ensures Tokens(sh, s, tail) == [s] + After(sh, tail)
  {}

  lemma QuotedWord(sh: Shell, s: string, tail: string)
    requires NeedsQuote(s) && Ends(tail)
    ensures Tokens(sh, "", Quoted(s) + tail) == [s] + After(sh, tail)
  {
    var inner := Escaped(s) + ("'" + tail);
    assert Quoted(s) + tail == "'" + inner;
    assert s != "";
    hide *;
    OpenQuote(sh, inner);
    SingleOfEscaped("", s, tail);
    assert "" + s == s;
    WordEnds(sh, s, tail);
  }

  // ----------------------------------------------------------------- round trip

  lemma WordRoundTrip(sh: Shell, arg: string, tail: string)
    requires Exact(arg) && Ends(tail)
    ensures Tokens(sh, "", Quoted(arg) + tail) == [arg] + After(sh, tail)
  {
    if NeedsQuote(arg) {
      QuotedWord(sh, arg, tail);
    } else if Plain(arg) {
      PlainWord(sh, arg, tail);
    } else {
      RedirectionWord(sh, arg, tail);
    }
  }

  /** Splitting the joined arguments gives the argument list back. */
  lemma {:induction false} JoinRoundTrip(sh: Shell, args: seq<string>)
    requires forall k | 0 <= k < |args| :: Exact(args[k])
    ensures Tokens(sh, "", Joined(args)) == args
    decreases args
  {
    hide Exact, Quoted, Tokens;
    if args == [] {
      assert Tokens(sh, "", "") == [] by { TokensNone(sh); }
    } else if |args| == 1 {
      WordRoundTrip(sh, args[0], "");
      assert Quoted(args[0]) + "" == Quoted(args[0]);
      assert [args[0]] + [] == args;
    } else {
      var rest := Joined(args[1..]);
      JoinRoundTrip(sh, args[1..]);
      WordRoundTrip(sh, args[0], " " + rest);
      assert (" " + rest)[1..] == rest;
      assert [args[0]] + args[1..] == args;
    }
  }

  lemma TokensNone(sh: Shell)
    ensures Tokens(sh, "", "") == []
  {}

  // ------------------------------------------------------------- exactly when

  /** "%d": digits, after a '-' perhaps. */
  predicate PrintsStatus(sh: Shell) {
    sh.status != "" && forall c | c in sh.status :: '0' <= c <= '9' || c == '-'
  }

  predicate Unquoted(s: string) {
    '\'' !in s && '"' !in s
  }

  lemma {:induction false} NoReturnChar(sh: Shell, buf: string, rest: string)
    requires PrintsStatus(sh) && Unquoted(rest) && '\r' !in buf
    ensures forall t | t in Tokens(sh, buf, rest) :: '\r' !in t
    decreases |rest|
  {
    if rest != "" {
      var c := rest[0];
      assert c in rest && forall d | d in rest[1..] :: d in rest;
      if |rest| > 1 {
        assert forall d | d in rest[2..] :: d in rest;
      }
      if IsSpaceChar(c) {
        NoReturnChar(sh, "", rest[1..]);
      } else if c == '>' && buf != "" && buf[|buf| - 1] == '?' {
        NoReturnChar(sh, buf + [c], rest[1..]);
      } else if (c == '>' || c == '<') && NextIs(rest, 1, '=') {
        NoReturnChar(sh, buf + [c, '='], rest[2..]);
      } else if c == '>' && NextIs(rest, 1, '>') {
        NoReturnChar(sh, "", rest[2..]);
      } else if c == '>' || c == '<' {
        NoReturnChar(sh, "", rest[1..]);
      } else if c == '$' && NextIs(rest, 1, '?') {
        NoReturnChar(sh, buf + sh.status, rest[2..]);
      } else {
        NoReturnChar(sh, buf + [c], rest[1..]);
      }
    }
  }

  /** What has been read of a word stays at the start of the next token. */
  lemma {:induction false} FirstTokenKeeps(sh: Shell, buf: string, rest: string)
    requires buf != "" && Unquoted(rest)
    ensures var ts := Tokens(sh, buf, rest); ts != [] && buf <= ts[0]
    decreases |rest|
  {
    if rest != "" {
      var c := rest[0];
      assert c in rest && forall d | d in rest[1..] :: d in rest;
      if |rest| > 1 {
        assert forall d | d in rest[2..] :: d in rest;
      }
      if IsSpaceChar(c) {
      } else if c == '>' && buf[|buf| - 1] == '?' {
        FirstTokenKeeps(sh, buf + [c], rest[1..]);
      } else if (c == '>' || c == '<') && NextIs(rest, 1, '=') {
        FirstTokenKeeps(sh, buf + [c, '='], rest[2..]);
      } else if c == '>' || c == '<' {
      } else if c == '$' && NextIs(rest, 1, '?') {
        FirstTokenKeeps(sh, buf + sh.status, rest[2..]);
      } else {
        FirstTokenKeeps(sh, buf + [c], rest[1..]);
      }
    }
  }

  lemma {:induction false} FirstBad(s: string, from: nat) returns (k: nat)
    requires from <= |s| && !Plain(s) && forall i | 0 <= i < from :: GoodAt(s, i)
    ensures k < |s| && !GoodAt(s, k) && forall i | 0 <= i < k :: GoodAt(s, i)
    decreases |s| - from
  {
    if GoodAt(s, from) {
      k := FirstBad(s, from + 1);
    } else {
      k := from;
    }
  }

  lemma BadWord(sh: Shell, arg: string)
    requires PrintsStatus(sh) && arg != "" && !Exact(arg)
    ensures Tokens(sh, "", arg) != [arg]
  {
    var k := FirstBad(arg, 0);
    GoodRun(sh, arg, k, "");
    assert arg + "" == arg && arg[k..] + "" == arg[k..];
    var buf, t, c := arg[..k], arg[k..], arg[k];
    assert t[0] == c && c in arg;
    assert Unquoted(t) by {
      assert forall d | d in t :: d in arg;
    }
    assert Tokens(sh, "", arg) == Tokens(sh, buf, t);
    BadChar(sh, arg, k);
  }

  /** The first character that is not taken as it stands changes or ends the word. */
  lemma BadChar(sh: Shell, arg: string, k: nat)
    requires PrintsStatus(sh) && k < |arg| && !GoodAt(arg, k) && !NeedsQuote(arg) && !IsRedirection(arg)
    requires Unquoted(arg[k..])
    ensures Tokens(sh, arg[..k], arg[k..]) != [arg]
  {
    var buf, t, c := arg[..k], arg[k..], arg[k];
    var ts := Tokens(sh, buf, t);
    assert t[0] == c && c in arg && c in t;
    NextIsLocal(arg, k, "", '=');
    NextIsLocal(arg, k, "", '>');
    NextIsLocal(arg, k, "", '?');
    assert t + "" == t;
    assert Unquoted(t[1..]) && (|t| > 1 ==> Unquoted(t[2..])) by {
      assert forall d | d in t[1..] :: d in t;
      assert |t| > 1 ==> forall d | d in t[2..] :: d in t;
    }
    if c == '\r' {
      if k > 0 {
        assert ts[0] == buf;
      } else {
        NoReturnChar(sh, "", t[1..]);
        assert ts == Tokens(sh, "", t[1..]);
      }
    } else if c == '$' {
      assert ts == Tokens(sh, buf + sh.status, t[2..]);
      FirstTokenKeeps(sh, buf + sh.status, t[2..]);
      assert (buf + sh.status)[k] == sh.status[0] && sh.status[0] in sh.status;
    } else {
      assert c == '<' || c == '>';
      if k > 0 {
        assert ts[0] == buf;
      } else {
        assert IsRedirection(ts[0]);
      }
    }
  }

  /** One argument survives quoting and splitting exactly when it is quoted, plain, or a
      redirection operator of its own. */
  lemma SurvivesIff(sh: Shell, arg: string)
    requires PrintsStatus(sh)
    ensures Tokens(sh, "", Quoted(arg)) == [arg] <==> Exact(arg)
  {
    if Exact(arg) {
      WordRoundTrip(sh, arg, "");
      assert Quoted(arg) + "" == Quoted(arg);
    } else if arg != "" {
      BadWord(sh, arg);
    }
  }

  // ------------------------------------------------------ exactly when, for a list

  /** After an unquoted text a space always starts a new word. */
  lemma {:induction false} UnquotedSplit(sh: Shell, buf: string, s: string, tail: string)
    requires Unquoted(s) && Ends(tail)
    ensures Tokens(sh, buf, s + tail) == Tokens(sh, buf, s) + After(sh, tail)
    decreases |s|
  {
    if s == "" {
      assert s + tail == tail;
    } else {
      var c, t := s[0], s + tail;
      assert t[0] == c && t[1..] == s[1..] + tail && s[0..] == s;
      NextIsLocal(s, 0, tail, '=');
      NextIsLocal(s, 0, tail, '>');
      NextIsLocal(s, 0, tail, '?');
      assert c in s && forall d | d in s[1..] :: d in s;
      if |s| > 1 {
        assert t[2..] == s[2..] + tail && forall d | d in s[2..] :: d in s;
      }
      if IsSpaceChar(c) {
        UnquotedSplit(sh, "", s[1..], tail);
        Assoc(Flush(buf), Tokens(sh, "", s[1..]), After(sh, tail));
      } else if c == '>' && buf != "" && buf[|buf| - 1] == '?' {
        UnquotedSplit(sh, buf + [c], s[1..], tail);
      } else if (c == '>' || c == '<') && NextIs(s, 1, '=') {
        UnquotedSplit(sh, buf + [c, '='], s[2..], tail);
      } else if c == '>' && NextIs(s, 1, '>') {
        UnquotedSplit(sh, "", s[2..], tail);
        Regroup(Flush(buf), [">>"], Tokens(sh, "", s[2..]), After(sh, tail));
      } else if c == '>' || c == '<' {
        UnquotedSplit(sh, "", s[1..], tail);
        Regroup(Flush(buf), [[c]], Tokens(sh, "", s[1..]), After(sh, tail));
      } else if c == '$' && NextIs(s, 1, '?') {
        UnquotedSplit(sh, buf + sh.status, s[2..], tail);
      } else {
        UnquotedSplit(sh, buf + [c], s[1..], tail);
      }
    }
  }

  lemma Regroup<T>(a: seq<T>, b: seq<T>, c: seq<T>, d: seq<T>)
    ensures a + (b + (c + d)) == a + (b + c) + d
  {}

  /** The tokens of one argument as it is written. */
  function WordsOf(sh: Shell, arg: string): seq<string> {
    Tokens(sh, "", Quoted(arg))
  }

  function AllWords(sh: Shell, args: seq<string>): seq<string>
    decreases args
  {
    if args == [] then [] else WordsOf(sh, args[0]) + AllWords(sh, args[1..])
  }

  lemma WordsThen(sh: Shell, arg: string, tail: string)
    requires Ends(tail)
    ensures Tokens(sh, "", Quoted(arg) + tail) == WordsOf(sh, arg) + After(sh, tail)
  {
    if NeedsQuote(arg) {
      QuotedWord(sh, arg, tail);
      QuotedWord(sh, arg, "");
      assert Quoted(arg) + "" == Quoted(arg) && [arg] + [] == [arg];
    } else {
      UnquotedSplit(sh, "", arg, tail);
    }
  }

  lemma {:induction false} JoinedWords(sh: Shell, args: seq<string>)
    ensures Tokens(sh, "", Joined(args)) == AllWords(sh, args)
    decreases args
  {
    hide Quoted, Tokens;
    if args == [] {
      TokensNone(sh);
    } else if |args| == 1 {
      assert WordsOf(sh, args[0]) + [] == WordsOf(sh, args[0]);
    } else {
      var rest := Joined(args[1..]);
      JoinedWords(sh, args[1..]);
      WordsThen(sh, args[0], " " + rest);
      assert (" " + rest)[1..] == rest;
    }
  }

  /** What a token can be: never empty, and without a carriage return unless quoted. */
  predicate Possible(t: string) {
    t != "" && (NeedsQuote(t) || '\r' !in t)
  }

  lemma {:induction false} NoEmptyToken(sh: Shell, buf: string, rest: string)
    ensures "" !in Tokens(sh, buf, rest)
    decreases |rest|
  {
    if rest != "" {
      var c := rest[0];
      hide Single, Double;
      if c == '\'' {
        var (b, after) := Single(buf, rest[1..]);
        NoEmptyToken(sh, b, after);
      } else if c == '"' {
        var (b, after) := Double(sh, buf, rest[1..]);
        NoEmptyToken(sh, b, after);
      } else if IsSpaceChar(c) {
        NoEmptyToken(sh, "", rest[1..]);
      } else if c == '>' && buf != "" && buf[|buf| - 1] == '?' {
        NoEmptyToken(sh, buf + [c], rest[1..]);
      } else if (c == '>' || c == '<') && NextIs(rest, 1, '=') {
        NoEmptyToken(sh, buf + [c, '='], rest[2..]);
      } else if c == '>' && NextIs(rest, 1, '>') {
        NoEmptyToken(sh, "", rest[2..]);
      } else if c == '>' || c == '<' {
        NoEmptyToken(sh, "", rest[1..]);
      } else if c == '$' && NextIs(rest, 1, '?') {
        NoEmptyToken(sh, buf + sh.status, rest[2..]);
      } else {
        NoEmptyToken(sh, buf + [c], rest[1..]);
      }
    }
  }

  /** An argument gives possible tokens only, and at least one if it is possible itself. */
  lemma WordsArePossible(sh: Shell, arg: string)
    requires PrintsStatus(sh)
    ensures forall t | t in WordsOf(sh, arg) :: Possible(t)
    ensures Possible(arg) ==> WordsOf(sh, arg) != []
  {
    if NeedsQuote(arg) {
      QuotedWord(sh, arg, "");
      assert Quoted(arg) + "" == Quoted(arg);
    } else {
      NoReturnChar(sh, "", arg);
      NoEmptyToken(sh, "", arg);
      if Possible(arg) {
        SomeWord(sh, arg);
      }
    }
  }

  lemma SomeWord(sh: Shell, arg: string)
    requires PrintsStatus(sh) && Possible(arg) && !NeedsQuote(arg)
    ensures Tokens(sh, "", arg) != []
  {
    var c := arg[0];
    assert c in arg && forall d | d in arg[1..] :: d in arg;
    if |arg| > 1 {
      assert forall d | d in arg[2..] :: d in arg;
    }
    if (c == '>' || c == '<') && NextIs(arg, 1, '=') {
      FirstTokenKeeps(sh, [c, '='], arg[2..]);
      assert "" + [c, '='] == [c, '='];
    } else if c == '$' && NextIs(arg, 1, '?') {
      FirstTokenKeeps(sh, sh.status, arg[2..]);
      assert "" + sh.status == sh.status;
    } else if c != '>' && c != '<' {
      FirstTokenKeeps(sh, [c], arg[1..]);
      assert "" + [c] == [c];
    }
  }

  lemma {:induction false} AllPossible(sh: Shell, args: seq<string>)
    requires PrintsStatus(sh)
    ensures forall t | t in AllWords(sh, args) :: Possible(t)
    ensures (forall k | 0 <= k < |args| :: Possible(args[k])) ==> |AllWords(sh, args)| >= |args|
    decreases args
  {
    hide Possible, WordsOf;
    if args != [] {
      AllPossible(sh, args[1..]);
      WordsArePossible(sh, args[0]);
    }
  }

  lemma {:induction false} Aligned(sh: Shell, args: seq<string>)
    requires PrintsStatus(sh) && AllWords(sh, args) == args
    requires forall k | 0 <= k < |args| :: Possible(args[k])
    ensures forall k | 0 <= k < |args| :: WordsOf(sh, args[k]) == [args[k]]
    decreases args
  {
    hide Possible, WordsOf;
    if args != [] {
      var first, rest := WordsOf(sh, args[0]), args[1..];
      WordsArePossible(sh, args[0]);
      AllPossible(sh, rest);
      assert |first| == 1 && first[0] == args[0];
      assert AllWords(sh, rest) == args[1..];
      Aligned(sh, rest);
    }
  }

  /** An argument list survives quoting, joining and splitting exactly when each of its
      arguments does: no loss of one is made up for by another. */
  lemma JoinSurvivesIff(sh: Shell, args: seq<string>)
    requires PrintsStatus(sh)
    ensures Tokens(sh, "", Joined(args)) == args <==> forall k | 0 <= k < |args| :: Exact(args[k])
  {
    hide Exact, Possible, WordsOf, AllWords, Tokens, Joined;
    if Tokens(sh, "", Joined(args)) == args {
      JoinedWords(sh, args);
      AllPossible(sh, args);
      forall k | 0 <= k < |args|
        ensures Possible(args[k])
      {
        assert args[k] in AllWords(sh, args);
      }
      Aligned(sh, args);
      forall k | 0 <= k < |args|
        ensures Exact(args[k])
      {
        WordsOfIs(sh, args[k]);
        SurvivesIff(sh, args[k]);
      }
    }
    if forall k | 0 <= k < |args| :: Exact(args[k]) {
      JoinRoundTrip(sh, args);
    }
  }

  lemma WordsOfIs(sh: Shell, arg: string)
    ensures WordsOf(sh, arg) == Tokens(sh, "", Quoted(arg))
  {}

  /** An argument is written as it is exactly when it holds no blank, newline, backslash or
      quote of either kind. */
  lemma WrittenAsIsIff(arg: string)
    ensures Quoted(arg) == arg <==> forall c | c in arg :: c !in {' ', '\t', '\n', '\\', '"', '\''}
  {
    QuotedLength(arg);
    hide Escaped;
  }
}
