/** The word splitter parse_input of src/input_parser.c and the quoter with which
    src/redirection.c joins arguments again. */
module Words {
  import opened Text

  /** What the splitter reads from the shell: variables, and $? as printed. */
  datatype Shell = Shell(getenv: string -> Option<string>, status: string)

  const NAME_LIMIT: nat := 255

  // ------------------------------------------------------------------ splitting

  predicate IsSpaceChar(c: char) {
    c == ' ' || c == '\t' || c == '\n' || c == '\r'
  }

  predicate IsNameChar(c: char) {
    'A' <= c <= 'Z' || 'a' <= c <= 'z' || '0' <= c <= '9' || c == '_'
  }

  function Flush(buf: string): seq<string> {
    if buf == "" then [] else [buf]
  }

  predicate NextIs(s: string, k: nat, c: char) {
    k < |s| && s[k] == c
  }

  /** Inside single quotes: what is added to the word, and the text after the closing
      quote. The four characters quote, backslash, quote, quote stand for one quote. */
  function Single(buf: string, rest: string): (r: (string, string))
    ensures |r.1| <= |rest|
    decreases |rest|
  {
    if rest == "" then (buf, "")
    else if rest[0] != '\'' then Single(buf + [rest[0]], rest[1..])
    else if NextIs(rest, 1, '\\') && NextIs(rest, 2, '\'') then
      Single(buf + ['\''], if NextIs(rest, 3, '\'') then rest[4..] else rest[3..])
    else (buf, rest[1..])
  }

  predicate InName(c: char, braces: bool) {
    if braces then c != '}' else IsNameChar(c)
  }

  /** How many leading characters belong to a variable name. */
  function NameLength(s: string, braces: bool, limit: nat): (n: nat)
    ensures n <= |s| && n <= limit
    decreases limit
  {
    if s == "" || limit == 0 || !InName(s[0], braces) then 0
    else 1 + NameLength(s[1..], braces, limit - 1)
  }

  function Value(sh: Shell, name: string): string {
    if name == "" then "" else match sh.getenv(name) case Some(v) => v case None => ""
  }

  /** The expansion of the text after a '$', and what follows it. */
  function Variable(sh: Shell, rest: string): (r: (string, string))
    requires rest != ""
    ensures |r.1| <= |rest|
  {
    if rest[0] == '{' then
      var n := NameLength(rest[1..], true, NAME_LIMIT);
      var after := rest[1 + n..];
      (Value(sh, rest[1..1 + n]), if NextIs(after, 0, '}') then after[1..] else after)
    else
      var n := NameLength(rest, false, NAME_LIMIT);
      (if n == 0 then "$" else Value(sh, rest[..n]), rest[n..])
  }

  /** Inside double quotes: variables expand, the rest is literal. */
  function Double(sh: Shell, buf: string, rest: string): (r: (string, string))
    ensures |r.1| <= |rest|
    decreases |rest|
  {
    if rest == "" then (buf, "")
    else if rest[0] == '"' then (buf, rest[1..])
    else if rest[0] == '$' && NextIs(rest, 1, '?') then Double(sh, buf + sh.status, rest[2..])
    else if rest[0] == '$' && |rest| > 1 && rest[1] != ' ' then
      var (v, after) := Variable(sh, rest[1..]);
      Double(sh, buf + v, after)
    else Double(sh, buf + [rest[0]], rest[1..])
  }

  /** parse_input, having read buf of the current word. */
  function Tokens(sh: Shell, buf: string, rest: string): seq<string>
    decreases |rest|
  {
    if rest == "" then Flush(buf)
    else
      var c := rest[0];
      if c == '\'' then
        var (b, after) := Single(buf, rest[1..]);
        Tokens(sh, b, after)
      else if c == '"' then
        var (b, after) := Double(sh, buf, rest[1..]);
        Tokens(sh, b, after)
      else if IsSpaceChar(c) then Flush(buf) + Tokens(sh, "", rest[1..])
      else if c == '>' && buf != "" && buf[|buf| - 1] == '?' then Tokens(sh, buf + [c], rest[1..])
      else if (c == '>' || c == '<') && NextIs(rest, 1, '=') then Tokens(sh, buf + [c, '='], rest[2..])
      else if c == '>' && NextIs(rest, 1, '>') then Flush(buf) + ([">>"] + Tokens(sh, "", rest[2..]))
      else if c == '>' || c == '<' then Flush(buf) + ([[c]] + Tokens(sh, "", rest[1..]))
      else if c == '$' && NextIs(rest, 1, '?') then Tokens(sh, buf + sh.status, rest[2..])
      else Tokens(sh, buf + [c], rest[1..])
  }

  /** The loop over a single-quoted part, from the character after its opening quote. */
  method ReadSingle(input: string, start: nat, word: string) returns (p: nat, tbuf: string)
    requires start <= |input|
    ensures start <= p <= |input| && (tbuf, input[p..]) == Single(word, input[start..])
  {
    p, tbuf := start, word;
    while true
      invariant start <= p <= |input| && Single(word, input[start..]) == Single(tbuf, input[p..])
      decreases |input| - p
    {
      while p < |input| && input[p] != '\''
        invariant start <= p <= |input| && Single(word, input[start..]) == Single(tbuf, input[p..])
      {
        assert input[p..][1..] == input[p + 1..];
        tbuf := tbuf + [input[p]];
        p := p + 1;
      }
      if p == |input| {
        break;
      }
      ghost var rest := input[p..];
      p := p + 1;
      assert rest[1..] == input[p..];
      if NextIs(input, p, '\\') && NextIs(input, p + 1, '\'') {
        tbuf := tbuf + ['\''];
        p := p + 2;
        assert rest[3..] == input[p..];
        if NextIs(input, p, '\'') {
          p := p + 1;
          assert rest[4..] == input[p..];
        }
      } else {
        break;
      }
    }
  }

  /** The loop over a double-quoted part. */
  method ReadDouble(sh: Shell, input: string, start: nat, word: string) returns (p: nat, tbuf: string)
    requires start <= |input|
    ensures start <= p <= |input| && (tbuf, input[p..]) == Double(sh, word, input[start..])
  {
    hide NameLength;
    p, tbuf := start, word;
    while p < |input| && input[p] != '"'
      invariant start <= p <= |input| && Double(sh, word, input[start..]) == Double(sh, tbuf, input[p..])
    {
      ghost var rest := input[p..];
      if input[p] == '$' && NextIs(input, p + 1, '?') {
        tbuf := tbuf + sh.status;
        p := p + 2;
        assert rest[2..] == input[p..];
      } else if input[p] == '$' && p + 1 < |input| && input[p + 1] != ' ' {
        p := p + 1;
        assert rest[1..] == input[p..];
        var v, p' := ReadVariable(sh, input, p);
        tbuf, p := tbuf + v, p';
      } else {
        tbuf := tbuf + [input[p]];
        p := p + 1;
        assert rest[1..] == input[p..];
      }
    }
    if p < |input| {
      assert input[p..][1..] == input[p + 1..];
      p := p + 1;
    }
  }

  method ReadName(input: string, from: nat, braces: bool) returns (p: nat)
    requires from <= |input|
    ensures from <= p <= |input| && p - from == NameLength(input[from..], braces, NAME_LIMIT)
  {
    hide InName, NameLength;
    p := from;
    while p < |input| && InName(input[p], braces) && p - from < NAME_LIMIT
      invariant from <= p <= |input| && p - from <= NAME_LIMIT
      invariant NameLength(input[from..], braces, NAME_LIMIT) ==
                p - from + NameLength(input[p..], braces, NAME_LIMIT - (p - from))
    {
      NameStep(input, p, braces, NAME_LIMIT - (p - from));
      p := p + 1;
    }
    NameStep(input, p, braces, NAME_LIMIT - (p - from));
  }

  lemma NameStep(input: string, p: nat, braces: bool, limit: nat)
    requires p <= |input|
    ensures NameLength(input[p..], braces, limit) ==
            if p == |input| || limit == 0 || !InName(input[p], braces) then 0
            else 1 + NameLength(input[p + 1..], braces, limit - 1)
  {
    hide InName;
    if p < |input| {
      assert input[p..][0] == input[p] && input[p..][1..] == input[p + 1..];
    }
  }

  lemma Slices(s: string, i: nat, j: nat, k: nat)
    requires i <= j <= k <= |s|
    ensures s[i..][j - i..] == s[j..] && s[i..][j - i..k - i] == s[j..k]
  {}

  method ReadVariable(sh: Shell, input: string, start: nat) returns (v: string, p: nat)
    requires start < |input|
    ensures start <= p <= |input| && (v, input[p..]) == Variable(sh, input[start..])
  {
    hide NameLength, Value, InName;
    ghost var rest := input[start..];
    if input[start] == '{' {
      p := ReadName(input, start + 1, true);
      ghost var n := p - (start + 1);
      Slices(input, start, start + 1, p);
      Slices(input, start, p, p);
      assert rest[1..1 + n] == input[start + 1..p] && rest[1 + n..] == input[p..];
      v := Value(sh, input[start + 1..p]);
      if p < |input| && input[p] == '}' {
        Slices(input, p, p + 1, p + 1);
        p := p + 1;
      }
    } else {
      p := ReadName(input, start, false);
      ghost var n := p - start;
      Slices(input, start, start, p);
      Slices(input, start, p, p);
      assert rest[..n] == input[start..p] && rest[n..] == input[p..];
      v := if p == start then "$" else Value(sh, input[start..p]);
    }
  }

  method ParseInput(sh: Shell, input: string) returns (tokens: seq<string>)
    ensures tokens == Tokens(sh, "", input)
  {
    hide Single, Double;
    var p, tbuf := 0, "";
    tokens := [];
    while p < |input|
      invariant p <= |input|
      invariant Tokens(sh, "", input) == tokens + Tokens(sh, tbuf, input[p..])
      decreases |input| - p
    {
      var c := input[p];
      ghost var rest := input[p..];
      assert rest[0] == c && rest[1..] == input[p + 1..];
      assert |rest| > 1 ==> rest[1] == input[p + 1] && rest[2..] == input[p + 2..];
      if c == '\'' {
        p, tbuf := ReadSingle(input, p + 1, tbuf);
      } else if c == '"' {
        p, tbuf := ReadDouble(sh, input, p + 1, tbuf);
      } else if IsSpaceChar(c) {
        Assoc(tokens, Flush(tbuf), Tokens(sh, "", rest[1..]));
        tokens, tbuf := tokens + Flush(tbuf), "";
        p := p + 1;
      } else if c == '>' && |tbuf| > 0 && tbuf[|tbuf| - 1] == '?' {
        tbuf := tbuf + [c];
        p := p + 1;
      } else if (c == '>' || c == '<') && NextIs(input, p + 1, '=') {
        tbuf := tbuf + [c, '='];
        p := p + 2;
      } else if c == '>' && NextIs(input, p + 1, '>') {
        Assoc3(tokens, Flush(tbuf), [">>"], Tokens(sh, "", rest[2..]));
        tokens, tbuf := tokens + Flush(tbuf) + [">>"], "";
        p := p + 2;
      } else if c == '>' || c == '<' {
        Assoc3(tokens, Flush(tbuf), [[c]], Tokens(sh, "", rest[1..]));
        tokens, tbuf := tokens + Flush(tbuf) + [[c]], "";
        p := p + 1;
      } else if c == '$' && NextIs(input, p + 1, '?') {
        tbuf := tbuf + sh.status;
        p := p + 2;
      } else {
        tbuf := tbuf + [c];
        p := p + 1;
      }
    }
    assert input[p..] == "";
    tokens := tokens + Flush(tbuf);
  }

  lemma Assoc3<T>(a: seq<T>, b: seq<T>, c: seq<T>, d: seq<T>)
    ensures a + (b + (c + d)) == a + b + c + d
  {}

  // -------------------------------------------------------------------- quoting

  /** Something the splitter would act on, as append_shell_quoted tests it. */
  predicate NeedsQuote(arg: string) {
    ' ' in arg || '\t' in arg || '\\' in arg || '"' in arg || '\'' in arg || '\n' in arg
  }

  const ESCAPED_QUOTE: string := "'\\''"

  function Piece(c: char): (p: string)
    ensures |p| == if c == '\'' then 4 else 1
  {
    if c == '\'' then ESCAPED_QUOTE else [c]
  }

  function Escaped(s: string): (e: string)
    ensures |e| >= |s|
  {
    if s == "" then "" else Piece(s[0]) + Escaped(s[1..])
  }

  /** An argument as it is meant to be written. */
  function Quoted(arg: string): string {
    if NeedsQuote(arg) then "'" + (Escaped(arg) + "'") else arg
  }

  /** The arguments with single spaces between them. */
  function Joined(args: seq<string>): string
    decreases args
  {
    if args == [] then ""
    else if |args| == 1 then Quoted(args[0])
    else Quoted(args[0]) + (" " + Joined(args[1..]))
  }

  const LINE_SIZE: nat := 4096

  /** The characters of a quoted argument that still fit. */
  function Filled(r: string, size: nat, arg: string): string
    decreases arg
  {
    if arg == "" || |r| + 2 >= size then r
    else Filled(if arg[0] != '\'' || |r| + 5 < size then r + Piece(arg[0]) else r, size, arg[1..])
  }

  /** What append_shell_quoted leaves in a destination of size characters. */
  function Appended(dest: string, size: nat, arg: string): string
    requires |dest| < size
  {
    var rem := size - |dest| - 1;
    if NeedsQuote(arg) && rem > 2 then Filled(dest + ['\''], size, arg) + ['\'']
    else dest + arg[..if |arg| <= rem then |arg| else rem]
  }

  method AppendShellQuoted(dest: string, size: nat, arg: string) returns (r: string)
    requires |dest| < size
    ensures r == Appended(dest, size, arg)
  {
    var rem := size - |dest| - 1;
    if NeedsQuote(arg) && rem > 2 {
      r := dest + ['\''];
      var p := 0;
      while p < |arg| && |r| < size - 2
        invariant p <= |arg|
        invariant Filled(dest + ['\''], size, arg) == Filled(r, size, arg[p..])
      {
        assert arg[p..][1..] == arg[p + 1..];
        if arg[p] == '\'' {
          if |r| + 4 < size - 1 {
            r := r + ESCAPED_QUOTE;
          }
        } else {
          r := r + [arg[p]];
        }
        p := p + 1;
      }
      r := r + ['\''];
    } else {
      r := dest + arg[..if |arg| <= rem then |arg| else rem];
    }
  }

  lemma {:induction false} FilledIs(r: string, size: nat, arg: string)
    requires |r| + 1 < size
    ensures |Filled(r, size, arg)| + 1 < size
    ensures |r| + |Escaped(arg)| + 1 < size ==> Filled(r, size, arg) == r + Escaped(arg)
    decreases arg
  {
    hide Piece;
    if arg == "" {
      assert r + "" == r;
    } else if |r| + 2 < size {
      var piece, rest := Piece(arg[0]), arg[1..];
      FilledIs(if arg[0] != '\'' || |r| + 5 < size then r + piece else r, size, rest);
      Assoc(r, piece, Escaped(rest));
    }
  }

  lemma QuotedLength(arg: string)
    ensures NeedsQuote(arg) ==> arg != "" && |Quoted(arg)| == |Escaped(arg)| + 2
    ensures arg != "" ==> Quoted(arg) != ""
  {}

  /** The destination never overflows, and holds the whole argument exactly when it fits. */
  lemma AppendedFits(dest: string, size: nat, arg: string)
    requires |dest| < size
    ensures |Appended(dest, size, arg)| < size && (arg != "" ==> Quoted(arg) != "")
    ensures Appended(dest, size, arg) == dest + Quoted(arg) <==> |dest| + |Quoted(arg)| < size
  {
    QuotedLength(arg);
    var e := Escaped(arg);
    hide NeedsQuote, Escaped, Filled;
    if NeedsQuote(arg) {
      if size - |dest| - 1 > 2 {
        FilledIs(dest + ['\''], size, arg);
        assert dest + ['\''] + e + ['\''] == dest + ("'" + (e + "'"));
      }
    } else if |arg| <= size - |dest| - 1 {
      assert arg[..|arg|] == arg;
    }
  }

  /** The joining loop of execute_with_csv_log. */
  method JoinArgs(args: seq<string>) returns (line: string)
    ensures |line| < 4096
    ensures (forall k | 0 <= k < |args| :: args[k] != "") && |Joined(args)| < 4096 ==> line == Joined(args)
  {
    hide Quoted, Joined, Appended;
    line := "";
    assert args[..0] == [] && Joined(args[..0]) == "" by { JoinedNone(); }
    var i := 0;
    while i < |args|
      invariant i <= |args| && |line| < LINE_SIZE
      invariant (forall k | 0 <= k < |args| :: args[k] != "") && |Joined(args)| < LINE_SIZE ==>
                  line == Joined(args[..i])
    {
      JoinedStep(args, i);
      JoinedPrefix(args, i + 1);
      if i > 0 {
        if |line| + 1 < LINE_SIZE - 1 {
          line := line + [' '];
        }
      }
      AppendedFits(line, LINE_SIZE, args[i]);
      line := AppendShellQuoted(line, LINE_SIZE, args[i]);
      i := i + 1;
    }
    assert args[..i] == args;
  }

  lemma JoinedNone()
    ensures Joined([]) == ""
  {}

  lemma {:induction false} JoinedStep(args: seq<string>, i: nat)
    requires i < |args|
    ensures Joined(args[..i + 1]) == (if i == 0 then "" else Joined(args[..i]) + [' ']) + Quoted(args[i])
    decreases i
  {
    hide Quoted;
    if i > 0 {
      JoinedStep(args[1..], i - 1);
      assert args[..i + 1][1..] == args[1..][..i] && args[..i][1..] == args[1..][..i - 1];
      if i > 1 {
        var a, b, c := Quoted(args[0]), Joined(args[1..][..i - 1]), Quoted(args[i]);
        assert a + (" " + (b + [' '] + c)) == a + (" " + b) + [' '] + c;
      }
    }
  }

  lemma {:induction false} JoinedPrefix(args: seq<string>, i: nat)
    requires i <= |args|
    ensures |Joined(args[..i])| <= |Joined(args)|
    decreases |args| - i
  {
    if i < |args| {
      JoinedPrefix(args, i + 1);
      JoinedStep(args, i);
    } else {
      assert args[..i] == args;
    }
  }
}
