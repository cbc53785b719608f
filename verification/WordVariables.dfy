/** What the tokenizer makes of a double-quoted text: variables become their values and
    everything else stays, in one word. */
module WordVariables {
  import opened Text
  import opened Words
  import opened WordProofs

  /** A part of the text between two double quotes. */
  datatype Part = Plain(text: string) | Bare(name: string) | Braced(name: string) | Status | Dollar

  function ShowPart(p: Part): string {
    match p
    case Plain(text) => text
    case Bare(name) => "$" + name
    case Braced(name) => "${" + (name + "}")
    case Status => "$?"
    case Dollar => "$"
  }

  function Show(parts: seq<Part>, tail: string): string {
    if parts == [] then "\"" + tail else ShowPart(parts[0]) + Show(parts[1..], tail)
  }

  /** The value of a variable; an unset one is empty. */
  function ValueOf(sh: Shell, p: Part): string {
    match p
    case Plain(text) => text
    case Bare(name) => if sh.getenv(name).Some? then sh.getenv(name).value else ""
    case Braced(name) => if name != "" && sh.getenv(name).Some? then sh.getenv(name).value else ""
    case Status => sh.status
    case Dollar => "$"
  }

  function Meaning(sh: Shell, parts: seq<Part>): string {
    if parts == [] then "" else ValueOf(sh, parts[0]) + Meaning(sh, parts[1..])
  }

  predicate IsLetter(c: char) {
    'A' <= c <= 'Z' || 'a' <= c <= 'z'
  }

  /** The characters of a name, and a name of at most 255 of them. */
  predicate InNames(c: char) {
    IsLetter(c) || IsDigit(c) || c == '_'
  }

  predicate IsName(s: string) {
    0 < |s| <= 255 && forall c | c in s :: InNames(c)
  }

  /** Each part is what it looks like: names are names, and end where they seem to or at
      their 255th character. */
  predicate Readable(parts: seq<Part>, tail: string)
    decreases parts
  {
    parts == [] ||
    (Readable(parts[1..], tail) &&
     var rest := Show(parts[1..], tail);
     match parts[0]
     case Plain(text) => '"' !in text && '$' !in text
     case Bare(name) => IsName(name) && (|name| == 255 || rest == "" || !InNames(rest[0]))
     case Braced(name) => |name| <= 255 && '}' !in name
     case Status => true
     case Dollar => rest != "" && !InNames(rest[0]) && rest[0] !in {'{', '?'})
  }

  lemma {:induction false} LengthOfName(name: string, rest: string, braces: bool, limit: nat)
    requires |name| <= limit && forall c | c in name :: InName(c, braces)
    requires |name| == limit || rest == "" || !InName(rest[0], braces)
    ensures NameLength(name + rest, braces, limit) == |name|
    decreases name
  {
    hide InName;
    if name == "" {
      assert name + rest == rest;
    } else {
      assert name[0] in name && (name + rest)[1..] == name[1..] + rest;
      assert forall c | c in name[1..] :: c in name;
      LengthOfName(name[1..], rest, braces, limit - 1);
    }
  }

  lemma {:induction false} DoublePlain(sh: Shell, buf: string, text: string, rest: string)
    requires '"' !in text && '$' !in text
    ensures Double(sh, buf, text + rest) == Double(sh, buf + text, rest)
    decreases text
  {
    if text == "" {
      assert text + rest == rest && buf + text == buf;
    } else {
      var c, t := text[0], text + rest;
      assert c in text && forall d | d in text[1..] :: d in text;
      assert t[0] == c && t[1..] == text[1..] + rest;
      DoublePlain(sh, buf + [c], text[1..], rest);
      assert buf + [c] + text[1..] == buf + text;
    }
  }

  lemma DoubleBare(sh: Shell, buf: string, name: string, rest: string)
    requires IsName(name) && (|name| == 255 || rest == "" || !InNames(rest[0]))
    ensures Double(sh, buf, "$" + name + rest) == Double(sh, buf + ValueOf(sh, Bare(name)), rest)
  {
    var t, after := "$" + name + rest, name + rest;
    assert t[0] == '$' && t[1..] == after && t[1] == name[0] && name[0] in name;
    LengthOfName(name, rest, false, NAME_LIMIT);
    assert after[..|name|] == name && after[|name|..] == rest;
    hide NameLength;
  }

  lemma DoubleBraced(sh: Shell, buf: string, name: string, rest: string)
    requires |name| <= 255 && '}' !in name
    ensures Double(sh, buf, "${" + (name + "}") + rest) == Double(sh, buf + ValueOf(sh, Braced(name)), rest)
  {
    var t := "${" + (name + "}") + rest;
    var shown := "{" + (name + ("}" + rest));
    assert t[0] == '$' && t[1] == '{' && t[1..] == shown;
    VariableBraced(sh, name, rest);
    hide Variable;
  }

  lemma VariableBraced(sh: Shell, name: string, rest: string)
    requires |name| <= 255 && '}' !in name
    ensures Variable(sh, "{" + (name + ("}" + rest))) == (ValueOf(sh, Braced(name)), rest)
  {
    var closing := "}" + rest;
    var t := "{" + (name + closing);
    assert t[0] == '{' && t[1..] == name + closing;
    assert closing[0] == '}' && closing[1..] == rest;
    LengthOfName(name, closing, true, NAME_LIMIT);
    assert t[1..1 + |name|] == name && t[1 + |name|..] == closing;
    hide NameLength;
  }

  lemma DoubleDollar(sh: Shell, buf: string, rest: string)
    requires rest != "" && !InNames(rest[0]) && rest[0] !in {'{', '?'}
    ensures Double(sh, buf, "$" + rest) == Double(sh, buf + "$", rest)
  {
    var t := "$" + rest;
    assert t[0] == '$' && t[1] == rest[0] && t[1..] == rest;
    if rest[0] != ' ' {
      assert NameLength(rest, false, NAME_LIMIT) == 0;
      assert rest[0..] == rest;
    }
  }

  lemma DoubleStatus(sh: Shell, buf: string, rest: string)
    ensures Double(sh, buf, "$?" + rest) == Double(sh, buf + sh.status, rest)
  {
    var t := "$?" + rest;
    assert t[0] == '$' && t[1] == '?' && t[2..] == rest;
  }

  /** A double-quoted text is read up to its closing quote as its meaning. */
  lemma {:induction false} DoubleMeans(sh: Shell, buf: string, parts: seq<Part>, tail: string)
    requires Readable(parts, tail)
    ensures Double(sh, buf, Show(parts, tail)) == (buf + Meaning(sh, parts), tail)
    decreases parts
  {
    if parts == [] {
      assert ("\"" + tail)[0] == '"' && ("\"" + tail)[1..] == tail;
      assert buf + "" == buf;
    } else {
      var rest := Show(parts[1..], tail);
      hide Double;
      match parts[0] {
        case Plain(text) => DoublePlain(sh, buf, text, rest);
        case Bare(name) => DoubleBare(sh, buf, name, rest);
        case Braced(name) => DoubleBraced(sh, buf, name, rest);
        case Status => DoubleStatus(sh, buf, rest);
        case Dollar => DoubleDollar(sh, buf, rest);
      }
      var v := ValueOf(sh, parts[0]);
      DoubleMeans(sh, buf + v, parts[1..], tail);
      assert buf + v + Meaning(sh, parts[1..]) == buf + (v + Meaning(sh, parts[1..]));
    }
  }

  /** As a word of a command line it is one token, whatever its value holds, and none when
      that is empty. */
  lemma QuotedWordMeans(sh: Shell, parts: seq<Part>, tail: string)
    requires Readable(parts, tail) && Ends(tail)
    ensures Tokens(sh, "", "\"" + Show(parts, tail)) ==
            (if Meaning(sh, parts) == "" then [] else [Meaning(sh, parts)]) + After(sh, tail)
  {
    var t := "\"" + Show(parts, tail);
    assert t[0] == '"' && t[1..] == Show(parts, tail);
    DoubleMeans(sh, "", parts, tail);
    hide Double, Show, Meaning;
    var value := Meaning(sh, parts);
    assert "" + value == value;
    assert Tokens(sh, "", t) == Tokens(sh, value, tail);
    if value == "" {
      TailAlone(sh, tail);
    } else {
      WordEnds(sh, value, tail);
    }
  }

  lemma TailAlone(sh: Shell, tail: string)
    requires Ends(tail)
    ensures Tokens(sh, "", tail) == [] + After(sh, tail)
  {}

  // ---------------------------------------------------------------- single quotes

  /** A part of the text between two single quotes; a quote is written as quote, backslash,
      quote, quote, and the last of these may be missing. */
  datatype Literal = Text(text: string) | FullQuote | ShortQuote

  function ShowLiteral(l: Literal): string {
    match l
    case Text(text) => text
    case FullQuote => "'\\''"
    case ShortQuote => "'\\'"
  }

  function ShowAll(ls: seq<Literal>, tail: string): (s: string)
    ensures s != ""
  {
    if ls == [] then "'" + tail else ShowLiteral(ls[0]) + ShowAll(ls[1..], tail)
  }

  function LiteralOf(l: Literal): string {
    if l.Text? then l.text else "'"
  }

  function AllLiteral(ls: seq<Literal>): string {
    if ls == [] then "" else LiteralOf(ls[0]) + AllLiteral(ls[1..])
  }

  /** The short form is not followed by a quote, and the closing quote starts no escape. */
  predicate LiteralsOk(ls: seq<Literal>, tail: string)
    decreases ls
  {
    if ls == [] then !(|tail| >= 2 && tail[0] == '\\' && tail[1] == '\'')
    else
      && LiteralsOk(ls[1..], tail)
      && (ls[0].Text? ==> '\'' !in ls[0].text)
      && (ls[0].ShortQuote? ==> ShowAll(ls[1..], tail)[0] != '\'')
  }

  lemma {:induction false} SingleText(buf: string, text: string, rest: string)
    requires '\'' !in text
    ensures Single(buf, text + rest) == Single(buf + text, rest)
    decreases text
  {
    if text == "" {
      assert text + rest == rest && buf + text == buf;
    } else {
      var c, t := text[0], text + rest;
      assert c in text && forall d | d in text[1..] :: d in text;
      assert t[0] == c && t[1..] == text[1..] + rest;
      SingleText(buf + [c], text[1..], rest);
      assert buf + [c] + text[1..] == buf + text;
    }
  }

  lemma SingleQuote(buf: string, rest: string)
    ensures Single(buf, "'\\''" + rest) == Single(buf + "'", rest)
    ensures rest != "" && rest[0] != '\'' ==> Single(buf, "'\\'" + rest) == Single(buf + "'", rest)
  {
    var t, u := "'\\''" + rest, "'\\'" + rest;
    assert t[0] == '\'' && t[1] == '\\' && t[2] == '\'' && t[3] == '\'' && t[4..] == rest;
    assert u[0] == '\'' && u[1] == '\\' && u[2] == '\'' && u[3..] == rest;
    assert rest != "" ==> u[3] == rest[0];
  }

  lemma SingleCloses(buf: string, tail: string)
    requires !(|tail| >= 2 && tail[0] == '\\' && tail[1] == '\'')
    ensures Single(buf, "'" + tail) == (buf, tail)
  {
    var t := "'" + tail;
    assert t[0] == '\'' && t[1..] == tail;
  }

  /** A single-quoted text is read up to its closing quote as it is meant, variables and
      backslashes included. */
  lemma {:induction false} SingleMeans(buf: string, ls: seq<Literal>, tail: string)
    requires LiteralsOk(ls, tail)
    ensures Single(buf, ShowAll(ls, tail)) == (buf + AllLiteral(ls), tail)
    decreases ls
  {
    hide Single;
    if ls == [] {
      SingleCloses(buf, tail);
      assert buf + "" == buf;
    } else {
      var rest := ShowAll(ls[1..], tail);
      if ls[0].Text? {
        SingleText(buf, ls[0].text, rest);
      } else {
        SingleQuote(buf, rest);
      }
      var v := LiteralOf(ls[0]);
      SingleMeans(buf + v, ls[1..], tail);
      assert buf + v + AllLiteral(ls[1..]) == buf + (v + AllLiteral(ls[1..]));
    }
  }
}
