/** The checkpoint file of src/crash_recovery.c: its printer, its parser, the merge
    of the restored state, and what a damaged file is taken for. */
module Checkpoint {
  import opened Text
  import Crc32

  const MAGIC := "LAS_SHELL_CHECKPOINT_V1"
  const MAX_ENV: nat := 1024
  const MAX_SAVED_ALIASES: nat := 256
  const MAX_JOBS: nat := 128
  const MAX_ALIASES: nat := 100
  const MAX_ENTRY: nat := 4096
  const ESCAPE_ROOM: nat := 8189
  const WRITE_CAP: nat := 0x40_0000
  const READ_CAP: nat := 0x80_0000
  const PATH_MAX: nat := 4096
  const CHECK_TAG := "CHECKSUM="
  const CHECK_MARK := "\nCHECKSUM="

  datatype Alias = Alias(name: string, value: string)
  datatype Job = Job(id: int, pid: int, command: string, active: bool)

  /** What the writer sees of the running shell. */
  datatype Snapshot = Snapshot(timestamp: string, pid: int, cwd: string, env: seq<string>,
                               aliases: seq<Alias>, jobs: seq<Job>)

  // ------------------------------------------------------------------ escaping

  /** Newlines become the two characters backslash and n. */
  function Escape(s: string): (r: string)
    ensures NEWLINE !in r
    ensures |r| >= |s|
  {
    if s == "" then ""
    else if s[0] == NEWLINE then "\\n" + Escape(s[1..])
    else [s[0]] + Escape(s[1..])
  }

  /** The same into the fixed buffer, `used` characters of which are taken. */
  function EscapeInto(s: string, used: nat): (r: string)
    ensures NEWLINE !in r
    decreases s
  {
    if s == "" || used >= ESCAPE_ROOM then ""
    else if s[0] == NEWLINE then "\\n" + EscapeInto(s[1..], used + 2)
    else [s[0]] + EscapeInto(s[1..], used + 1)
  }

  predicate PairAt(s: string, i: nat) {
    i + 1 < |s| && s[i] == '\\' && s[i + 1] == 'n'
  }

  function Unescape(s: string): string
    decreases |s|
  {
    if s == "" then ""
    else if PairAt(s, 0) then [NEWLINE] + Unescape(s[2..])
    else [s[0]] + Unescape(s[1..])
  }

  ghost predicate HasPair(s: string) {
    exists i: nat :: PairAt(s, i)
  }

  lemma {:induction false} EscapeFits(s: string, used: nat)
    requires used + |Escape(s)| <= 8189
    ensures EscapeInto(s, used) == Escape(s)
    decreases s
  {
    if s != "" {
      EscapeFits(s[1..], if s[0] == NEWLINE then used + 2 else used + 1);
    }
  }

  lemma UnescapeCons(c: char, t: string)
    requires !(c == '\\' && t != "" && t[0] == 'n')
    ensures Unescape([c] + t) == [c] + Unescape(t)
  {
    assert ([c] + t)[1..] == t;
  }

  lemma UnescapePair(t: string)
    ensures Unescape("\\n" + t) == [NEWLINE] + Unescape(t)
  {
    assert ("\\n" + t)[2..] == t && PairAt("\\n" + t, 0);
  }

  /** Escaping is undone exactly; only pairs that were there before are touched. */
  lemma {:induction false} UnescapeEscape(s: string)
    ensures Unescape(Escape(s)) == Unescape(s)
    decreases |s|
  {
    if s != "" {
      hide Unescape, Escape;
      var t := Escape(s[1..]);
      UnescapeEscape(s[1..]);
      EscapeStep(s);
      if s[0] == NEWLINE {
        UnescapePair(t);
        UnescapeCons(s[0], s[1..]);
        assert s == [s[0]] + s[1..];
      } else if PairAt(s, 0) {
        UnescapeEscape(s[2..]);
        EscapePair(s);
        UnescapePair(Escape(s[2..]));
        UnescapePair(s[2..]);
      } else {
        EscapeHead(s[1..]);
        UnescapeCons(s[0], t);
        UnescapeCons(s[0], s[1..]);
        assert s == [s[0]] + s[1..];
      }
    }
  }

  lemma EscapeStep(s: string)
    requires s != ""
    ensures Escape(s) == if s[0] == NEWLINE then "\\n" + Escape(s[1..]) else [s[0]] + Escape(s[1..])
  {}

  lemma EscapePair(s: string)
    requires PairAt(s, 0)
    ensures Escape(s) == "\\n" + Escape(s[2..]) && s == "\\n" + s[2..]
  {
    hide Escape;
    EscapeStep(s);
    EscapeStep(s[1..]);
    assert s[1..][1..] == s[2..];
  }

  lemma EscapeHead(s: string)
    ensures Escape(s) == "" <==> s == ""
    ensures s != "" ==> (Escape(s)[0] == 'n' <==> s[0] == 'n')
  {}

  lemma {:induction false} UnescapeWithoutPair(s: string)
    ensures |Unescape(s)| <= |s|
    ensures HasPair(s) <==> |Unescape(s)| < |s|
    ensures !HasPair(s) ==> Unescape(s) == s
    decreases |s|
  {
    if PairAt(s, 0) {
      UnescapeWithoutPair(s[2..]);
    } else if s != "" {
      UnescapeWithoutPair(s[1..]);
      if i: nat :| PairAt(s, i) {
        assert PairAt(s[1..], i - 1);
      }
      if i: nat :| PairAt(s[1..], i) {
        assert PairAt(s, i + 1);
      }
    }
  }

  /** The escape round trip holds for exactly the entries without a literal
      backslash-n pair. */
  lemma EscapeRoundTrip(s: string)
    ensures Unescape(Escape(s)) == s <==> !HasPair(s)
  {
    UnescapeEscape(s);
    UnescapeWithoutPair(s);
  }

  /** The entry A=x, backslash, n comes back as A=x and a newline. */
  lemma LiteralPairChanges()
    ensures HasPair("A=x\\n") && Unescape(Escape("A=x\\n")) == "A=x\n" != "A=x\\n"
  {
    var s := "A=x\\n";
    assert PairAt(s, 3);
    assert s[1..] == "=x\\n" && s[1..][1..] == "x\\n" && s[1..][1..][1..] == "\\n";
    UnescapeEscape(s);
    assert Unescape("\\n") == "\n" by {
      assert "\\n"[2..] == "";
    }
    assert Unescape("x\\n") == "x\n";
    assert Unescape("=x\\n") == "=x\n";
  }

  // ------------------------------------------------------------------- printer

  function EnvLines(env: seq<string>): seq<string> {
    if env == [] then []
    else if |env[0]| > MAX_ENTRY then EnvLines(env[1..])
    else ["ENV=" + EscapeInto(env[0], 0)] + EnvLines(env[1..])
  }

  function AliasLines(aliases: seq<Alias>): seq<string> {
    if aliases == [] then []
    else ["ALIAS=" + aliases[0].name + "=" + aliases[0].value] + AliasLines(aliases[1..])
  }

  function JobLines(jobs: seq<Job>): seq<string> {
    if jobs == [] then []
    else if !jobs[0].active then JobLines(jobs[1..])
    else ["JOB=" + JobText(jobs[0])] + JobLines(jobs[1..])
  }

  function JobText(j: Job): string {
    Decimal(j.id) + ":" + Decimal(j.pid) + ":" + j.command
  }

  function Header(s: Snapshot): seq<string> {
    [MAGIC, "TIMESTAMP=" + s.timestamp, "PID=" + Decimal(s.pid), "CWD=" + s.cwd]
  }

  function BodyLines(s: Snapshot): seq<string> {
    Header(s) + EnvLines(Take(s.env, MAX_ENV)) + AliasLines(Take(s.aliases, MAX_SAVED_ALIASES))
    + JobLines(Take(s.jobs, MAX_JOBS))
  }

  function Body(s: Snapshot): string {
    Unlines(BodyLines(s))
  }

  function Checksum(body: string): (c: nat)
    ensures c < 0x1_0000_0000
  {
    Crc32.Crc(Bytes(body)) as nat
  }

  function HexDigit(d: nat): char
    requires d < 16
  {
    if d < 10 then Digit(d) else ['A', 'B', 'C', 'D', 'E', 'F'][d - 10]
  }

  /** printf "%0<width>X" for a number that fits the width. */
  function Hex(n: nat, width: nat): (s: string)
    ensures |s| == width
  {
    if width == 0 then "" else Hex(n / 16, width - 1) + [HexDigit(n % 16)]
  }

  function Footer(body: string): string {
    CHECK_TAG + Hex(Checksum(body), 8) + [NEWLINE]
  }

  function FileText(s: Snapshot): string {
    Body(s) + Footer(Body(s))
  }

  /** What write_checkpoint_to_fd hands to fwrite; None when its buffer is too small. */
  function Write(s: Snapshot): Option<string> {
    if |FileText(s)| < WRITE_CAP then Some(FileText(s)) else None
  }

  // -------------------------------------------------------------------- parser

  datatype Tag = TimestampTag | PidTag | CwdTag | EnvTag | AliasTag | JobTag | CheckTag | OtherTag

  function TagOf(line: string): (t: Tag)
    ensures t == PidTag ==> |line| >= 4
  {
    if "TIMESTAMP=" <= line then TimestampTag
    else if "PID=" <= line then PidTag
    else if "CWD=" <= line then CwdTag
    else if "ENV=" <= line then EnvTag
    else if "ALIAS=" <= line then AliasTag
    else if "JOB=" <= line then JobTag
    else if CHECK_TAG <= line then CheckTag
    else OtherTag
  }

  /** Everything read from the lines so far. */
  datatype Fields = Fields(cwd: string, env: seq<string>, aliases: seq<Alias>, jobs: seq<string>)

  const NO_FIELDS := Fields("", [], [], [])

  datatype Parsed = Parsed(fields: Fields) | BadMagic | SamePid

  function TakeField(line: string, f: Fields): Fields {
    match TagOf(line)
    case CwdTag => f.(cwd := Take(line[4..], PATH_MAX - 1))
    case EnvTag => if |f.env| < MAX_ENV then f.(env := f.env + [Unescape(line[4..])]) else f
    case AliasTag =>
      var eq := IndexOf(line[6..], '=');
      if |f.aliases| < MAX_SAVED_ALIASES && eq < |line[6..]|
      then f.(aliases := f.aliases + [Alias(line[6..][..eq], line[6..][eq + 1..])]) else f
    case JobTag => f.(jobs := f.jobs + [line[4..]])
    case _ => f
  }

  /** The lines after the first one, up to the checksum line. */
  function ParseLines(lines: seq<string>, f: Fields, myPid: int): Parsed {
    if lines == [] || TagOf(lines[0]) == CheckTag then Parsed(f)
    else if TagOf(lines[0]) == PidTag && Atol(lines[0][4..]) == myPid then SamePid
    else ParseLines(lines[1..], TakeField(lines[0], f), myPid)
  }

  function Parse(lines: seq<string>, myPid: int): Parsed {
    if lines == [] then Parsed(NO_FIELDS)
    else if lines[0] != MAGIC then BadMagic
    else ParseLines(lines[1..], NO_FIELDS, myPid)
  }

  function HexValue(c: char): (v: nat)
    requires IsHex(c)
    ensures v < 16
  {
    if IsDigit(c) then DigitValue(c)
    else if 'A' <= c <= 'F' then c as nat - 'A' as nat + 10
    else c as nat - 'a' as nat + 10
  }

  /** Reads at most `width` hex digits; `acc` is None until one has been read. */
  function ScanDigits(s: string, width: nat, acc: Option<nat>): Option<nat> {
    if width > 0 && s != "" && IsHex(s[0]) then
      ScanDigits(s[1..], width - 1, Some(16 * (if acc.Some? then acc.value else 0) + HexValue(s[0])))
    else acc
  }

  /** sscanf "%8X": white space, then at most eight characters of sign, 0x and digits. */
  function ScanHex(s: string): Option<nat> {
    var t := SkipSpace(s);
    var negative := "-" <= t;
    var signed := negative || "+" <= t;
    var (u, width) := if signed then (t[1..], 7) else (t, 8);
    var prefixed := |u| > 2 && u[0] == '0' && u[1] in {'x', 'X'} && IsHex(u[2]);
    var v := if prefixed then ScanDigits(u[2..], width - 2, Some(0)) else ScanDigits(u, width, None);
    if v.None? then None
    else if negative then Some((0 - v.value as int) % 0x1_0000_0000)
    else Some(v.value)
  }

  function SkipBlankLines(s: string): string {
    if s != "" && (s[0] == NEWLINE || s[0] == '\r') then SkipBlankLines(s[1..]) else s
  }

  /** The checksum test alone: is this content taken for an intact file? */
  predicate Intact(content: string) {
    0 < |content| <= READ_CAP &&
    var text := CString(content);
    var mark := Find(text, CHECK_MARK);
    mark.Some? &&
    var footer := text[mark.value + 1..];
    var stored := ScanHex(footer[9..]);
    var eol := IndexOf(footer, NEWLINE);
    stored.Some? && eol < |footer| && SkipBlankLines(footer[eol + 1..]) == "" &&
    Checksum(text[..mark.value + 1]) == stored.value
  }

  datatype Restored = NoFile | Corrupt | Stale
                    | Applied(cwd: string, env: seq<string>, aliases: seq<Alias>, jobs: seq<string>)

  /** checkpoint_restore */
  function Restore(file: Option<string>, myPid: int, env: seq<string>, aliases: seq<Alias>): Restored {
    if file.None? then NoFile
    else if !Intact(file.value) then Corrupt
    else HandedOver(Parse(Split(CString(file.value)), myPid), env, aliases)
  }

  function HandedOver(p: Parsed, env: seq<string>, aliases: seq<Alias>): Restored {
    match p
    case BadMagic => Corrupt
    case SamePid => Stale
    case Parsed(f) => Applied(f.cwd, MergeEnv(env, f.env), MergeAliases(aliases, f.aliases), f.jobs)
  }

  // --------------------------------------------------------------------- merge

  function Key(entry: string): Option<string> {
    if '=' in entry then Some(CutAt(entry, '=')) else None
  }

  predicate SameKey(a: string, b: string) {
    Key(a).Some? && Key(a) == Key(b)
  }

  predicate Overridden(entry: string, over: seq<string>) {
    exists e | e in over :: SameKey(entry, e)
  }

  function Kept(env: seq<string>, over: seq<string>): seq<string> {
    if env == [] then []
    else if Overridden(env[0], over) then Kept(env[1..], over)
    else [env[0]] + Kept(env[1..], over)
  }

  function MergeEnv(env: seq<string>, restored: seq<string>): seq<string> {
    if restored == [] then env else Kept(env, restored) + restored
  }

  predicate Defines(aliases: seq<Alias>, name: string) {
    exists a | a in aliases :: a.name == name
  }

  function MergeAliases(aliases: seq<Alias>, restored: seq<Alias>): seq<Alias>
    decreases restored
  {
    if restored == [] then aliases
    else if !Defines(aliases, restored[0].name) && |aliases| < MAX_ALIASES
    then MergeAliases(aliases + [restored[0]], restored[1..])
    else MergeAliases(aliases, restored[1..])
  }

  /** my_getenv: the value in the first entry for that name. */
  function Getenv(name: string, env: seq<string>): Option<string> {
    if env == [] then None
    else if name + "=" <= env[0] then Some(env[0][|name| + 1..])
    else Getenv(name, env[1..])
  }

  lemma KeyIsName(name: string, entry: string)
    requires '=' !in name
    ensures name + "=" <= entry <==> Key(entry) == Some(name)
  {
    if name + "=" <= entry {
      assert entry[..|name|] == (name + "=")[..|name|] == name;
      assert entry[|name|] == (name + "=")[|name|];
      IndexOfIs(entry, '=', |name|);
    }
    if Key(entry) == Some(name) {
      assert entry[..|name| + 1] == name + "=";
    }
  }

  lemma {:induction false} GetenvOverridden(name: string, env: seq<string>)
    requires '=' !in name
    ensures Getenv(name, env).Some? <==> exists e | e in env :: Key(e) == Some(name)
  {
    if env != [] {
      KeyIsName(name, env[0]);
      GetenvOverridden(name, env[1..]);
      assert forall e :: e in env <==> e == env[0] || e in env[1..];
    }
  }

  lemma {:induction false} GetenvConcat(name: string, a: seq<string>, b: seq<string>)
    ensures Getenv(name, a + b) == if Getenv(name, a).Some? then Getenv(name, a) else Getenv(name, b)
  {
    if a == [] {
      assert a + b == b;
    } else {
      assert (a + b)[1..] == a[1..] + b;
      GetenvConcat(name, a[1..], b);
    }
  }

  lemma {:induction false} GetenvKept(name: string, env: seq<string>, over: seq<string>)
    requires '=' !in name
    ensures Getenv(name, Kept(env, over)) == if Getenv(name, over).Some? then None else Getenv(name, env)
  {
    GetenvOverridden(name, over);
    if env != [] {
      GetenvKept(name, env[1..], over);
      KeyIsName(name, env[0]);
      if !Overridden(env[0], over) {
        assert ([env[0]] + Kept(env[1..], over))[1..] == Kept(env[1..], over);
      }
    }
  }

  /** After the merge every name has its checkpoint value, else its old one. */
  lemma MergeLookup(name: string, env: seq<string>, restored: seq<string>)
    requires '=' !in name
    ensures Getenv(name, MergeEnv(env, restored)) ==
            if Getenv(name, restored).Some? then Getenv(name, restored) else Getenv(name, env)
  {
    GetenvKept(name, env, restored);
    GetenvConcat(name, Kept(env, restored), restored);
  }
}
