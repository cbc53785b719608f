/** The audit log of src/audit.c: chained CSV records, the verifier that strips the
    hash field back out, and the seeding of a new session from the last record. */
module Audit {
  import opened Text
  import Sha256

  const LINE_SIZE: nat := 4096
  const FIELD_CAP: nat := 1023
  const SUFFIX_CAP: nat := 2047
  const HASH_LEN: nat := 64

  // -------------------------------------------------------------------- hashing

  function HexNibble(n: nat): char
    requires n < 16
  {
    "0123456789abcdef"[n]
  }

  /** bytes_to_hex */
  function HexBytes(bytes: seq<bv8>): (s: string)
    ensures |s| == 2 * |bytes|
  {
    if bytes == [] then ""
    else [HexNibble(bytes[0] as nat / 16), HexNibble(bytes[0] as nat % 16)] + HexBytes(bytes[1..])
  }

  /** The hex SHA-256 of a text. */
  function Hash(text: string): string {
    HexBytes(Sha256.Digest(Bytes(text)))
  }

  /** is_valid_hex64 */
  predicate IsHash(s: string) {
    |s| == HASH_LEN && forall c | c in s :: IsHex(c)
  }

  // -------------------------------------------------------------------- records

  /** csv_quote's loop from output index i; the buffer has 2048 characters. */
  function QuoteFrom(cmd: string, i: nat): (r: string)
    decreases cmd
  {
    if cmd == "" || i >= 2045 then ""
    else if cmd[0] != '"' then [cmd[0]] + QuoteFrom(cmd[1..], i + 1)
    else if i < 2044 then "\"\"" + QuoteFrom(cmd[1..], i + 2)
    else QuoteFrom(cmd[1..], i)
  }

  function CsvQuote(cmd: string): string {
    "\"" + QuoteFrom(cmd, 1) + "\""
  }

  /** The unquoted fields before the command. */
  datatype Meta = Meta(time: string, user: string, pid: int, exit: int, stdoutHash: string)

  function Prefix(m: Meta): string {
    m.time + "," + m.user + "," + Decimal(m.pid) + "," + Decimal(m.exit) + "," + m.stdoutHash
  }

  /** The text that is chained: everything but the chain hash. */
  function RecordBody(m: Meta, cmd: string): string {
    Take(Prefix(m) + "," + CsvQuote(cmd) + "\n", LINE_SIZE - 1)
  }

  /** The position of the n-th comma outside quotes, before the end of the line. */
  function CommaAt(s: string, n: nat, inQuotes: bool): (r: Option<nat>)
    requires n > 0
    ensures r.Some? ==> r.value < |s|
  {
    if s == "" || s[0] == NEWLINE then None
    else if s[0] == '"' then After(CommaAt(s[1..], n, !inQuotes))
    else if inQuotes || s[0] != ',' then After(CommaAt(s[1..], n, inQuotes))
    else if n == 1 then Some(0)
    else After(CommaAt(s[1..], n - 1, inQuotes))
  }

  function After(r: Option<nat>): Option<nat> {
    if r.None? then None else Some(r.value + 1)
  }

  /** The record as written, with the chain hash as field 5. */
  function Record(body: string, chain: string): string {
    match CommaAt(body, 5, false)
    case Some(split) => if split > 0 then body[..split] + "," + chain + body[split..] else Fallback(body, chain)
    case None => Fallback(body, chain)
  }

  function Fallback(body: string, chain: string): string {
    (if body != "" && body[|body| - 1] == NEWLINE then body[..|body| - 1] else body) + "," + chain + "\n"
  }

  // ------------------------------------------------------------------- verifier

  /** One CSV field as the verifier reads it, and what follows it. */
  function FieldAt(s: string): (string, string) {
    if s != "" && s[0] == '"' then
      var (value, rest) := QuotedField(s[1..], FIELD_CAP);
      var rest1 := if rest != "" && rest[0] == '"' then rest[1..] else rest;
      (value, SkipComma(rest1))
    else
      var (value, rest) := BareField(s, FIELD_CAP);
      (value, SkipComma(rest))
  }

  function SkipComma(s: string): string {
    if s != "" && s[0] == ',' then s[1..] else s
  }

  function QuotedField(s: string, room: nat): (string, string)
    decreases |s|
  {
    if s == "" || room == 0 then ("", s)
    else if s[0] == '"' && |s| > 1 && s[1] == '"' then
      var (value, rest) := QuotedField(s[2..], room - 1);
      ("\"" + value, rest)
    else if s[0] == '"' then ("", s)
    else
      var (value, rest) := QuotedField(s[1..], room - 1);
      ([s[0]] + value, rest)
  }

  function BareField(s: string, room: nat): (string, string) {
    if s == "" || s[0] == ',' || s[0] == NEWLINE || room == 0 then ("", s)
    else
      var (value, rest) := BareField(s[1..], room - 1);
      ([s[0]] + value, rest)
  }

  function Fields(s: string, count: nat): seq<string>
    decreases count
  {
    if s == "" || count == 0 then []
    else
      var (value, rest) := FieldAt(s);
      [value] + Fields(rest, count - 1)
  }

  /** The chained text rebuilt from a line whose hash field lies between two commas. */
  function Strip(line: string, c4: nat, c5: nat): string
    requires c4 <= |line| && c5 <= |line|
  {
    var body := Take(line[..c4] + Take(line[c5..], SUFFIX_CAP), LINE_SIZE - 1);
    if body == "" || body[|body| - 1] != NEWLINE then body + "\n" else body
  }

  /** What the verifier reads off one line: the chained text and the stored hash. */
  datatype Reading = Reading(body: string, stored: string)

  function ReadRecord(line: string): Option<Reading> {
    ReadShown(CString(line))
  }

  /** The same on the C string that the line buffer holds. */
  function ReadShown(line: string): Option<Reading> {
    var fs := Fields(line, 8);
    if |fs| < 6 || !IsHash(fs[4]) || !IsHash(fs[5]) then None
    else
      var c4, c5 := CommaAt(line, 5, false), CommaAt(line, 6, false);
      if c4.None? || c5.None? then None
      else Some(Reading(Strip(line, c4.value, c5.value), fs[5]))
  }

  predicate IsComment(line: string) {
    line != "" && (line[0] == '#' || line[0] == NEWLINE)
  }

  datatype Report = Report(total: nat, ok: nat, bad: nat, malformed: nat, chain: string, bodies: seq<string>)

  /** The verifier after one more line. `bodies` collects the records it accepts. */
  function VerifyLine(r: Report, line: string): Report {
    if IsComment(line) then r
    else match ReadRecord(line)
      case None => r.(total := r.total + 1, malformed := r.malformed + 1)
      case Some(rec) =>
        if Hash(r.chain + rec.body) == rec.stored then
          r.(total := r.total + 1, ok := r.ok + 1, chain := rec.stored, bodies := r.bodies + [rec.body])
        else
          r.(total := r.total + 1, bad := r.bad + 1, chain := rec.stored)
  }

  function VerifyFrom(r: Report, text: string): Report
    decreases |text|
  {
    if text == "" then r
    else
      var n := ReadSize(text, LINE_SIZE);
      VerifyFrom(VerifyLine(r, text[..n]), text[n..])
  }

  function Verify(genesis: string, text: string): Report {
    VerifyFrom(Report(0, 0, 0, 0, genesis, []), text)
  }

  /** audit_verify_log returns 0. */
  predicate Accepted(r: Report) {
    r.bad == 0 && r.malformed == 0
  }

  // ------------------------------------------------------------------- sessions

  /** The candidate chain hash audit_init reads off a line: up to 64 characters
      after the fifth comma. */
  function SeedField(line: string): string {
    SeedShown(CString(line))
  }

  function SeedShown(line: string): string {
    match SeedStart(line, 5, false)
    case None => ""
    case Some(i) => Take(CutAt(CutAt(line[i..], NEWLINE), ','), HASH_LEN)
  }

  /** Just past the n-th comma outside quotes; newlines are not special here. */
  function SeedStart(s: string, n: nat, inQuotes: bool): (r: Option<nat>)
    ensures r.Some? ==> r.value <= |s|
  {
    if n == 0 then Some(0)
    else if s == "" then None
    else
      var inQuotes' := if s[0] == '"' then !inQuotes else inQuotes;
      After(SeedStart(s[1..], if !inQuotes' && s[0] == ',' then n - 1 else n, inQuotes'))
  }

  /** The chain hash a new session starts from. */
  function Seed(chain: string, text: string): string
    decreases |text|
  {
    if text == "" then chain
    else
      var n := ReadSize(text, LINE_SIZE);
      var line := text[..n];
      var field := SeedField(line);
      Seed(if !IsComment(line) && IsHash(field) then field else chain, text[n..])
  }

  predicate IsBlankCommand(cmd: string) {
    forall c | c in cmd :: c in {' ', '\t', '\n'}
  }

  /** The log file and the chain hash held in memory. */
  datatype Log = Log(text: string, chain: string)

  datatype Event = SessionStart(marker: string) | Command(m: Meta, cmd: string)

  /** audit_init and audit_log_command, as changes of the log. */
  function Append(genesis: string, log: Log, e: Event): Log {
    match e
    case SessionStart(marker) => Log(log.text + marker, Seed(genesis, log.text))
    case Command(m, cmd) =>
      if IsBlankCommand(cmd) then log
      else
        var body := RecordBody(m, cmd);
        var chain := Hash(log.chain + body);
        Log(log.text + Record(body, chain), chain)
  }

  function AppendAll(genesis: string, log: Log, events: seq<Event>): Log
    decreases events
  {
    if events == [] then log else AppendAll(genesis, Append(genesis, log, events[0]), events[1..])
  }

  // -------------------------------------------------------------- the C routines

  /** csv_quote */
  method Quote(cmd: string) returns (out: string)
    ensures out == CsvQuote(cmd)
  {
    out := "\"";
    var j := 0;
    while j < |cmd| && |out| < 2045
      invariant j <= |cmd| && |out| > 0
      invariant "\"" + QuoteFrom(cmd, 1) == out + QuoteFrom(cmd[j..], |out|)
    {
      assert cmd[j..][0] == cmd[j] && cmd[j..][1..] == cmd[j + 1..];
      if cmd[j] == '"' {
        if |out| < 2044 {
          Assoc(out, "\"\"", QuoteFrom(cmd[j + 1..], |out| + 2));
          out := out + "\"\"";
        }
      } else {
        Assoc(out, [cmd[j]], QuoteFrom(cmd[j + 1..], |out| + 1));
        out := out + [cmd[j]];
      }
      j := j + 1;
    }
    assert QuoteFrom(cmd[j..], |out|) == "";
    out := out + "\"";
  }

  /** The comma scan shared by the writer (up to 5) and the verifier (5 and 6). */
  method ScanCommas(line: string, n: nat) returns (at: Option<nat>)
    requires n > 0
    ensures at == CommaAt(line, n, false)
  {
    var i, commas, inQuotes := 0, 0, false;
    ghost var goal := CommaAt(line, n, false);
    while i < |line| && line[i] != NEWLINE
      invariant 0 <= i <= |line| && 0 <= commas < n
      invariant goal == Shifted(CommaAt(line[i..], n - commas, inQuotes), i)
    {
      assert line[i..][0] == line[i] && line[i..][1..] == line[i + 1..];
      if line[i] == '"' {
        inQuotes := !inQuotes;
      }
      if !inQuotes && line[i] == ',' {
        commas := commas + 1;
        if commas == n {
          return Some(i);
        }
      }
      i := i + 1;
    }
    return None;
  }

  function Shifted(r: Option<nat>, offset: nat): Option<nat> {
    if r.None? then None else Some(r.value + offset)
  }

  /** The log with its file and the chain hash in memory, as the shell keeps them. */
  class AuditLog {
    const genesis: string
    var text: string
    var chain: string

    constructor (genesis: string, text: string)
      ensures this.genesis == genesis && this.text == text && chain == genesis
    {
      this.genesis, this.text, chain := genesis, text, genesis;
    }

    /** audit_init */
    method Init(marker: string)
      modifies this
      ensures Log(text, chain) == Append(genesis, old(Log(text, chain)), SessionStart(marker))
    {
      hide SeedField, IsHash, IsComment, ReadSize;
      var last := genesis;
      var pos := 0;
      while pos < |text|
        invariant pos <= |text| && text == old(text)
        invariant Seed(genesis, text) == Seed(last, text[pos..])
      {
        var n := ReadSize(text[pos..], LINE_SIZE);
        var line := text[pos..][..n];
        assert text[pos..][n..] == text[pos + n..];
        if !IsComment(line) {
          var field := SeedField(line);
          if IsHash(field) {
            last := field;
          }
        }
        pos := pos + n;
      }
      chain := last;
      text := text + marker;
    }

    /** audit_log_command, from the built record on */
    method LogCommand(m: Meta, cmd: string)
      modifies this
      ensures Log(text, chain) == Append(genesis, old(Log(text, chain)), Command(m, cmd))
    {
      hide Hash;
      if IsBlankCommand(cmd) {
        return;
      }
      var quoted := Quote(cmd);
      var body := Take(Prefix(m) + "," + quoted + "\n", LINE_SIZE - 1);
      chain := Hash(chain + body);
      var split := ScanCommas(body, 5);
      var rec := if split.Some? && split.value > 0
                 then body[..split.value] + "," + chain + body[split.value..]
                 else Fallback(body, chain);
      text := text + rec;
    }
  }

  /** audit_verify_log, on the text of the log */
  method VerifyLog(genesis: string, text: string) returns (code: int, report: Report)
    ensures report == Verify(genesis, text)
    ensures code == 0 <==> Accepted(report)
  {
    hide Hash, VerifyLine, ReadSize;
    report := Report(0, 0, 0, 0, genesis, []);
    var pos := 0;
    while pos < |text|
      invariant pos <= |text|
      invariant VerifyFrom(report, text[pos..]) == Verify(genesis, text)
    {
      var n := ReadSize(text[pos..], LINE_SIZE);
      assert text[pos..][n..] == text[pos + n..];
      report := CheckLine(report, text[pos..][..n]);
      pos := pos + n;
    }
    code := if report.bad == 0 && report.malformed == 0 then 0 else 1;
  }

  /** The body of the verifier's loop. */
  method CheckLine(r: Report, buffer: string) returns (r': Report)
    ensures r' == VerifyLine(r, buffer)
  {
    hide Hash, Fields, CommaAt, Strip, CString;
    if IsComment(buffer) {
      return r;
    }
    var line := CString(buffer);
    r' := r.(total := r.total + 1);
    var fs := Fields(line, 8);
    if |fs| < 6 || !IsHash(fs[4]) || !IsHash(fs[5]) {
      return r'.(malformed := r.malformed + 1);
    }
    var c4 := ScanCommas(line, 5);
    var c5 := ScanCommas(line, 6);
    if c4.None? || c5.None? {
      return r'.(malformed := r.malformed + 1);
    }
    var body := Strip(line, c4.value, c5.value);
    if Hash(r.chain + body) == fs[5] {
      r' := r'.(ok := r.ok + 1, bodies := r.bodies + [body]);
    } else {
      r' := r'.(bad := r.bad + 1);
    }
    r' := r'.(chain := fs[5]);
  }
}
