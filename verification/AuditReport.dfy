/** What the verifier counts, and what the fields of a written record say. */
module AuditReport {
  import opened Text
  import opened Audit
  import opened AuditProofs
  import opened AuditLines

  // ------------------------------------------------------------------ the counts

  function Count(flags: seq<bool>): nat {
    if flags == [] then 0 else Count(flags[..|flags| - 1]) + if flags[|flags| - 1] then 1 else 0
  }

  predicate Malformed(line: string) {
    ReadRecord(line).None?
  }

  /** The record carries on from the chain hash before it. */
  predicate Good(before: string, line: string) {
    ReadRecord(line).Some? && ReadRecord(line).value.stored == Hash(before + ReadRecord(line).value.body)
  }

  /** The chain hash after a line: the one it stores, broken or not, and the same as before
      when it is malformed. */
  function Next(before: string, line: string): string {
    if Malformed(line) then before else ReadRecord(line).value.stored
  }

  ghost predicate AreChains(genesis: string, lines: seq<string>, chains: seq<string>) {
    && |chains| == |lines| + 1 && chains[0] == genesis
    && forall i | 0 <= i < |lines| :: chains[i + 1] == Next(chains[i], lines[i])
  }

  function MalformedFlags(lines: seq<string>): seq<bool> {
    seq(|lines|, i requires 0 <= i < |lines| => Malformed(lines[i]))
  }

  function GoodFlags(lines: seq<string>, chains: seq<string>): seq<bool>
    requires |chains| == |lines| + 1
  {
    seq(|lines|, i requires 0 <= i < |lines| => Good(chains[i], lines[i]))
  }

  /** The report after these record lines. */
  ghost predicate Counts(r: Report, genesis: string, lines: seq<string>, chains: seq<string>) {
    && AreChains(genesis, lines, chains) && r.chain == chains[|lines|]
    && r.total == |lines| && r.total == r.ok + r.bad + r.malformed && |r.bodies| == r.ok
    && r.malformed == Count(MalformedFlags(lines)) && r.ok == Count(GoodFlags(lines, chains))
  }

  lemma CountMore(flags: seq<bool>, b: bool)
    ensures Count(flags + [b]) == Count(flags) + if b then 1 else 0
  {
    assert (flags + [b])[..|flags|] == flags;
  }

  lemma LineCounts(r: Report, genesis: string, lines: seq<string>, chains: seq<string>, line: string)
    requires Counts(r, genesis, lines, chains)
    ensures IsComment(line) ==> VerifyLine(r, line) == r
    ensures !IsComment(line) ==>
              Counts(VerifyLine(r, line), genesis, lines + [line], chains + [Next(r.chain, line)])
  {
    hide ReadRecord, Hash, IsComment, MalformedFlags, GoodFlags, Count, AreChains;
    if !IsComment(line) {
      FlagsMore(genesis, lines, chains, line);
    }
  }

  /** One more line, with the chain hash after it. */
  lemma FlagsMore(genesis: string, lines: seq<string>, chains: seq<string>, line: string)
    requires AreChains(genesis, lines, chains)
    ensures var before := chains[|lines|];
            var lines', chains' := lines + [line], chains + [Next(before, line)];
            && |chains| == |lines| + 1 && AreChains(genesis, lines', chains')
            && Count(MalformedFlags(lines')) == Count(MalformedFlags(lines)) + (if Malformed(line) then 1 else 0)
            && Count(GoodFlags(lines', chains')) ==
               Count(GoodFlags(lines, chains)) + (if Good(before, line) then 1 else 0)
  {
    hide Malformed, Good, Next, Count;
    var before := chains[|lines|];
    var lines', chains' := lines + [line], chains + [Next(before, line)];
    CountMore(MalformedFlags(lines), Malformed(line));
    CountMore(GoodFlags(lines, chains), Good(before, line));
    assert MalformedFlags(lines') == MalformedFlags(lines) + [Malformed(line)];
    assert GoodFlags(lines', chains') == GoodFlags(lines, chains) + [Good(before, line)];
  }

  lemma {:induction false} TextCounts(r: Report, genesis: string, lines: seq<string>, chains: seq<string>, text: string)
    returns (all: seq<string>)
    requires Counts(r, genesis, lines, chains)
    ensures Counts(VerifyFrom(r, text), genesis, lines + RecordLines(text), all)
    decreases |text|
  {
    hide Counts, VerifyLine, IsComment, Next;
    if text == "" {
      all := chains;
      assert lines + [] == lines;
    } else {
      var n := ReadSize(text, LINE_SIZE);
      var line, rest := text[..n], text[n..];
      LineCounts(r, genesis, lines, chains, line);
      if IsComment(line) {
        all := TextCounts(r, genesis, lines, chains, rest);
        assert [] + RecordLines(rest) == RecordLines(rest);
      } else {
        all := TextCounts(VerifyLine(r, line), genesis, lines + [line], chains + [Next(r.chain, line)], rest);
        Assoc(lines, [line], RecordLines(rest));
      }
    }
  }

  /** The report counts every record line once, as malformed, good or broken: good when it
      continues the chain hash stored in the nearest earlier line that is not malformed,
      or the genesis hash when there is none. */
  lemma ReportCounts(genesis: string, text: string) returns (chains: seq<string>)
    ensures Counts(Verify(genesis, text), genesis, RecordLines(text), chains)
  {
    var r := Report(0, 0, 0, 0, genesis, []);
    assert Counts(r, genesis, [], [genesis]);
    chains := TextCounts(r, genesis, [], [genesis], text);
    assert [] + RecordLines(text) == RecordLines(text);
  }

  /** A line longer than the buffer counts as several: the first takes 4095 characters,
      when the log is verified as well as when a session is seeded from it. */
  lemma LongLineIsCut(r: Report, chain: string, text: string)
    requires |text| > 4095 && NEWLINE !in text[..4095] && text[0] != '#'
    ensures var line, rest := text[..4095], text[4095..];
            && RecordLines(text) == [line] + RecordLines(rest)
            && VerifyFrom(r, text) == VerifyFrom(VerifyLine(r, line), rest)
            && Seed(chain, text) == Seed(if IsHash(SeedField(line)) then SeedField(line) else chain, rest)
  {
    var n := IndexOf(text, NEWLINE);
    assert forall i | 0 <= i < 4095 :: text[..4095][i] == text[i] != NEWLINE;
    assert n >= 4095 && ReadSize(text, LINE_SIZE) == 4095;
    hide VerifyLine, SeedField, IsHash;
  }

  // ------------------------------------------------------------------ the fields

  /** Fields in front of the command that hold no comma, quote or newline, whatever else. */
  predicate PlainFields(m: Meta) {
    FieldOk(m.time) && FieldOk(m.user) && FieldOk(m.stdoutHash)
    && |m.time| <= 1023 && |m.user| <= 1023 && |m.stdoutHash| <= 1023
    && |Decimal(m.pid)| <= 1023 && |Decimal(m.exit)| <= 1023
  }

  lemma PlainLineFields(m: Meta, chain: string, rest: string)
    requires PlainFields(m) && FieldOk(chain) && |chain| <= 1023
    ensures Fields(HeadedLine(m, chain, rest), 8) ==
            [m.time, m.user, Decimal(m.pid), Decimal(m.exit), m.stdoutHash, chain] + Fields(rest, 2)
  {
    hide Fields, Decimal, Prefix;
    PrefixIsLine5(m, chain + "," + rest);
    assert chain + ("," + rest) == chain + "," + rest;
    DecimalOk(m.pid);
    DecimalOk(m.exit);
    var r5 := chain + "," + rest;
    var r4 := m.stdoutHash + "," + r5;
    var r3 := Decimal(m.exit) + "," + r4;
    var r2 := Decimal(m.pid) + "," + r3;
    var r1 := m.user + "," + r2;
    FieldStep(m.time, r1, 8);
    FieldStep(m.user, r2, 7);
    FieldStep(Decimal(m.pid), r3, 6);
    FieldStep(Decimal(m.exit), r4, 5);
    FieldStep(m.stdoutHash, r5, 4);
    FieldStep(chain, rest, 3);
  }

  /** The verifier reads time, user, process, exit status and both hashes back out of a
      written record. */
  lemma RecordFields(m: Meta, cmd: string, chain: string)
    requires MetaOk(m) && IsHash(chain)
    ensures var fs := Fields(Record(RecordBody(m, cmd), chain), 8);
            && |fs| > 6 && fs[0] == m.time && fs[1] == m.user
            && Atol(fs[2]) == m.pid && Atol(fs[3]) == m.exit && fs[4] == m.stdoutHash && fs[5] == chain
  {
    hide Fields, Decimal, Atol, HeadedLine, Record;
    RecordIsLine(m, cmd, chain);
    SixFields(m, chain, CsvQuote(cmd) + "\n");
    SeventhField(m, cmd, chain);
    AtolDecimal(m.pid);
    AtolDecimal(m.exit);
  }

  lemma SixCommasThere(m: Meta, chain: string, rest: string)
    requires PlainFields(m) && FieldOk(chain)
    ensures CommaAt(HeadedLine(m, chain, rest), 5, false).Some? && CommaAt(HeadedLine(m, chain, rest), 6, false).Some?
  {
    hide CommaAt, Decimal, Prefix;
    PrefixIsLine5(m, chain + "," + rest);
    DecimalOk(m.pid);
    DecimalOk(m.exit);
    var r5 := chain + "," + rest;
    assert chain + ("," + rest) == r5;
    var r4 := m.stdoutHash + "," + r5;
    var r3 := Decimal(m.exit) + "," + r4;
    var r2 := Decimal(m.pid) + "," + r3;
    var r1 := m.user + "," + r2;
    CommaPastField(chain, rest, 1);
    CommaPastField(m.stdoutHash, r5, 1);
    CommaPastField(m.stdoutHash, r5, 2);
    CommaPastField(Decimal(m.exit), r4, 2);
    CommaPastField(Decimal(m.exit), r4, 3);
    CommaPastField(Decimal(m.pid), r3, 3);
    CommaPastField(Decimal(m.pid), r3, 4);
    CommaPastField(m.user, r2, 4);
    CommaPastField(m.user, r2, 5);
    CommaPastField(m.time, r1, 5);
    CommaPastField(m.time, r1, 6);
  }

  /** A line with six such fields is malformed exactly when its output hash or its chain hash
      is not a hash. */
  lemma MalformedIff(m: Meta, chain: string, rest: string)
    requires PlainFields(m) && FieldOk(chain) && |chain| <= 1023 && NUL !in rest
    ensures Malformed(HeadedLine(m, chain, rest)) <==> !IsHash(m.stdoutHash) || !IsHash(chain)
  {
    var line := HeadedLine(m, chain, rest);
    DecimalOk(m.pid);
    DecimalOk(m.exit);
    hide Decimal;
    assert NUL !in line;
    CStringWithoutNul(line);
    PlainLineFields(m, chain, rest);
    SixCommasThere(m, chain, rest);
    hide Fields, CommaAt, Strip, IsHash, HeadedLine, CString;
  }

  /** A command leaves the log as it is exactly when it is blank. */
  lemma BlankLeavesLog(genesis: string, log: Log, m: Meta, cmd: string)
    ensures Append(genesis, log, Command(m, cmd)) == log <==> forall c | c in cmd :: c == ' ' || c == '\t' || c == '\n'
  {
    var body := RecordBody(m, cmd);
    assert Record(body, Hash(log.chain + body)) != "";
    hide RecordBody, Record, Hash;
  }

  /** The chained text is the whole record text unless that is longer than 4095 characters,
      and then its front part. */
  lemma BodyIsCut(m: Meta, cmd: string)
    ensures var whole := Prefix(m) + "," + CsvQuote(cmd) + "\n";
            && RecordBody(m, cmd) <= whole && |RecordBody(m, cmd)| <= 4095
            && (RecordBody(m, cmd) == whole <==> |whole| <= 4095)
            && (|whole| > 4095 ==> |RecordBody(m, cmd)| == 4095)
  {
    hide Prefix, CsvQuote;
  }

  /** A body with fewer than five commas gets the chain hash at its end. */
  lemma HashAtEnd(text: string, chain: string)
    requires CommaAt(text + "\n", 5, false).None?
    ensures Record(text + "\n", chain) == text + "," + chain + "\n"
  {
    assert (text + "\n")[..|text|] == text;
    hide CommaAt;
  }

  // -------------------------------------------------------------------- hex text

  /** The value of a lower-case hexadecimal digit. */
  function DigitOf(c: char): int {
    if '0' <= c <= '9' then c as int - '0' as int
    else if 'a' <= c <= 'f' then c as int - 'a' as int + 10
    else -1
  }

  lemma NibbleDigit(n: nat)
    requires n < 16
    ensures DigitOf(HexNibble(n)) == n
  {}

  /** Each byte is printed as its two digits, the upper one first. */
  lemma {:induction false} HexBytesDigits(bytes: seq<bv8>, i: nat)
    requires i < |bytes|
    ensures 16 * DigitOf(HexBytes(bytes)[2 * i]) + DigitOf(HexBytes(bytes)[2 * i + 1]) == bytes[i] as int
    decreases i
  {
    if i == 0 {
      var b := bytes[0] as nat;
      NibbleDigit(b / 16);
      NibbleDigit(b % 16);
    } else {
      HexBytesDigits(bytes[1..], i - 1);
      var rest := HexBytes(bytes[1..]);
      assert HexBytes(bytes)[2 * i] == rest[2 * (i - 1)] && HexBytes(bytes)[2 * i + 1] == rest[2 * (i - 1) + 1];
      hide HexBytes;
    }
  }
}
