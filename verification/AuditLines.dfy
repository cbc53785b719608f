/** What an accepted audit log says about the very characters of its lines: the chained
    text leaves out the stored hash, whatever lies past the suffix buffer, and whatever
    lies behind a NUL. */
module AuditLines {
  import opened Text
  import opened Audit
  import opened AuditProofs

  // --------------------------------------------------------- one line as a C string

  /** At most a last newline, and within the line buffer. */
  predicate OneLine(l: string) {
    |l| < LINE_SIZE && (l != "" ==> NEWLINE !in l[..|l| - 1])
  }

  predicate Ended(l: string) {
    l != "" && l[|l| - 1] == NEWLINE
  }

  /** The verifier's two commas are there. */
  predicate Cuttable(l: string) {
    CommaAt(l, 6, false).Some?
  }

  /** The text between the fifth and the sixth comma, where the stored hash is cut out. */
  function Middle(l: string): string {
    if !Cuttable(l) then ""
    else
      MiddleFollows(l, 5, false);
      l[CommaAt(l, 5, false).value + 1..CommaAt(l, 6, false).value]
  }

  /** The text from the sixth comma on. */
  function Suffix(l: string): string {
    if !Cuttable(l) then "" else l[CommaAt(l, 6, false).value..]
  }

  /** What the suffix buffer has no room for. */
  function Beyond(l: string): string {
    Overflow(Suffix(l))
  }

  function Overflow(suffix: string): string {
    if |suffix| <= SUFFIX_CAP then "" else suffix[SUFFIX_CAP..]
  }

  /** The chained text rebuilt from a line. */
  function Stripped(l: string): string
    requires Cuttable(l)
  {
    MiddleFollows(l, 5, false);
    Strip(l, CommaAt(l, 5, false).value, CommaAt(l, 6, false).value)
  }

  lemma ReadsStripped(l: string)
    ensures ReadShown(l).Some? ==> Cuttable(l) && ReadShown(l).value.body == Stripped(l)
  {
    hide CommaAt, Fields, IsHash, Strip;
  }

  lemma {:induction false} MiddleFollows(s: string, n: nat, inQuotes: bool)
    requires n > 0 && CommaAt(s, n + 1, inQuotes).Some?
    ensures CommaAt(s, n, inQuotes).Some? && CommaAt(s, n, inQuotes).value < CommaAt(s, n + 1, inQuotes).value
    decreases |s|
  {
    if s[0] == '"' {
      MiddleFollows(s[1..], n, !inQuotes);
    } else if inQuotes || s[0] != ',' {
      MiddleFollows(s[1..], n, inQuotes);
    } else if n > 1 {
      MiddleFollows(s[1..], n - 1, inQuotes);
    }
  }

  /** The comma scan depends only on the text up to the comma it finds. */
  lemma {:induction false} CommaIn(s: string, t: string, n: nat, inQuotes: bool)
    requires n > 0 && CommaAt(s, n, inQuotes).Some?
    requires var i := CommaAt(s, n, inQuotes).value; i < |t| && t[..i + 1] == s[..i + 1]
    ensures s[CommaAt(s, n, inQuotes).value] == ',' && CommaAt(t, n, inQuotes) == CommaAt(s, n, inQuotes)
    decreases |s|
  {
    var i := CommaAt(s, n, inQuotes).value;
    assert t[0] == t[..i + 1][0] == s[..i + 1][0] == s[0];
    if i > 0 {
      assert t[1..][..i] == t[..i + 1][1..] == s[..i + 1][1..] == s[1..][..i];
      if s[0] == '"' {
        CommaIn(s[1..], t[1..], n, !inQuotes);
      } else if inQuotes || s[0] != ',' {
        CommaIn(s[1..], t[1..], n, inQuotes);
      } else {
        CommaIn(s[1..], t[1..], n - 1, inQuotes);
      }
    }
  }

  /** A suffix as far as its buffer takes it, ended by a newline if it is not. */
  function Cut(suffix: string): string {
    var kept := Take(suffix, SUFFIX_CAP);
    if Ended(kept) then kept else kept + "\n"
  }

  lemma StripIs(l: string, c4: nat, c5: nat)
    requires OneLine(l) && c4 < c5 < |l|
    ensures Strip(l, c4, c5) == l[..c4] + Cut(l[c5..])
  {
    var kept := Take(l[c5..], SUFFIX_CAP);
    assert (l[..c4] + kept)[|l[..c4] + kept| - 1] == kept[|kept| - 1];
    Assoc(l[..c4], kept, "\n");
  }

  /** The chained text of a line: the text before the fifth comma, then the suffix as far as
      the buffer takes it. */
  lemma StrippedLine(l: string) returns (c4: nat)
    requires OneLine(l) && Cuttable(l)
    ensures CommaAt(l, 5, false) == CommaAt(Stripped(l), 5, false) == Some(c4)
    ensures l == l[..c4] + ("," + Middle(l)) + Suffix(l) && Suffix(l) != "" && Suffix(l)[0] == ','
    ensures Stripped(l) == l[..c4] + Cut(Suffix(l))
    ensures OneLine(Suffix(l)) && (Ended(Suffix(l)) <==> Ended(l))
  {
    hide CommaAt, Strip, OneLine, Cut, Ended;
    MiddleFollows(l, 5, false);
    c4 := CommaAt(l, 5, false).value;
    var c5 := CommaAt(l, 6, false).value;
    CommaIn(l, l, 5, false);
    CommaIn(l, l, 6, false);
    assert l == l[..c4] + ("," + l[c4 + 1..c5]) + l[c5..];
    StripIs(l, c4, c5);
    CutStart(l[c5..]);
    SuffixOfLine(l, c5);
    var body := Stripped(l);
    assert body[..c4 + 1] == l[..c4] + [body[c4]] == l[..c4 + 1];
    CommaIn(l, body, 5, false);
  }

  lemma SuffixOfLine(l: string, i: nat)
    requires OneLine(l) && i < |l|
    ensures OneLine(l[i..]) && (Ended(l[i..]) <==> Ended(l))
  {
    assert l[i..][..|l| - i - 1] == l[..|l| - 1][i..];
  }

  lemma CutStart(suffix: string)
    requires suffix != ""
    ensures Cut(suffix) != "" && Cut(suffix)[0] == suffix[0]
  {}

  /** A cut suffix that ends a line, by its length. */
  lemma CutShape(s: string)
    requires OneLine(s)
    ensures Cut(s) == if Ended(s) && |s| <= SUFFIX_CAP then s else Take(s, SUFFIX_CAP) + "\n"
  {
    if |s| > SUFFIX_CAP {
      assert s[..SUFFIX_CAP][SUFFIX_CAP - 1] == s[..|s| - 1][SUFFIX_CAP - 1];
    }
  }

  lemma CutBinds(s: string, t: string)
    requires OneLine(s) && OneLine(t) && (Ended(s) <==> Ended(t)) && Cut(s) == Cut(t)
    ensures s == t <==> Overflow(s) == Overflow(t)
  {
    CutShape(s);
    CutShape(t);
    hide Cut, OneLine;
    var u, v := Take(s, SUFFIX_CAP), Take(t, SUFFIX_CAP);
    assert (u + "\n")[..|u|] == u && (v + "\n")[..|v|] == v;
    assert u == v;
    assert s == u + Overflow(s) && t == v + Overflow(t);
  }

  /** The chained text fixes a C string up to what lies between the two commas and beyond
      the suffix buffer, and leaves exactly these two open. */
  lemma ShownBinds(a: string, b: string)
    requires OneLine(a) && OneLine(b) && (Ended(a) <==> Ended(b))
    requires Cuttable(a) && Cuttable(b) && Stripped(a) == Stripped(b)
    ensures a == b <==> Middle(a) == Middle(b) && Beyond(a) == Beyond(b)
  {
    hide Stripped, CommaAt, OneLine, Middle, Suffix, Overflow, Cut, Ended;
    var c4 := StrippedLine(a);
    var d4 := StrippedLine(b);
    var body := Stripped(a);
    assert c4 == d4 && a[..c4] == body[..c4] == b[..c4];
    assert Cut(Suffix(a)) == body[c4..] == Cut(Suffix(b));
    CutBinds(Suffix(a), Suffix(b));
    assert ("," + Middle(a))[1..] == Middle(a) && ("," + Middle(b))[1..] == Middle(b);
  }

  // ------------------------------------------------------------- a line of the log

  /** What the C string of the line buffer does not show: the first NUL and all after it. */
  function Hidden(line: string): string {
    line[|CString(line)|..]
  }

  lemma ShownLine(line: string)
    requires OneLine(line)
    ensures OneLine(CString(line)) && line == CString(line) + Hidden(line)
    ensures FullLine(line) ==> (Ended(CString(line)) <==> Hidden(line) == "")
  {
    var n := IndexOf(line, NUL);
    if n < |line| {
      assert line[..n] == line[..|line| - 1][..n];
      assert forall c | c in line[..n] :: c in line[..|line| - 1];
    } else {
      assert line[..n] == line;
    }
  }

  /** What a line holds outside its chained text: the text cut out, the text beyond the
      suffix buffer, the text behind a NUL, and whether its own newline ends what is shown. */
  function Open(line: string): (string, string, string, bool) {
    (Middle(CString(line)), Beyond(CString(line)), Hidden(line), Ended(CString(line)))
  }

  /** The chained text fixes any line up to what is open, and leaves exactly that open. */
  lemma LineBinds(a: string, b: string)
    requires OneLine(a) && OneLine(b) && Cuttable(CString(a)) && Cuttable(CString(b))
    requires Stripped(CString(a)) == Stripped(CString(b))
    ensures a == b <==> Open(a) == Open(b)
  {
    hide Stripped, Cuttable, FullLine, Middle, Beyond, Hidden, CString, OneLine, Ended;
    ShownLine(a);
    ShownLine(b);
    if Open(a) == Open(b) {
      ShownBinds(CString(a), CString(b));
    }
  }

  // ------------------------------------------------------------ where the hash is read

  /** The first n fields are unquoted, end at their commas and fit the verifier's fields. */
  predicate Aligned(s: string, n: nat) {
    n == 0 ||
    var i := IndexOf(s, ',');
    i < |s| && i <= FIELD_CAP && FieldOk(s[..i]) && Aligned(s[i + 1..], n - 1)
  }

  /** Field n of an aligned line, counted from 0. */
  function FieldOf(s: string, n: nat): string
    requires Aligned(s, n + 1)
    decreases n
  {
    var i := IndexOf(s, ',');
    if n == 0 then s[..i] else FieldOf(s[i + 1..], n - 1)
  }

  lemma AlignedHead(s: string, n: nat) returns (f: string, rest: string)
    requires n > 0 && Aligned(s, n)
    ensures f == s[..IndexOf(s, ',')] && rest == s[|f| + 1..] && s == f + "," + rest
    ensures FieldOk(f) && |f| <= FIELD_CAP && Aligned(rest, n - 1)
  {
    f, rest := s[..IndexOf(s, ',')], s[IndexOf(s, ',') + 1..];
  }

  lemma {:induction false} AlignedField(s: string, n: nat, count: nat)
    requires n < count && Aligned(s, n + 1)
    ensures |Fields(s, count)| > n && Fields(s, count)[n] == FieldOf(s, n)
    decreases n
  {
    hide Fields, Aligned, FieldOk, IndexOf;
    var f, rest := AlignedHead(s, n + 1);
    FieldStep(f, rest, count);
    if n > 0 {
      AlignedField(rest, n - 1, count - 1);
      assert ([f] + Fields(rest, count - 1))[n] == Fields(rest, count - 1)[n - 1];
    }
  }

  /** The comma scan finds the same fields. */
  lemma {:induction false} AlignedComma(s: string, n: nat)
    requires n > 0 && Aligned(s, n + 1)
    ensures CommaAt(s, n, false).Some? && CommaAt(s, n + 1, false).Some?
    ensures CommaAt(s, n, false).value < CommaAt(s, n + 1, false).value
    ensures s[CommaAt(s, n, false).value + 1..CommaAt(s, n + 1, false).value] == FieldOf(s, n)
    decreases n
  {
    hide CommaAt, Aligned, FieldOk, IndexOf, FieldOf;
    var f, rest := AlignedHead(s, n + 1);
    CommaPastField(f, rest, n);
    CommaPastField(f, rest, n + 1);
    FieldAfter(s, n);
    if n == 1 {
      var g, tail := AlignedHead(rest, 1);
      CommaPastField(g, tail, 1);
      FieldFirst(rest);
      SliceAfter(s, |f| + 1, 0, |g|);
    } else {
      AlignedComma(rest, n - 1);
      SliceAfter(s, |f| + 1, CommaAt(rest, n - 1, false).value + 1, CommaAt(rest, n, false).value);
    }
  }

  lemma FieldAfter(s: string, n: nat)
    requires n > 0 && Aligned(s, n + 1)
    ensures FieldOf(s, n) == FieldOf(s[IndexOf(s, ',') + 1..], n - 1)
  {}

  lemma FieldFirst(s: string)
    requires Aligned(s, 1)
    ensures FieldOf(s, 0) == s[..IndexOf(s, ',')] == s[0..IndexOf(s, ',')]
  {}

  lemma SliceAfter(s: string, i: nat, lo: nat, hi: nat)
    requires i <= |s| && lo <= hi <= |s| - i
    ensures s[i..][lo..hi] == s[lo + i..hi + i]
  {}

  /** On an aligned line, the text cut out is the stored hash. */
  lemma MiddleIsStored(l: string)
    requires Aligned(l, 6)
    ensures ReadShown(l).Some? ==> Middle(l) == ReadShown(l).value.stored
  {
    hide Fields, CommaAt, Aligned, IsHash, Strip;
    AlignedField(l, 5, 8);
    AlignedComma(l, 5);
  }

  /** What a full, aligned line holds outside its chained text and its stored hash. */
  function Unchained(line: string): (string, string) {
    (Beyond(CString(line)), Hidden(line))
  }

  /** On full, aligned lines with one reading nothing else is open. */
  lemma OpenIsUnchained(a: string, b: string)
    requires FullLine(a) && FullLine(b) && Aligned(CString(a), 6) && Aligned(CString(b), 6)
    ensures ReadRecord(a).Some? && ReadRecord(a) == ReadRecord(b) ==>
              (Open(a) == Open(b) <==> Unchained(a) == Unchained(b))
  {
    FullIsOneLine(a);
    FullIsOneLine(b);
    hide ReadShown, Middle, Beyond, Hidden, FullLine, OneLine, Ended, Aligned, CString;
    ShownLine(a);
    ShownLine(b);
    MiddleIsStored(CString(a));
    MiddleIsStored(CString(b));
  }

  lemma FullIsOneLine(l: string)
    requires FullLine(l)
    ensures OneLine(l)
  {}

  /** Two lines with one reading are equal exactly when they agree in what is open. */
  lemma ReadLineBinds(a: string, b: string)
    requires OneLine(a) && OneLine(b)
    ensures ReadRecord(a).Some? && ReadRecord(a) == ReadRecord(b) ==> (a == b <==> Open(a) == Open(b))
  {
    hide ReadShown, Open, OneLine, Stripped, Cuttable, CString;
    ReadsStripped(CString(a));
    ReadsStripped(CString(b));
    if ReadRecord(a).Some? && ReadRecord(a) == ReadRecord(b) {
      LineBinds(a, b);
    }
  }

  /** Full, aligned ones exactly when they agree in what is unchained. */
  lemma AlignedLineBinds(a: string, b: string)
    requires FullLine(a) && FullLine(b) && Aligned(CString(a), 6) && Aligned(CString(b), 6)
    ensures ReadRecord(a).Some? && ReadRecord(a) == ReadRecord(b) ==> (a == b <==> Unchained(a) == Unchained(b))
  {
    FullIsOneLine(a);
    FullIsOneLine(b);
    hide ReadRecord, Open, Unchained, FullLine, OneLine, Aligned, CString;
    ReadLineBinds(a, b);
    OpenIsUnchained(a, b);
  }

  // ---------------------------------------------------------------- whole logs

  /** The lines of a log that the verifier counts, as its buffer cuts them. */
  function RecordLines(text: string): seq<string>
    decreases |text|
  {
    if text == "" then []
    else
      var n := ReadSize(text, LINE_SIZE);
      (if IsComment(text[..n]) then [] else [text[..n]]) + RecordLines(text[n..])
  }

  /** Every line reads as its chained text and the chain hash up to it. */
  ghost predicate ReadAs(genesis: string, bodies: seq<string>, lines: seq<string>) {
    |lines| == |bodies| &&
    forall i | 0 <= i < |lines| ::
      ReadRecord(lines[i]) == Some(Reading(bodies[i], ChainOf(genesis, bodies[..i + 1])))
  }

  lemma ChainStep(genesis: string, bodies: seq<string>, body: string)
    ensures ChainOf(genesis, bodies + [body]) == Hash(ChainOf(genesis, bodies) + body)
  {
    hide Hash;
    assert (bodies + [body])[..|bodies|] == bodies;
  }

  lemma ReadAsMore(genesis: string, bodies: seq<string>, lines: seq<string>, line: string, body: string)
    requires ReadAs(genesis, bodies, lines)
    ensures ReadRecord(line) == Some(Reading(body, Hash(ChainOf(genesis, bodies) + body))) ==>
              ReadAs(genesis, bodies + [body], lines + [line])
  {
    hide ReadRecord, Hash, ChainOf;
    var bodies' := bodies + [body];
    ChainStep(genesis, bodies, body);
    assert bodies'[..|bodies'|] == bodies';
    assert forall i {:trigger lines[i]} | 0 <= i < |lines| :: bodies'[..i + 1] == bodies[..i + 1];
  }

  /** An accepted record goes on from the chain value before it. */
  lemma RecordAccepted(r: Report, line: string)
    ensures IsComment(line) ==> VerifyLine(r, line) == r
    ensures Accepted(VerifyLine(r, line)) ==> Accepted(r)
    ensures Accepted(VerifyLine(r, line)) && !IsComment(line) ==>
              && ReadRecord(line).Some?
              && ReadRecord(line).value.stored == Hash(r.chain + ReadRecord(line).value.body)
              && VerifyLine(r, line).bodies == r.bodies + [ReadRecord(line).value.body]
  {
    hide ReadRecord, Hash;
  }

  /** A report accepts only what it accepted before. */
  lemma {:induction false} AcceptedBefore(r: Report, text: string)
    ensures Accepted(VerifyFrom(r, text)) ==> Accepted(r)
    decreases |text|
  {
    hide VerifyLine;
    if text != "" {
      var n := ReadSize(text, LINE_SIZE);
      AcceptedBefore(VerifyLine(r, text[..n]), text[n..]);
      RecordAccepted(r, text[..n]);
    }
  }

  lemma {:induction false} AcceptedReads(genesis: string, r: Report, lines: seq<string>, text: string)
    requires Chained(genesis, r) && Accepted(VerifyFrom(r, text))
    requires Accepted(r) ==> ReadAs(genesis, r.bodies, lines)
    ensures ReadAs(genesis, VerifyFrom(r, text).bodies, lines + RecordLines(text))
    decreases |text|
  {
    assert Accepted(r) ==> r.chain == ChainOf(genesis, r.bodies);
    hide VerifyLine, ReadAs, ReadRecord, Hash, Chained, Accepted, IsComment;
    AcceptedBefore(r, text);
    if text == "" {
      assert lines + [] == lines;
    } else {
      var n := ReadSize(text, LINE_SIZE);
      var line, rest := text[..n], text[n..];
      AcceptedBefore(VerifyLine(r, line), rest);
      VerifyLineChains(genesis, r, line);
      RecordAccepted(r, line);
      if IsComment(line) {
        AcceptedReads(genesis, r, lines, rest);
        assert [] + RecordLines(rest) == RecordLines(rest);
      } else {
        ReadAsMore(genesis, r.bodies, lines, line, ReadRecord(line).value.body);
        AcceptedReads(genesis, VerifyLine(r, line), lines + [line], rest);
        Assoc(lines, [line], RecordLines(rest));
      }
    }
  }

  /** An accepted log's record lines read as its chained texts and the running chain. */
  lemma AcceptedLinesRead(genesis: string, text: string)
    requires Accepted(Verify(genesis, text))
    ensures ReadAs(genesis, Verify(genesis, text).bodies, RecordLines(text))
  {
    AcceptedReads(genesis, Report(0, 0, 0, 0, genesis, []), [], text);
    assert [] + RecordLines(text) == RecordLines(text);
  }

  /** Every line the verifier's buffer takes has at most a last newline. */
  lemma {:induction false} RecordsAreLines(text: string)
    ensures forall l | l in RecordLines(text) :: OneLine(l)
    decreases |text|
  {
    hide IsComment, OneLine;
    if text != "" {
      var n := ReadSize(text, LINE_SIZE);
      ChunkIsLine(text);
      RecordsAreLines(text[n..]);
    }
  }

  lemma ChunkIsLine(text: string)
    requires text != ""
    ensures OneLine(text[..ReadSize(text, LINE_SIZE)])
  {
    var n := ReadSize(text, LINE_SIZE);
    var chunk := text[..n];
    assert chunk[..n - 1] == text[..IndexOf(text, NEWLINE)][..n - 1];
    assert forall c | c in chunk[..n - 1] :: c in text[..IndexOf(text, NEWLINE)];
  }

  ghost predicate SameOpen(a: seq<string>, b: seq<string>) {
    |a| == |b| && forall i | 0 <= i < |a| :: Open(a[i]) == Open(b[i])
  }

  lemma LinesBind(genesis: string, bodies: seq<string>, a: seq<string>, b: seq<string>)
    requires ReadAs(genesis, bodies, a) && ReadAs(genesis, bodies, b) && forall l | l in a + b :: OneLine(l)
    ensures a == b <==> SameOpen(a, b)
  {
    hide ReadRecord, OneLine, Open;
    forall i | 0 <= i < |a|
      ensures a[i] == b[i] <==> Open(a[i]) == Open(b[i])
    {
      assert a[i] in a + b && b[i] in a + b;
      ReadLineBinds(a[i], b[i]);
    }
  }

  /** Tamper evidence for the characters of a log: any two accepted logs with the same
      genesis and last chain hash have the same record lines exactly when these agree in
      what is open, or exhibit a hash coincidence among their records. */
  lemma AcceptedLinesBind(genesis: string, text1: string, text2: string) returns (i: nat, j: nat)
    requires IsHash(genesis) && AreBytes(text1) && AreBytes(text2)
    requires Accepted(Verify(genesis, text1)) && Accepted(Verify(genesis, text2))
    requires Verify(genesis, text1).chain == Verify(genesis, text2).chain
    ensures || (RecordLines(text1) == RecordLines(text2) <==> SameOpen(RecordLines(text1), RecordLines(text2)))
            || Coincidence(genesis, Verify(genesis, text1).bodies, Verify(genesis, text2).bodies, i, j)
  {
    hide Coincidence, IsHash, AreBytes, Verify, Accepted, OneLine, SameOpen, ReadAs, RecordLines;
    i, j := AcceptedLogsBind(genesis, text1, text2);
    if Verify(genesis, text1).bodies == Verify(genesis, text2).bodies {
      AcceptedLinesRead(genesis, text1);
      AcceptedLinesRead(genesis, text2);
      RecordsAreLines(text1);
      RecordsAreLines(text2);
      LinesBind(genesis, Verify(genesis, text1).bodies, RecordLines(text1), RecordLines(text2));
    }
  }

  /** Full lines whose six leading fields are as the logger writes them. */
  predicate WellFormed(lines: seq<string>) {
    forall l | l in lines :: FullLine(l) && Aligned(CString(l), 6)
  }

  ghost predicate SameUnchained(a: seq<string>, b: seq<string>) {
    |a| == |b| && forall i | 0 <= i < |a| :: Unchained(a[i]) == Unchained(b[i])
  }

  lemma WellFormedOpen(genesis: string, bodies: seq<string>, a: seq<string>, b: seq<string>)
    requires ReadAs(genesis, bodies, a) && ReadAs(genesis, bodies, b) && WellFormed(a) && WellFormed(b)
    ensures SameOpen(a, b) <==> SameUnchained(a, b)
  {
    hide ReadRecord, FullLine, Aligned, Unchained, Open, CString;
    forall i | 0 <= i < |a|
      ensures Open(a[i]) == Open(b[i]) <==> Unchained(a[i]) == Unchained(b[i])
    {
      OpenIsUnchained(a[i], b[i]);
    }
  }

  /** Of logs of well-formed lines, only what is unchained is open. */
  lemma WellFormedLinesBind(genesis: string, text1: string, text2: string) returns (i: nat, j: nat)
    requires IsHash(genesis) && AreBytes(text1) && AreBytes(text2)
    requires Accepted(Verify(genesis, text1)) && Accepted(Verify(genesis, text2))
    requires Verify(genesis, text1).chain == Verify(genesis, text2).chain
    requires WellFormed(RecordLines(text1)) && WellFormed(RecordLines(text2))
    ensures || (RecordLines(text1) == RecordLines(text2) <==> SameUnchained(RecordLines(text1), RecordLines(text2)))
            || Coincidence(genesis, Verify(genesis, text1).bodies, Verify(genesis, text2).bodies, i, j)
  {
    hide Coincidence, IsHash, AreBytes, Verify, Accepted, WellFormed, SameOpen, SameUnchained, ReadAs, RecordLines;
    i, j := AcceptedLogsBind(genesis, text1, text2);
    if Verify(genesis, text1).bodies == Verify(genesis, text2).bodies {
      AcceptedLinesRead(genesis, text1);
      AcceptedLinesRead(genesis, text2);
      WellFormedOpen(genesis, Verify(genesis, text1).bodies, RecordLines(text1), RecordLines(text2));
      i, j := AcceptedLinesBind(genesis, text1, text2);
    }
  }

  /** All of the line is shown and fits the suffix buffer. */
  predicate Fits(line: string) {
    NUL !in line && |Suffix(line)| <= SUFFIX_CAP
  }

  lemma FittingIsChained(line: string)
    requires Fits(line)
    ensures Unchained(line) == ("", "")
  {
    hide CString, CommaAt;
    CStringWithoutNul(line);
    assert line[|line|..] == "";
  }

  /** When every line fits, the record lines are the same or there is a coincidence. */
  lemma FittingLinesBind(genesis: string, text1: string, text2: string) returns (i: nat, j: nat)
    requires IsHash(genesis) && AreBytes(text1) && AreBytes(text2)
    requires Accepted(Verify(genesis, text1)) && Accepted(Verify(genesis, text2))
    requires Verify(genesis, text1).chain == Verify(genesis, text2).chain
    requires WellFormed(RecordLines(text1)) && WellFormed(RecordLines(text2))
    requires forall l | l in RecordLines(text1) + RecordLines(text2) :: Fits(l)
    ensures || RecordLines(text1) == RecordLines(text2)
            || Coincidence(genesis, Verify(genesis, text1).bodies, Verify(genesis, text2).bodies, i, j)
  {
    hide Coincidence, IsHash, AreBytes, Verify, Accepted, WellFormed, RecordLines, Fits, Unchained, ReadRecord;
    i, j := AcceptedLogsBind(genesis, text1, text2);
    if Verify(genesis, text1).bodies == Verify(genesis, text2).bodies {
      AcceptedLinesRead(genesis, text1);
      AcceptedLinesRead(genesis, text2);
      var a, b := RecordLines(text1), RecordLines(text2);
      forall k | 0 <= k < |a|
        ensures Unchained(a[k]) == Unchained(b[k])
      {
        assert a[k] in a + b && b[k] in a + b;
        FittingIsChained(a[k]);
        FittingIsChained(b[k]);
      }
      i, j := WellFormedLinesBind(genesis, text1, text2);
    }
  }

  // ---------------------------------------------------------------- what is left open

  lemma HeadReads(m: Meta, chain: string, rest: string)
    requires MetaOk(m) && IsHash(chain)
    ensures var r := ReadRecord(HeadedLine(m, chain, rest));
            r.Some? && r.value.stored == chain
            && r.value.body == Strip(HeadedLine(m, chain, CString(rest)), |Prefix(m)|, |Prefix(m)| + 1 + HASH_LEN)
  {
    hide Fields, CommaAt, Strip, Prefix, IsHash, CString;
    HeadShown(m, chain, rest);
    SixFields(m, chain, CString(rest));
    SixCommas(m, chain, CString(rest));
  }

  /** A command too long for the quoting buffer fills it to the last character. */
  lemma {:induction false} LongestQuote(cmd: string, i: nat)
    requires 1 <= i <= 2045 && '"' !in cmd && i + |cmd| >= 2045
    ensures i + |QuoteFrom(cmd, i)| == 2045
    decreases cmd
  {
    if cmd != "" && i < 2045 {
      LongestQuote(cmd[1..], i + 1);
    }
  }

  /** At the greatest quoted length the suffix buffer is full before the end of the line:
      whatever is added there is read as the honest record. */
  lemma UnchainedJunk(m: Meta, cmd: string, chain: string, junk: string)
    requires EventOk(Command(m, cmd)) && IsHash(chain) && '"' !in cmd && |cmd| >= 2044
    requires NEWLINE !in junk && |junk| <= 1500
    ensures FullLine(HeadedLine(m, chain, CsvQuote(cmd) + junk + "\n"))
    ensures ReadRecord(HeadedLine(m, chain, CsvQuote(cmd) + junk + "\n")) == ReadRecord(WrittenLine(m, cmd, chain))
  {
    GrownRecord(m, cmd, chain, "", junk);
    LongestQuote(cmd, 1);
    QuoteLength(cmd, 1);
    var q := CsvQuote(cmd);
    assert |q| == 2046 && NUL !in q;
    hide ReadRecord, Prefix, CsvQuote, Strip, HeadedLine, CString, FullLine, IsHash, MetaOk;
    HashLength(chain);
    HeadReads(m, chain, q + "\n");
    HeadReads(m, chain, q + junk + "\n");
    CStringOfConcat(q, "\n");
    Assoc(q, junk, "\n");
    CStringOfConcat(q, junk + "\n");
    SameStrip(m, chain, q, CString(junk + "\n"));
    SameStrip(m, chain, q, CString("\n"));
    assert ReadRecord(WrittenLine(m, cmd, chain)).Some?;
  }

  lemma SameStrip(m: Meta, chain: string, q: string, tail: string)
    requires |q| == 2046 && |chain| == HASH_LEN
    ensures Strip(HeadedLine(m, chain, q + tail), |Prefix(m)|, |Prefix(m)| + 1 + HASH_LEN) ==
            Strip(HeadedLine(m, chain, q), |Prefix(m)|, |Prefix(m)| + 1 + HASH_LEN)
  {
    hide Prefix;
    LineParts(Prefix(m), chain, q);
    LineParts(Prefix(m), chain, q + tail);
    assert Take("," + (q + tail), SUFFIX_CAP) == "," + q == Take("," + q, SUFFIX_CAP);
  }

  /** Text behind a NUL is read as the honest record it is added to, at any length. */
  lemma HiddenJunk(m: Meta, cmd: string, chain: string, junk: string)
    requires EventOk(Command(m, cmd)) && IsHash(chain) && NEWLINE !in junk && |junk| < 1500
    ensures FullLine(HeadedLine(m, chain, CsvQuote(cmd) + ([NUL] + junk) + "\n"))
    ensures ReadRecord(HeadedLine(m, chain, CsvQuote(cmd) + ([NUL] + junk) + "\n")) ==
            ReadRecord(WrittenLine(m, cmd, chain))
  {
    QuoteLength(cmd, 1);
    GrownRecord(m, cmd, chain, "", [NUL] + junk);
    var q := CsvQuote(cmd);
    var tail := [NUL] + junk + "\n";
    assert NUL !in q && CString(tail) == "";
    hide ReadRecord, Prefix, CsvQuote, Strip, HeadedLine, CString, RecordBody, IsHash, FullLine, MetaOk;
    HashLength(chain);
    Assoc(q, [NUL] + junk, "\n");
    CStringOfConcat(q, tail);
    assert q + "" == q;
    HeadReads(m, chain, q + tail);
    StripShown(m, cmd, chain);
    ReadsRecord(m, cmd, chain);
  }

  lemma StripShown(m: Meta, cmd: string, chain: string)
    requires MetaOk(m) && |chain| == HASH_LEN
    ensures Strip(HeadedLine(m, chain, CsvQuote(cmd)), |Prefix(m)|, |Prefix(m)| + 1 + HASH_LEN) == RecordBody(m, cmd)
  {
    hide Prefix, CsvQuote, RecordBody;
    var q := CsvQuote(cmd);
    BodyFits(m, cmd);
    LineParts(Prefix(m), chain, q);
    hide HeadedLine;
    var cut := Prefix(m) + ("," + q);
    assert cut[|cut| - 1] == q[|q| - 1];
    assert cut + "\n" == Prefix(m) + "," + q + "\n";
    assert HeadedLine(m, chain, q) == Prefix(m) + "," + (chain + "," + q) by { HeadedIs(m, chain, q); }
  }

  lemma HeadedIs(m: Meta, chain: string, rest: string)
    ensures HeadedLine(m, chain, rest) == Prefix(m) + "," + (chain + "," + rest)
  {}

  // -------------------------------------------------------- and in accepted logs

  /** A text with something added before its last newline. */
  function Grown(text: string, added: string): string
    requires text != ""
  {
    text[..|text| - 1] + added + "\n"
  }

  /** Exchanging the last line for one with the same reading changes no report. */
  lemma LastLineSwaps(genesis: string, lines: seq<string>, a: string, b: string)
    requires (forall l | l in lines :: FullLine(l)) && FullLine(a) && FullLine(b)
    requires !IsComment(a) && !IsComment(b) && ReadRecord(a) == ReadRecord(b)
    ensures Verify(genesis, Concat(lines) + a) == Verify(genesis, Concat(lines) + b)
  {
    hide ReadRecord, Hash, IsComment, FullLine, VerifyFrom;
    var start := Report(0, 0, 0, 0, genesis, []);
    forall l | l == a || l == b
      ensures VerifyFrom(start, Concat(lines) + l) == VerifyLine(VerifyAll(start, lines), l)
    {
      var ls := lines + [l];
      VerifyByLines(start, ls);
      ConcatAppend(lines, [l]);
      assert Concat([l]) == l + Concat([l][1..]) == l;
      assert ls[..|ls| - 1] == lines && ls[|ls| - 1] == l;
    }
  }

  lemma GrownLine(text: string, head: string, added: string)
    ensures Grown(text + (head + "\n"), added) == text + (head + added + "\n")
  {
    assert (text + (head + "\n"))[..|text + (head + "\n")| - 1] == text + head;
    assert text + head + added + "\n" == text + (head + added + "\n");
  }

  lemma HeadedSplits(m: Meta, chain: string, q: string, tail: string)
    ensures HeadedLine(m, chain, q + tail) == HeadedLine(m, chain, q) + tail
    ensures |HeadedLine(m, chain, q)| == |Prefix(m)| + 2 + |chain| + |q|
  {
    hide Prefix;
  }

  lemma HeadIsPlain(m: Meta, cmd: string, chain: string)
    requires MetaOk(m) && NEWLINE !in cmd && IsHash(chain)
    ensures var head := HeadedLine(m, chain, CsvQuote(cmd));
            head != "" && NEWLINE !in head && |head| < 2550 && !IsComment(head)
  {
    BodyFits(m, cmd);
    HashLength(chain);
    PrefixPlain(m);
    HashFieldOk(chain);
    QuoteLength(cmd, 1);
    assert m.time[0] in m.time && Prefix(m)[0] == m.time[0];
    assert NEWLINE !in CsvQuote(cmd);
    hide Prefix, CsvQuote, IsHash, MetaOk;
  }

  lemma GrownRecord(m: Meta, cmd: string, chain: string, text: string, added: string)
    requires MetaOk(m) && NEWLINE !in cmd && IsHash(chain) && NEWLINE !in added && |added| <= 1500
    ensures var line, grown := WrittenLine(m, cmd, chain), HeadedLine(m, chain, CsvQuote(cmd) + added + "\n");
            && line != "" && Grown(text + line, added) == text + grown
            && FullLine(line) && FullLine(grown) && !IsComment(line) && !IsComment(grown)
  {
    HeadIsPlain(m, cmd, chain);
    hide HeadedLine, CsvQuote, IsHash, MetaOk, Grown;
    var q := CsvQuote(cmd);
    var head := HeadedLine(m, chain, q);
    HeadedSplits(m, chain, q, "\n");
    HeadedSplits(m, chain, q, added + "\n");
    Assoc(q, added, "\n");
    Assoc(head, added, "\n");
    assert (head + "\n")[..|head|] == head;
    assert (head + added + "\n")[..|head + added|] == head + added;
    GrownLine(text, head, added);
  }

  /** The log after one more record, and the same log with something added to that record
      that its reading does not show. */
  lemma GrownLog(genesis: string, log: Log, lines: seq<string>, bodies: seq<string>, m: Meta, cmd: string,
                 added: string)
    requires Honest(genesis, log, lines, bodies) && EventOk(Command(m, cmd)) && !IsBlankCommand(cmd)
    requires NEWLINE !in added && |added| <= 1500
    requires forall chain | IsHash(chain) ::
               ReadRecord(HeadedLine(m, chain, CsvQuote(cmd) + added + "\n")) == ReadRecord(WrittenLine(m, cmd, chain))
    ensures var text := Append(genesis, log, Command(m, cmd)).text;
            && text != "" && Verify(genesis, Grown(text, added)) == Verify(genesis, text)
            && (added != "" ==> Grown(text, added) != text)
  {
    hide ReadRecord, Hash, IsHash, FullLine, IsComment, VerifyAll, SeedAll, HeadedLine, RecordBody, Verify, CsvQuote;
    var chain := Append(genesis, log, Command(m, cmd)).chain;
    HashIsHash(log.chain + RecordBody(m, cmd));
    RecordIsLine(m, cmd, chain);
    GrownRecord(m, cmd, chain, log.text, added);
    LastLineSwaps(genesis, lines, WrittenLine(m, cmd, chain), HeadedLine(m, chain, CsvQuote(cmd) + added + "\n"));
  }

  /** Two different accepted logs with one report: an honest log that ends in a command of
      the greatest length, and the same log with more text in its last line. */
  lemma JunkLogAccepted(genesis: string, events: seq<Event>, m: Meta, cmd: string, junk: string)
    requires IsHash(genesis) && EventOk(Command(m, cmd)) && forall e | e in events :: EventOk(e)
    requires '"' !in cmd && |cmd| >= 2044 && !IsBlankCommand(cmd)
    requires NEWLINE !in junk && 0 < |junk| <= 1500
    ensures var text := AppendAll(genesis, Log("", genesis), events + [Command(m, cmd)]).text;
            && Accepted(Verify(genesis, text)) && text != ""
            && Verify(genesis, Grown(text, junk)) == Verify(genesis, text) && Grown(text, junk) != text
  {
    forall chain | IsHash(chain)
      ensures ReadRecord(HeadedLine(m, chain, CsvQuote(cmd) + junk + "\n")) == ReadRecord(WrittenLine(m, cmd, chain))
    {
      UnchainedJunk(m, cmd, chain, junk);
    }
    GrownRun(genesis, events, m, cmd, junk);
  }

  /** The same for any last command and text behind a NUL. */
  lemma HiddenLogAccepted(genesis: string, events: seq<Event>, m: Meta, cmd: string, junk: string)
    requires IsHash(genesis) && EventOk(Command(m, cmd)) && forall e | e in events :: EventOk(e)
    requires !IsBlankCommand(cmd) && NEWLINE !in junk && |junk| < 1500
    ensures var text := AppendAll(genesis, Log("", genesis), events + [Command(m, cmd)]).text;
            var added := [NUL] + junk;
            && Accepted(Verify(genesis, text)) && text != ""
            && Verify(genesis, Grown(text, added)) == Verify(genesis, text) && Grown(text, added) != text
  {
    forall chain | IsHash(chain)
      ensures ReadRecord(HeadedLine(m, chain, CsvQuote(cmd) + ([NUL] + junk) + "\n")) ==
              ReadRecord(WrittenLine(m, cmd, chain))
    {
      HiddenJunk(m, cmd, chain, junk);
    }
    GrownRun(genesis, events, m, cmd, [NUL] + junk);
  }

  lemma GrownRun(genesis: string, events: seq<Event>, m: Meta, cmd: string, added: string)
    requires IsHash(genesis) && EventOk(Command(m, cmd)) && forall e | e in events :: EventOk(e)
    requires !IsBlankCommand(cmd) && NEWLINE !in added && 0 < |added| <= 1500
    requires forall chain | IsHash(chain) ::
               ReadRecord(HeadedLine(m, chain, CsvQuote(cmd) + added + "\n")) == ReadRecord(WrittenLine(m, cmd, chain))
    ensures var text := AppendAll(genesis, Log("", genesis), events + [Command(m, cmd)]).text;
            && Accepted(Verify(genesis, text)) && text != ""
            && Verify(genesis, Grown(text, added)) == Verify(genesis, text) && Grown(text, added) != text
  {
    hide ReadRecord, Append, IsHash, EventOk, Verify, Accepted, HeadedLine, CsvQuote, WrittenLine, Honest, Grown,
         Bodies;
    var e := Command(m, cmd);
    assert forall d | d in events + [e] :: d in events || d == e;
    HonestLogAccepted(genesis, events + [e]);
    var lines := RunIsHonest(genesis, events);
    AppendAllLast(genesis, Log("", genesis), events, e);
    GrownLog(genesis, AppendAll(genesis, Log("", genesis), events), lines, Bodies(events), m, cmd, added);
  }

  /** A line whose first field has text after its closing quote: the field splitter sees
      one field more than the comma scan does. */
  function ShiftedLine(h: string, z: string): string {
    "\"a\"" + ("b" + "," + ("c" + "," + ("d" + "," + (h + "," + (h + "," + (z + "," + "x\n"))))))
  }

  /** There the stored hash is not the text cut out, which can be anything. */
  lemma QuotedFieldShifts(h: string, z: string)
    requires IsHash(h) && FieldOk(z)
    ensures ReadRecord(ShiftedLine(h, z)) == Some(Reading("\"a\"b,c,d," + h + "," + h + ",x\n", h))
    ensures Middle(ShiftedLine(h, z)) == z
  {
    ShiftedShown(h, z);
    hide Fields, CommaAt, IsHash, FieldOk, Strip, CString;
    var r6 := z + "," + "x\n";
    var r5 := h + "," + r6;
    var r4 := h + "," + r5;
    var r3 := "d" + "," + r4;
    var r2 := "c" + "," + r3;
    LettersOk();
    HashFieldOk(h);
    HashLength(h);
    AfterQuoted("b" + "," + r2, 5);
    FieldStep("b", r2, 7);
    FieldStep("c", r3, 6);
    FieldStep("d", r4, 5);
    FieldStep(h, r5, 4);
    FieldStep(h, r6, 3);
    ShiftedCommas(h, z);
    ShiftedStrip(h, z);
  }

  lemma ShiftedShown(h: string, z: string)
    requires IsHash(h) && FieldOk(z)
    ensures CString(ShiftedLine(h, z)) == ShiftedLine(h, z)
  {
    HashFieldOk(h);
    hide CString, IsHash;
    assert forall c | c in ShiftedLine(h, z) :: c in h || c in z || c in "\"ab,cdx\n";
    CStringWithoutNul(ShiftedLine(h, z));
  }

  lemma LettersOk()
    ensures FieldOk("b") && FieldOk("c") && FieldOk("d")
  {}

  lemma HashLength(h: string)
    requires IsHash(h)
    ensures |h| == HASH_LEN
  {}

  lemma AfterQuoted(rest: string, n: nat)
    requires n > 0 && rest != "" && rest[0] == 'b'
    ensures Fields("\"a\"" + rest, 8) == ["a"] + Fields(rest, 7)
    ensures CommaAt("\"a\"" + rest, n, false) == Shifted(CommaAt(rest, n, false), 3)
  {
    var s, t, u := "\"a\"" + rest, "a\"" + rest, "\"" + rest;
    assert s[0] == '"' && s[1..] == t && t[0] == 'a' && t[1..] == u && u[1..] == rest;
    assert QuotedField(u, FIELD_CAP - 1) == ("", u);
    assert [t[0]] + "" == "a";
    assert FieldAt(s) == ("a", rest);
    assert CommaAt(u, n, true) == After(CommaAt(rest, n, false));
    assert CommaAt(t, n, true) == After(CommaAt(u, n, true));
  }

  lemma ShiftedCommas(h: string, z: string)
    requires IsHash(h) && FieldOk(z)
    ensures CommaAt(ShiftedLine(h, z), 5, false) == Some(2 * HASH_LEN + 10)
    ensures CommaAt(ShiftedLine(h, z), 6, false) == Some(2 * HASH_LEN + 11 + |z|)
  {
    hide CommaAt, IsHash, FieldOk;
    var r6 := z + "," + "x\n";
    var r5 := h + "," + r6;
    var r4 := h + "," + r5;
    var r3 := "d" + "," + r4;
    var r2 := "c" + "," + r3;
    LettersOk();
    HashFieldOk(h);
    HashLength(h);
    AfterQuoted("b" + "," + r2, 5);
    AfterQuoted("b" + "," + r2, 6);
    CommaPastField("b", r2, 5);
    CommaPastField("c", r3, 4);
    CommaPastField("d", r4, 3);
    CommaPastField(h, r5, 2);
    CommaPastField(h, r6, 1);
    CommaPastField("b", r2, 6);
    CommaPastField("c", r3, 5);
    CommaPastField("d", r4, 4);
    CommaPastField(h, r5, 3);
    CommaPastField(h, r6, 2);
    CommaPastField(z, "x\n", 1);
  }

  lemma ShiftedStrip(h: string, z: string)
    requires |h| == HASH_LEN
    ensures Strip(ShiftedLine(h, z), 2 * HASH_LEN + 10, 2 * HASH_LEN + 11 + |z|) ==
            "\"a\"b,c,d," + h + "," + h + ",x\n"
    ensures ShiftedLine(h, z)[2 * HASH_LEN + 11..2 * HASH_LEN + 11 + |z|] == z
  {
    hide Strip;
    var l := ShiftedLine(h, z);
    var head := "\"a\"b,c,d," + h + "," + h;
    assert l == head + ("," + z) + ",x\n";
    assert l[..|head|] == head && l[|head| + 1 + |z|..] == ",x\n";
    ShortStrip(l, |head|, |head| + 1 + |z|);
  }

  lemma ShortStrip(l: string, c4: nat, c5: nat)
    requires c4 <= |l| && c5 <= |l| && l[c5..] == ",x\n" && c4 < 1000
    ensures Strip(l, c4, c5) == l[..c4] + ",x\n"
  {}
}
