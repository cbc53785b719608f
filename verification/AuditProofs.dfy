/** What the audit chain gives: accepted logs are bound to their last hash, honest
    logs are accepted in full across sessions, and quoting can be undone. */
module AuditProofs {
  import opened Text
  import opened Audit
  import Sha256

  // ---------------------------------------------------------- the hash is 64 hex

  lemma {:induction false} DigestLength(h: seq<Sha256.Word>)
    ensures |Sha256.DigestBytes(h)| == 4 * |h|
  {
    hide Sha256.WordBytes;
    if h != [] {
      DigestLength(h[1..]);
      FourBytes(h[0]);
    }
  }

  lemma FourBytes(w: Sha256.Word)
    ensures |Sha256.WordBytes(w)| == 4
  {}

  lemma {:induction false} HexIsHex(bytes: seq<bv8>)
    ensures forall c | c in HexBytes(bytes) :: IsHex(c)
  {
    if bytes != [] {
      HexIsHex(bytes[1..]);
      NibbleIsHex(bytes[0] as nat / 16);
      NibbleIsHex(bytes[0] as nat % 16);
    }
  }

  lemma NibbleIsHex(n: nat)
    requires n < 16
    ensures IsHex(HexNibble(n))
  {}

  lemma HashIsHash(text: string)
    ensures IsHash(Hash(text))
  {
    hide Sha256.HashBlocks, Sha256.Pad, HexBytes, IsHex;
    var h := Sha256.HashBlocks(Sha256.H0, Sha256.Pad(Bytes(text)));
    DigestLength(h);
    HexIsHex(Sha256.Digest(Bytes(text)));
  }

  // -------------------------------------------------------------------- binding

  /** The chain hash after a list of chained texts. */
  function ChainOf(genesis: string, bodies: seq<string>): string {
    if bodies == [] then genesis
    else Hash(ChainOf(genesis, bodies[..|bodies| - 1]) + bodies[|bodies| - 1])
  }

  lemma {:induction false} ChainIsHash(genesis: string, bodies: seq<string>)
    requires IsHash(genesis)
    ensures IsHash(ChainOf(genesis, bodies))
  {
    hide Hash;
    if bodies != [] {
      HashIsHash(ChainOf(genesis, bodies[..|bodies| - 1]) + bodies[|bodies| - 1]);
    }
  }

  predicate AllBytes(bodies: seq<string>) {
    forall b | b in bodies :: AreBytes(b)
  }

  /** What the i-th stored hash is the hash of. */
  function ChainInput(genesis: string, bodies: seq<string>, i: nat): string
    requires i < |bodies|
  {
    ChainOf(genesis, bodies[..i]) + bodies[i]
  }

  /** Two different inputs of SHA-256 with one digest. */
  predicate Collides(x: string, y: string) {
    Bytes(x) != Bytes(y) && Sha256.Digest(Bytes(x)) == Sha256.Digest(Bytes(y))
  }

  /** What two different record lists with one chain value give away: two of their own
      chained inputs collide, or one of these hashes to the genesis. */
  predicate Coincidence(genesis: string, a: seq<string>, b: seq<string>, i: nat, j: nat) {
    || (i < |a| && j < |b| && Collides(ChainInput(genesis, a, i), ChainInput(genesis, b, j)))
    || (i < |a| && Hash(ChainInput(genesis, a, i)) == genesis)
    || (j < |b| && Hash(ChainInput(genesis, b, j)) == genesis)
  }

  lemma {:induction false} HexBytesInjective(a: seq<bv8>, b: seq<bv8>)
    requires HexBytes(a) == HexBytes(b)
    ensures a == b
  {
    assert |HexBytes(a)| == 2 * |a| && |HexBytes(b)| == 2 * |b|;
    if a != [] {
      assert HexBytes(a)[2..] == HexBytes(a[1..]) && HexBytes(b)[2..] == HexBytes(b[1..]);
      assert HexBytes(a)[0] == HexBytes(b)[0] && HexBytes(a)[1] == HexBytes(b)[1];
      HexBytesInjective(a[1..], b[1..]);
      ByteOfNibbles(a[0], b[0]);
      assert a == [a[0]] + a[1..] && b == [b[0]] + b[1..];
    }
  }

  lemma NibbleInjective(m: nat, n: nat)
    requires m < 16 && n < 16 && HexNibble(m) == HexNibble(n)
    ensures m == n
  {}

  lemma ByteOfNibbles(x: bv8, y: bv8)
    requires HexNibble(x as nat / 16) == HexNibble(y as nat / 16)
    requires HexNibble(x as nat % 16) == HexNibble(y as nat % 16)
    ensures x == y
  {
    hide HexNibble;
    NibblesFix(x as nat, y as nat);
    ByteAsNat(x);
    ByteAsNat(y);
  }

  lemma NibblesFix(m: nat, n: nat)
    requires m < 256 && n < 256
    requires HexNibble(m / 16) == HexNibble(n / 16) && HexNibble(m % 16) == HexNibble(n % 16)
    ensures m == n
  {
    NibbleInjective(m / 16, n / 16);
    NibbleInjective(m % 16, n % 16);
  }

  lemma ByteAsNat(x: bv8)
    ensures (x as nat) as bv8 == x
  {}

  /** Different byte texts with one printed hash collide. */
  lemma SameHashCollides(x: string, y: string)
    requires AreBytes(x) && AreBytes(y) && x != y && Hash(x) == Hash(y)
    ensures Collides(x, y)
  {
    hide Sha256.Digest;
    HexBytesInjective(Sha256.Digest(Bytes(x)), Sha256.Digest(Bytes(y)));
    if Bytes(x) == Bytes(y) {
      BytesInjective(x, y);
    }
  }

  lemma HexAreBytes(h: string)
    requires IsHash(h)
    ensures AreBytes(h)
  {}

  lemma InputIsBytes(genesis: string, bodies: seq<string>, i: nat)
    requires IsHash(genesis) && AllBytes(bodies) && i < |bodies|
    ensures AreBytes(ChainInput(genesis, bodies, i)) && |ChainOf(genesis, bodies[..i])| == HASH_LEN
    ensures ChainOf(genesis, bodies[..i + 1]) == Hash(ChainInput(genesis, bodies, i))
  {
    hide Hash, IsHash;
    ChainIsHash(genesis, bodies[..i]);
    HexAreBytes(ChainOf(genesis, bodies[..i]));
    ChainLength(genesis, bodies[..i]);
    assert bodies[i] in bodies;
    assert bodies[..i + 1][..i] == bodies[..i] && bodies[..i + 1][i] == bodies[i];
  }

  /** Either the two record lists are the same, or somewhere in them there is a
      coincidence of hashes, at the returned positions. */
  lemma {:induction false} ChainBinds(genesis: string, a: seq<string>, b: seq<string>) returns (i: nat, j: nat)
    requires IsHash(genesis) && AllBytes(a) && AllBytes(b) && ChainOf(genesis, a) == ChainOf(genesis, b)
    ensures a == b || Coincidence(genesis, a, b, i, j)
    decreases |a|
  {
    hide Hash, IsHash, ChainOf, AreBytes, Collides;
    i, j := |a|, |b|;
    if a == [] && b == [] {
      return;
    }
    assert a[..|a|] == a && b[..|b|] == b && ChainOf(genesis, []) == genesis by { ChainOfNothing(genesis); }
    if a != [] {
      i := |a| - 1;
      InputIsBytes(genesis, a, i);
    }
    if b != [] {
      j := |b| - 1;
      InputIsBytes(genesis, b, j);
    }
    if a != [] && b != [] {
      var x, y := ChainInput(genesis, a, i), ChainInput(genesis, b, j);
      if x != y {
        SameHashCollides(x, y);
      } else {
        var a', b' := a[..i], b[..j];
        assert ChainOf(genesis, a') == x[..HASH_LEN] == y[..HASH_LEN] == ChainOf(genesis, b');
        assert a[i] == x[HASH_LEN..] == y[HASH_LEN..] == b[j];
        assert a == a' + [a[i]] && b == b' + [b[j]];
        i, j := ChainBinds(genesis, a', b');
        CoincidenceLater(genesis, a, b, |a'|, |b'|, i, j);
      }
    }
  }

  lemma ChainOfNothing(genesis: string)
    ensures ChainOf(genesis, []) == genesis
  {}

  lemma CoincidenceLater(genesis: string, a: seq<string>, b: seq<string>, m: nat, n: nat, i: nat, j: nat)
    requires m <= |a| && n <= |b|
    ensures Coincidence(genesis, a[..m], b[..n], i, j) ==> Coincidence(genesis, a, b, i, j)
  {
    hide Hash, ChainOf, Collides;
    assert i < m ==> a[..m][..i] == a[..i];
    assert j < n ==> b[..n][..j] == b[..j];
  }

  lemma ChainLength(genesis: string, bodies: seq<string>)
    requires IsHash(genesis)
    ensures |ChainOf(genesis, bodies)| == HASH_LEN
  {
    ChainIsHash(genesis, bodies);
  }

  /** A report whose accepted records account for its chain value. */
  ghost predicate Chained(genesis: string, r: Report) {
    Accepted(r) ==> r.chain == ChainOf(genesis, r.bodies) && r.ok == r.total == |r.bodies|
  }

  lemma VerifyLineChains(genesis: string, r: Report, line: string)
    requires Chained(genesis, r)
    ensures Chained(genesis, VerifyLine(r, line)) && (Accepted(VerifyLine(r, line)) ==> Accepted(r))
  {
    hide Hash, ReadRecord;
    var rec := ReadRecord(line);
    if rec.Some? {
      var bodies := r.bodies + [rec.value.body];
      assert bodies[..|bodies| - 1] == r.bodies;
    }
  }

  lemma {:induction false} VerifyFromChains(genesis: string, r: Report, text: string)
    requires Chained(genesis, r)
    ensures Chained(genesis, VerifyFrom(r, text))
    decreases |text|
  {
    hide VerifyLine, Chained;
    if text != "" {
      var n := ReadSize(text, LINE_SIZE);
      VerifyLineChains(genesis, r, text[..n]);
      VerifyFromChains(genesis, VerifyLine(r, text[..n]), text[n..]);
    }
  }

  lemma VerifyChains(genesis: string, text: string)
    ensures Chained(genesis, Verify(genesis, text))
  {
    VerifyFromChains(genesis, Report(0, 0, 0, 0, genesis, []), text);
  }

  lemma {:induction false} BodiesAreBytes(r: Report, text: string)
    requires AllBytes(r.bodies) && AreBytes(text)
    ensures AllBytes(VerifyFrom(r, text).bodies)
    decreases |text|
  {
    hide VerifyLine, AreBytes;
    if text != "" {
      var n := ReadSize(text, LINE_SIZE);
      PartsAreBytes(text, n);
      LineBodiesAreBytes(r, text[..n]);
      BodiesAreBytes(VerifyLine(r, text[..n]), text[n..]);
    }
  }

  lemma PartsAreBytes(text: string, n: nat)
    requires AreBytes(text) && n <= |text|
    ensures AreBytes(text[..n]) && AreBytes(text[n..])
  {
    assert forall c | c in text[..n] :: c in text;
    assert forall c | c in text[n..] :: c in text;
  }

  lemma LineBodiesAreBytes(r: Report, line: string)
    requires AllBytes(r.bodies) && AreBytes(line)
    ensures AllBytes(VerifyLine(r, line).bodies)
  {
    hide Hash, ReadRecord, AreBytes, IsComment;
    ReadIsBytes(line);
  }

  lemma ReadIsBytes(line: string)
    requires AreBytes(line)
    ensures ReadRecord(line).Some? ==> AreBytes(ReadRecord(line).value.body)
  {
    var shown := CString(line);
    PartsAreBytes(line, IndexOf(line, NUL));
    hide Fields, CommaAt, IsHash, Strip, AreBytes, CString;
    if ReadRecord(line).Some? {
      StripIsBytes(shown, CommaAt(shown, 5, false).value, CommaAt(shown, 6, false).value);
    }
  }

  lemma StripIsBytes(line: string, c4: nat, c5: nat)
    requires AreBytes(line) && c4 <= |line| && c5 <= |line|
    ensures AreBytes(Strip(line, c4, c5))
  {
    var kept := Take(line[c5..], SUFFIX_CAP);
    PartsAreBytes(line, c4);
    PartsAreBytes(line, c5);
    TakeIsBytes(line[c5..], SUFFIX_CAP);
    JoinIsBytes(line[..c4], kept);
    TakeIsBytes(line[..c4] + kept, LINE_SIZE - 1);
    var body := Take(line[..c4] + kept, LINE_SIZE - 1);
    hide AreBytes;
    assert AreBytes("\n") by { NewlineIsByte(); }
    JoinIsBytes(body, "\n");
  }

  lemma NewlineIsByte()
    ensures AreBytes("\n")
  {}

  lemma TakeIsBytes(s: string, n: nat)
    requires AreBytes(s)
    ensures AreBytes(Take(s, n))
  {
    if n < |s| {
      PartsAreBytes(s, n);
    }
  }

  lemma JoinIsBytes(a: string, b: string)
    requires AreBytes(a) && AreBytes(b)
    ensures AreBytes(a + b)
  {
    assert forall c | c in a + b :: c in a || c in b;
  }

  /** Tamper evidence: two logs the verifier accepts, with the same genesis and the same
      last chain hash, hold the same records, or exhibit a hash coincidence among them. */
  lemma AcceptedLogsBind(genesis: string, text1: string, text2: string) returns (i: nat, j: nat)
    requires IsHash(genesis) && AreBytes(text1) && AreBytes(text2)
    requires Accepted(Verify(genesis, text1)) && Accepted(Verify(genesis, text2))
    requires Verify(genesis, text1).chain == Verify(genesis, text2).chain
    ensures || Verify(genesis, text1).bodies == Verify(genesis, text2).bodies
            || Coincidence(genesis, Verify(genesis, text1).bodies, Verify(genesis, text2).bodies, i, j)
  {
    hide Hash, IsHash, ChainOf, VerifyFrom, AreBytes, Coincidence;
    var start := Report(0, 0, 0, 0, genesis, []);
    VerifyChains(genesis, text1);
    VerifyChains(genesis, text2);
    BodiesAreBytes(start, text1);
    BodiesAreBytes(start, text2);
    i, j := ChainBinds(genesis, Verify(genesis, text1).bodies, Verify(genesis, text2).bodies);
  }

  // ------------------------------------------------------------- honest records

  predicate FieldOk(f: string) {
    forall c | c in f :: c !in {',', '"', NEWLINE, NUL}
  }

  /** Metadata as the logger produces it: C strings; the username has no comma, quote or
      newline. */
  predicate MetaOk(m: Meta) {
    && FieldOk(m.time) && m.time != "" && m.time[0] != '#' && |m.time| < 32
    && FieldOk(m.user) && |m.user| <= 256
    && |Decimal(m.pid)| <= 11 && |Decimal(m.exit)| <= 11
    && IsHash(m.stdoutHash)
  }

  /** Comments: a session marker is one line starting with '#'. */
  predicate MarkerOk(marker: string) {
    |marker| > 1 && marker[0] == '#' && |marker| < LINE_SIZE
    && marker[|marker| - 1] == NEWLINE && NEWLINE !in marker[..|marker| - 1]
  }

  predicate EventOk(e: Event) {
    match e
    case SessionStart(marker) => MarkerOk(marker)
    case Command(m, cmd) => MetaOk(m) && NEWLINE !in cmd && NUL !in cmd
  }

  lemma {:induction false} DigitsOk(n: nat)
    ensures FieldOk(Digits(n))
  {}

  lemma DecimalOk(n: int)
    ensures FieldOk(Decimal(n)) && Decimal(n) != ""
  {
    DigitsOk(if n < 0 then -n else n);
  }

  lemma HashFieldOk(h: string)
    requires IsHash(h)
    ensures FieldOk(h)
  {}

  /** A field without commas, quotes or newlines is passed by the comma scan. */
  lemma {:induction false} CommaPastField(f: string, rest: string, n: nat)
    requires FieldOk(f) && n > 0
    ensures CommaAt(f + "," + rest, n, false) ==
            if n == 1 then Some(|f|) else Shifted(CommaAt(rest, n - 1, false), |f| + 1)
    decreases f
  {
    var s := f + "," + rest;
    if f == "" {
      assert s[0] == ',' && s[1..] == rest;
    } else {
      assert s[0] == f[0] && s[1..] == f[1..] + "," + rest;
      assert f[0] in f && forall c :: c in f[1..] ==> c in f;
      CommaPastField(f[1..], rest, n);
    }
  }

  /** The five fields of the prefix, then the rest of the line. */
  function Line5(m: Meta, rest: string): string {
    m.time + "," + (m.user + "," + (Decimal(m.pid) + "," + (Decimal(m.exit) + "," + (m.stdoutHash + "," + rest))))
  }

  lemma PrefixIsLine5(m: Meta, rest: string)
    ensures Prefix(m) + "," + rest == Line5(m, rest)
  {
    var f2, f3 := Decimal(m.pid), Decimal(m.exit);
    var r4 := m.stdoutHash + "," + rest;
    var r3 := f3 + "," + r4;
    var r2 := f2 + "," + r3;
    var r1 := m.user + "," + r2;
    assert Prefix(m) + "," + rest == m.time + "," + m.user + "," + f2 + "," + f3 + "," + r4;
    assert m.time + "," + m.user + "," + f2 + "," + f3 + "," + r4 == m.time + "," + m.user + "," + f2 + "," + r3;
    assert m.time + "," + m.user + "," + f2 + "," + r3 == m.time + "," + m.user + "," + r2;
    assert m.time + "," + m.user + "," + r2 == m.time + "," + r1;
  }

  lemma FifthComma(m: Meta, rest: string)
    requires MetaOk(m)
    ensures CommaAt(Prefix(m) + "," + rest, 5, false) == Some(|Prefix(m)|)
    ensures CommaAt(Prefix(m) + "," + rest, 6, false) == Shifted(CommaAt(rest, 1, false), |Prefix(m)| + 1)
  {
    hide CommaAt, Decimal, Prefix;
    PrefixIsLine5(m, rest);
    PrefixLength(m);
    DecimalOk(m.pid);
    DecimalOk(m.exit);
    HashFieldOk(m.stdoutHash);
    var r4 := m.stdoutHash + "," + rest;
    var r3 := Decimal(m.exit) + "," + r4;
    var r2 := Decimal(m.pid) + "," + r3;
    var r1 := m.user + "," + r2;
    CommaPastField(m.time, r1, 5);
    CommaPastField(m.user, r2, 4);
    CommaPastField(Decimal(m.pid), r3, 3);
    CommaPastField(Decimal(m.exit), r4, 2);
    CommaPastField(m.stdoutHash, rest, 1);
    CommaPastField(m.time, r1, 6);
    CommaPastField(m.user, r2, 5);
    CommaPastField(Decimal(m.pid), r3, 4);
    CommaPastField(Decimal(m.exit), r4, 3);
    CommaPastField(m.stdoutHash, rest, 2);
  }

  lemma PrefixLength(m: Meta)
    ensures |Prefix(m)| == |m.time| + |m.user| + |Decimal(m.pid)| + |Decimal(m.exit)| + |m.stdoutHash| + 4
  {}

  lemma {:induction false} QuoteLength(cmd: string, i: nat)
    requires 1 <= i <= 2045
    ensures i + |QuoteFrom(cmd, i)| <= 2045
    ensures NEWLINE !in cmd ==> NEWLINE !in QuoteFrom(cmd, i)
    ensures NUL !in cmd ==> NUL !in QuoteFrom(cmd, i)
    decreases cmd
  {
    if cmd != "" && i < 2045 {
      QuoteLength(cmd[1..], if cmd[0] != '"' then i + 1 else if i < 2044 then i + 2 else i);
    }
  }

  /** Bodies of honest records are never truncated. */
  lemma BodyFits(m: Meta, cmd: string)
    requires MetaOk(m)
    ensures RecordBody(m, cmd) == Prefix(m) + "," + CsvQuote(cmd) + "\n"
    ensures |Prefix(m)| < 400 && 2 <= |CsvQuote(cmd)| <= 2046 && CsvQuote(cmd)[|CsvQuote(cmd)| - 1] == '"'
  {
    PrefixLength(m);
    QuoteLength(cmd, 1);
  }

  /** A line with the logger's leading fields and anything after the sixth comma. */
  function HeadedLine(m: Meta, chain: string, rest: string): string {
    Prefix(m) + "," + (chain + "," + rest)
  }

  /** As a C string such a line ends where the rest does. */
  lemma HeadShown(m: Meta, chain: string, rest: string)
    requires MetaOk(m) && IsHash(chain)
    ensures CString(HeadedLine(m, chain, rest)) == HeadedLine(m, chain, CString(rest))
  {
    PrefixPlain(m);
    HashFieldOk(chain);
    hide Prefix, IsHash, MetaOk, CString;
    var head := Prefix(m) + "," + chain + ",";
    assert HeadedLine(m, chain, rest) == head + rest;
    assert HeadedLine(m, chain, CString(rest)) == head + CString(rest);
    CStringOfConcat(head, rest);
  }

  /** The written line: prefix, chain hash, quoted command. */
  function WrittenLine(m: Meta, cmd: string, chain: string): string {
    HeadedLine(m, chain, CsvQuote(cmd) + "\n")
  }

  lemma RecordIsLine(m: Meta, cmd: string, chain: string)
    requires MetaOk(m)
    ensures Record(RecordBody(m, cmd), chain) == WrittenLine(m, cmd, chain)
  {
    hide Prefix, CsvQuote, CommaAt;
    var body := RecordBody(m, cmd);
    var rest := CsvQuote(cmd) + "\n";
    BodyFits(m, cmd);
    PrefixLength(m);
    assert body == Prefix(m) + "," + rest;
    FifthComma(m, rest);
    assert body[..|Prefix(m)|] == Prefix(m) && body[|Prefix(m)|..] == "," + rest;
    assert Prefix(m) + "," + chain + ("," + rest) == WrittenLine(m, cmd, chain);
  }

  lemma SixCommas(m: Meta, chain: string, rest: string)
    requires MetaOk(m) && IsHash(chain)
    ensures CommaAt(HeadedLine(m, chain, rest), 5, false) == Some(|Prefix(m)|)
    ensures CommaAt(HeadedLine(m, chain, rest), 6, false) == Some(|Prefix(m)| + 1 + HASH_LEN)
  {
    hide Prefix, CommaAt;
    FifthComma(m, chain + "," + rest);
    assert chain + ("," + rest) == chain + "," + rest;
    HashFieldOk(chain);
    CommaPastField(chain, rest, 1);
  }

  /** Stripping the hash field undoes inserting it, at every quoted length. */
  lemma StripRecord(m: Meta, cmd: string, chain: string)
    requires MetaOk(m) && IsHash(chain)
    ensures var line := WrittenLine(m, cmd, chain);
            && CommaAt(line, 5, false) == Some(|Prefix(m)|)
            && CommaAt(line, 6, false) == Some(|Prefix(m)| + 1 + HASH_LEN)
            && Strip(line, |Prefix(m)|, |Prefix(m)| + 1 + HASH_LEN) == RecordBody(m, cmd)
  {
    hide Prefix, CsvQuote, CommaAt, Strip, RecordBody;
    SixCommas(m, chain, CsvQuote(cmd) + "\n");
    StripLine(m, cmd, chain);
  }

  lemma StripLine(m: Meta, cmd: string, chain: string)
    requires MetaOk(m) && |chain| == HASH_LEN
    ensures Strip(WrittenLine(m, cmd, chain), |Prefix(m)|, |Prefix(m)| + 1 + HASH_LEN) == RecordBody(m, cmd)
  {
    hide Prefix, CsvQuote, RecordBody;
    var q := CsvQuote(cmd);
    BodyFits(m, cmd);
    StripSuffix(Prefix(m), q);
    assert Prefix(m) + ("," + (q + "\n")) == Prefix(m) + "," + q + "\n";
    hide Take, WrittenLine;
    LineParts(Prefix(m), chain, q + "\n");
    assert WrittenLine(m, cmd, chain) == Prefix(m) + "," + (chain + "," + (q + "\n")) by { LineIs(m, cmd, chain); }
  }

  lemma LineIs(m: Meta, cmd: string, chain: string)
    ensures WrittenLine(m, cmd, chain) == Prefix(m) + "," + (chain + "," + (CsvQuote(cmd) + "\n"))
  {}

  lemma LineParts(prefix: string, chain: string, rest: string)
    ensures var line := prefix + "," + (chain + "," + rest);
            && |prefix| + 1 + |chain| <= |line|
            && line[..|prefix|] == prefix && line[|prefix| + 1 + |chain|..] == "," + rest
  {}

  lemma StripSuffix(prefix: string, quoted: string)
    requires |prefix| < 400 && |quoted| <= 2046 && quoted != "" && quoted[|quoted| - 1] == '"'
    ensures var cut := Take(prefix + Take("," + (quoted + "\n"), SUFFIX_CAP), LINE_SIZE - 1);
            (if cut == "" || cut[|cut| - 1] != NEWLINE then cut + "\n" else cut) == prefix + ("," + (quoted + "\n"))
  {
    var suffix := "," + (quoted + "\n");
    if |suffix| > SUFFIX_CAP {
      assert suffix[..SUFFIX_CAP] == "," + quoted;
      assert prefix + ("," + quoted) + "\n" == prefix + suffix;
    }
  }

  // ---------------------------------------------------------- reading records back

  lemma {:induction false} BareFieldIs(f: string, rest: string, room: nat)
    requires FieldOk(f) && |f| <= room && (rest == "" || rest[0] == ',')
    ensures BareField(f + rest, room) == (f, rest)
    decreases f
  {
    var s := f + rest;
    if f == "" {
      assert s == rest;
    } else {
      assert f[0] in f && forall c :: c in f[1..] ==> c in f;
      assert s[0] == f[0] && s[1..] == f[1..] + rest;
      assert f == [f[0]] + f[1..];
      BareFieldIs(f[1..], rest, room - 1);
    }
  }

  lemma FieldStep(f: string, rest: string, count: nat)
    requires FieldOk(f) && |f| <= FIELD_CAP && count > 0
    ensures Fields(f + "," + rest, count) == [f] + Fields(rest, count - 1)
  {
    hide BareField;
    var s := f + "," + rest;
    assert s == f + ("," + rest);
    BareFieldIs(f, "," + rest, FIELD_CAP);
    if f != "" {
      assert f[0] in f;
    }
    assert ("," + rest)[1..] == rest;
  }

  lemma SixFields(m: Meta, chain: string, rest: string)
    requires MetaOk(m) && IsHash(chain)
    ensures Fields(HeadedLine(m, chain, rest), 8) ==
            [m.time, m.user, Decimal(m.pid), Decimal(m.exit), m.stdoutHash, chain] + Fields(rest, 2)
  {
    hide Fields, Decimal, Prefix;
    PrefixIsLine5(m, chain + "," + rest);
    assert chain + ("," + rest) == chain + "," + rest;
    DecimalOk(m.pid);
    DecimalOk(m.exit);
    HashFieldOk(m.stdoutHash);
    HashFieldOk(chain);
    var r5 := chain + "," + rest;
    var r4 := m.stdoutHash + "," + r5;
    var r3 := Decimal(m.exit) + "," + r4;
    var r2 := Decimal(m.pid) + "," + r3;
    var r1 := m.user + "," + r2;
    FieldStep(m.time, r1, 8);
    FieldStep(m.user, r2, 7);
    FieldStep(Decimal(m.pid), r3, 6);
    FieldStep(Decimal(m.exit), r4, 5);
    FieldStep(m.stdoutHash, r5, 4);
    FieldStep(chain, rest, 3);
  }

  /** The verifier reads an honest line as its chained text and chain hash. */
  lemma ReadsRecord(m: Meta, cmd: string, chain: string)
    requires MetaOk(m) && IsHash(chain) && NUL !in cmd
    ensures ReadRecord(WrittenLine(m, cmd, chain)) == Some(Reading(RecordBody(m, cmd), chain))
  {
    QuoteLength(cmd, 1);
    CStringWithoutNul(CsvQuote(cmd) + "\n");
    HeadShown(m, chain, CsvQuote(cmd) + "\n");
    hide Fields, HeadedLine, CommaAt, Strip, RecordBody, IsHash, CString, CsvQuote;
    SixFields(m, chain, CsvQuote(cmd) + "\n");
    StripRecord(m, cmd, chain);
  }

  /** Doubling every quote, without the buffer limit. */
  function Doubled(cmd: string): string {
    if cmd == "" then ""
    else if cmd[0] == '"' then "\"\"" + Doubled(cmd[1..])
    else [cmd[0]] + Doubled(cmd[1..])
  }

  /** The characters of a command for which the quoting buffer has room. */
  function Kept(cmd: string, i: nat): string
    decreases cmd
  {
    if cmd == "" || i >= 2045 then ""
    else if cmd[0] != '"' then [cmd[0]] + Kept(cmd[1..], i + 1)
    else if i < 2044 then [cmd[0]] + Kept(cmd[1..], i + 2)
    else Kept(cmd[1..], i)
  }

  /** Quoting doubles every quote of what is kept, and that is the whole command exactly
      when it fits. */
  lemma {:induction false} QuoteDoubles(cmd: string, i: nat)
    requires i <= 2045
    ensures QuoteFrom(cmd, i) == Doubled(Kept(cmd, i)) && |Kept(cmd, i)| <= |cmd|
    ensures Kept(cmd, i) == cmd <==> i + |Doubled(cmd)| <= 2045
    ensures |Kept(cmd, i)| == |cmd| <==> i + |Doubled(cmd)| <= 2045
    decreases cmd
  {
    if cmd != "" && i < 2045 {
      var rest := cmd[1..];
      assert cmd == [cmd[0]] + rest;
      if cmd[0] != '"' {
        QuoteDoubles(rest, i + 1);
        KeptHead(cmd[0], Kept(rest, i + 1));
      } else if i < 2044 {
        QuoteDoubles(rest, i + 2);
        KeptHead(cmd[0], Kept(rest, i + 2));
      } else {
        QuoteDoubles(rest, i);
      }
    }
  }

  lemma KeptHead(c: char, kept: string)
    ensures Doubled([c] + kept) == (if c == '"' then "\"\"" else [c]) + Doubled(kept)
    ensures ([c] + kept)[1..] == kept
  {
    assert ([c] + kept)[1..] == kept;
  }

  lemma QuotedStep(c: char, rest: string, room: nat)
    requires room > 0
    ensures var (value, after) := QuotedField(rest, room - 1);
            && QuotedField("\"\"" + rest, room) == ("\"" + value, after)
            && (c != '"' ==> QuotedField([c] + rest, room) == ([c] + value, after))
  {
    assert ("\"\"" + rest)[2..] == rest && ([c] + rest)[1..] == rest;
  }

  lemma {:induction false} QuotedFieldIs(cmd: string, tail: string, room: nat)
    requires |cmd| <= room && (tail == "" || tail[0] != '"')
    ensures QuotedField(Doubled(cmd) + ("\"" + tail), room) == (cmd, "\"" + tail)
    decreases cmd
  {
    var end := "\"" + tail;
    var s := Doubled(cmd) + end;
    if cmd == "" {
      assert s == end;
    } else {
      var rest := Doubled(cmd[1..]) + end;
      QuotedFieldIs(cmd[1..], tail, room - 1);
      hide QuotedField;
      QuotedStep(cmd[0], rest, room);
      assert cmd == [cmd[0]] + cmd[1..];
      if cmd[0] == '"' {
        assert s == "\"\"" + rest;
      } else {
        assert s == [cmd[0]] + rest;
      }
    }
  }

  lemma {:induction false} QuotedFieldLength(s: string, room: nat)
    ensures |QuotedField(s, room).0| <= room
    decreases |s|
  {
    if s != "" && room > 0 {
      if s[0] == '"' && |s| > 1 && s[1] == '"' {
        QuotedFieldLength(s[2..], room - 1);
      } else if s[0] != '"' {
        QuotedFieldLength(s[1..], room - 1);
      }
    }
  }

  /** Reading the command field back gives the command exactly when it is within the
      field of the verifier and fits the quoting buffer. */
  lemma CommandRoundTrip(m: Meta, cmd: string, chain: string)
    requires MetaOk(m) && IsHash(chain)
    ensures |Fields(WrittenLine(m, cmd, chain), 8)| > 6
    ensures Fields(WrittenLine(m, cmd, chain), 8)[6] == cmd <==> |cmd| <= 1023 && |Doubled(cmd)| <= 2044
  {
    QuoteDoubles(cmd, 1);
    var kept := Kept(cmd, 1);
    var inner := Doubled(kept) + ("\"" + "\n");
    SeventhField(m, cmd, chain);
    QuotedFieldLength(inner, FIELD_CAP);
    if |kept| <= FIELD_CAP {
      QuotedFieldIs(kept, "\n", FIELD_CAP);
    }
    hide WrittenLine, Fields, QuotedField, Doubled, Kept;
  }

  lemma SeventhField(m: Meta, cmd: string, chain: string)
    requires MetaOk(m) && IsHash(chain)
    ensures var fs := Fields(WrittenLine(m, cmd, chain), 8);
            |fs| > 6 && fs[6] == QuotedField(Doubled(Kept(cmd, 1)) + ("\"" + "\n"), FIELD_CAP).0
  {
    hide HeadedLine, QuotedField, Doubled, Kept, Decimal;
    SixFields(m, chain, CsvQuote(cmd) + "\n");
    QuoteDoubles(cmd, 1);
    var s := CsvQuote(cmd) + "\n";
    assert s[1..] == Doubled(Kept(cmd, 1)) + ("\"" + "\n");
    assert Fields(s, 2)[0] == FieldAt(s).0;
  }

  // ------------------------------------------------------------- whole log files

  /** A line the log is made of: one newline, at its end, within the read buffer. */
  predicate FullLine(l: string) {
    0 < |l| <= 4095 && l[|l| - 1] == NEWLINE && NEWLINE !in l[..|l| - 1]
  }

  lemma ReadsFullLine(l: string, rest: string)
    requires FullLine(l)
    ensures ReadSize(l + rest, LINE_SIZE) == |l|
  {
    assert (l + rest)[..|l| - 1] == l[..|l| - 1];
    IndexOfIs(l + rest, NEWLINE, |l| - 1);
  }

  function VerifyAll(r: Report, lines: seq<string>): Report {
    if lines == [] then r else VerifyLine(VerifyAll(r, lines[..|lines| - 1]), lines[|lines| - 1])
  }

  lemma VerifyAllCons(r: Report, l: string, lines: seq<string>)
    ensures VerifyAll(VerifyLine(r, l), lines) == VerifyAll(r, [l] + lines)
  {
    hide VerifyLine;
    if lines == [] {
      assert ([l] + lines)[..0] == [];
    } else {
      VerifyAllCons(r, l, lines[..|lines| - 1]);
      assert ([l] + lines)[..|lines|] == [l] + lines[..|lines| - 1];
    }
  }

  lemma {:induction false} VerifyByLines(r: Report, lines: seq<string>)
    requires forall l | l in lines :: FullLine(l)
    ensures VerifyFrom(r, Concat(lines)) == VerifyAll(r, lines)
    decreases lines
  {
    hide VerifyLine, FullLine;
    if lines != [] {
      var l, rest := lines[0], Concat(lines[1..]);
      ReadsFullLine(l, rest);
      assert (l + rest)[..|l|] == l && (l + rest)[|l|..] == rest;
      assert FullLine(l);
      assert |l| > 0 by { FullLineNonEmpty(l); }
      VerifyByLines(VerifyLine(r, l), lines[1..]);
      VerifyAllCons(r, l, lines[1..]);
      assert [l] + lines[1..] == lines;
    }
  }

  lemma FullLineNonEmpty(l: string)
    requires FullLine(l)
    ensures l != ""
  {}

  function SeedLine(chain: string, line: string): string {
    if !IsComment(line) && IsHash(SeedField(line)) then SeedField(line) else chain
  }

  function SeedAll(chain: string, lines: seq<string>): string {
    if lines == [] then chain else SeedLine(SeedAll(chain, lines[..|lines| - 1]), lines[|lines| - 1])
  }

  lemma SeedAllCons(chain: string, l: string, lines: seq<string>)
    ensures SeedAll(SeedLine(chain, l), lines) == SeedAll(chain, [l] + lines)
  {
    hide SeedLine;
    if lines == [] {
      assert ([l] + lines)[..0] == [];
    } else {
      SeedAllCons(chain, l, lines[..|lines| - 1]);
      assert ([l] + lines)[..|lines|] == [l] + lines[..|lines| - 1];
    }
  }

  lemma {:induction false} SeedByLines(chain: string, lines: seq<string>)
    requires forall l | l in lines :: FullLine(l)
    ensures Seed(chain, Concat(lines)) == SeedAll(chain, lines)
    decreases lines
  {
    hide FullLine, SeedField, IsHash, IsComment;
    if lines != [] {
      var l, rest := lines[0], Concat(lines[1..]);
      assert FullLine(l);
      FullLineNonEmpty(l);
      ReadsFullLine(l, rest);
      assert (l + rest)[..|l|] == l && (l + rest)[|l|..] == rest;
      SeedByLines(SeedLine(chain, l), lines[1..]);
      SeedAllCons(chain, l, lines[1..]);
      assert [l] + lines[1..] == lines;
    }
  }

  lemma {:induction false} SeedPastField(f: string, rest: string, n: nat)
    requires FieldOk(f) && n > 0
    ensures SeedStart(f + "," + rest, n, false) == Shifted(SeedStart(rest, n - 1, false), |f| + 1)
    decreases f
  {
    var s := f + "," + rest;
    if f == "" {
      assert s[0] == ',' && s[1..] == rest;
    } else {
      assert s[0] == f[0] && s[1..] == f[1..] + "," + rest;
      assert f[0] in f && forall c :: c in f[1..] ==> c in f;
      SeedPastField(f[1..], rest, n);
    }
  }

  /** A new session finds the chain hash of an honest record. */
  lemma SeedFieldIs(m: Meta, cmd: string, chain: string)
    requires MetaOk(m) && IsHash(chain)
    ensures SeedField(WrittenLine(m, cmd, chain)) == chain
  {
    HeadShown(m, chain, CsvQuote(cmd) + "\n");
    SeedShownIs(m, CString(CsvQuote(cmd) + "\n"), chain);
  }

  lemma SeedShownIs(m: Meta, rest: string, chain: string)
    requires MetaOk(m) && IsHash(chain)
    ensures SeedShown(HeadedLine(m, chain, rest)) == chain
  {
    hide Decimal, Prefix;
    var r5 := chain + "," + rest;
    PrefixIsLine5(m, r5);
    PrefixLength(m);
    assert chain + ("," + rest) == r5;
    DecimalOk(m.pid);
    DecimalOk(m.exit);
    HashFieldOk(m.stdoutHash);
    var r4 := m.stdoutHash + "," + r5;
    var r3 := Decimal(m.exit) + "," + r4;
    var r2 := Decimal(m.pid) + "," + r3;
    var r1 := m.user + "," + r2;
    SeedPastField(m.time, r1, 5);
    SeedPastField(m.user, r2, 4);
    SeedPastField(Decimal(m.pid), r3, 3);
    SeedPastField(Decimal(m.exit), r4, 2);
    SeedPastField(m.stdoutHash, r5, 1);
    assert SeedStart(r5, 0, false) == Some(0);
    var line := HeadedLine(m, chain, rest);
    assert line[|Prefix(m)| + 1..] == r5;
    CutOutField(chain, rest);
  }

  lemma CutOutField(f: string, rest: string)
    requires IsHash(f)
    ensures Take(CutAt(CutAt(f + "," + rest, NEWLINE), ','), HASH_LEN) == f
  {
    HashFieldOk(f);
    var head := f + ",";
    var cut := rest[..IndexOf(rest, NEWLINE)];
    IndexOfAfter(head, rest, NEWLINE);
    assert CutAt(head + rest, NEWLINE) == head + cut;
    IndexOfAfter(f, "," + cut, ',');
    assert head + cut == f + ("," + cut);
    assert CutAt(head + cut, ',') == f;
  }

  // ----------------------------------------------------------------- whole runs

  /** The chained texts of the commands that are logged. */
  function Bodies(events: seq<Event>): seq<string> {
    if events == [] then []
    else
      var e := events[|events| - 1];
      Bodies(events[..|events| - 1]) +
      (if e.Command? && !IsBlankCommand(e.cmd) then [RecordBody(e.m, e.cmd)] else [])
  }

  lemma {:induction false} AppendAllLast(genesis: string, log: Log, events: seq<Event>, e: Event)
    ensures AppendAll(genesis, log, events + [e]) == Append(genesis, AppendAll(genesis, log, events), e)
    decreases events
  {
    hide Append;
    if events == [] {
      assert (events + [e])[1..] == [];
    } else {
      assert (events + [e])[1..] == events[1..] + [e];
      AppendAllLast(genesis, Append(genesis, log, events[0]), events[1..], e);
    }
  }

  lemma WrittenIsFullLine(m: Meta, cmd: string, chain: string)
    requires MetaOk(m) && NEWLINE !in cmd && IsHash(chain)
    ensures FullLine(WrittenLine(m, cmd, chain)) && !IsComment(WrittenLine(m, cmd, chain))
  {
    var line := WrittenLine(m, cmd, chain);
    BodyFits(m, cmd);
    PrefixPlain(m);
    HashFieldOk(chain);
    QuoteLength(cmd, 1);
    assert line[..|line| - 1] == Prefix(m) + "," + chain + "," + CsvQuote(cmd);
    assert m.time[0] in m.time && line[0] == m.time[0];
  }

  lemma PrefixPlain(m: Meta)
    requires MetaOk(m)
    ensures NEWLINE !in Prefix(m) && NUL !in Prefix(m)
  {
    DecimalOk(m.pid);
    DecimalOk(m.exit);
    HashFieldOk(m.stdoutHash);
  }

  const EMPTY := Report(0, 0, 0, 0, "", [])

  /** The log file seen as lines, with what its reader knows of it. */
  ghost predicate Honest(genesis: string, log: Log, lines: seq<string>, bodies: seq<string>) {
    && log.text == Concat(lines) && IsHash(log.chain)
    && (forall l | l in lines :: FullLine(l))
    && VerifyAll(EMPTY.(chain := genesis), lines) == Report(|bodies|, |bodies|, 0, 0, log.chain, bodies)
    && SeedAll(genesis, lines) == log.chain
  }

  lemma AppendLine(genesis: string, log: Log, lines: seq<string>, bodies: seq<string>,
                   line: string, log': Log, bodies': seq<string>)
    requires Honest(genesis, log, lines, bodies) && FullLine(line) && IsHash(log'.chain)
    requires log'.text == log.text + line
    requires VerifyLine(Report(|bodies|, |bodies|, 0, 0, log.chain, bodies), line) ==
             Report(|bodies'|, |bodies'|, 0, 0, log'.chain, bodies')
    requires SeedLine(log.chain, line) == log'.chain
    ensures Honest(genesis, log', lines + [line], bodies')
  {
    hide VerifyLine, SeedLine, FullLine, IsHash;
    var ls := lines + [line];
    assert ls[..|ls| - 1] == lines;
    ConcatAppend(lines, [line]);
    assert Concat([line]) == line + Concat([line][1..]) == line;
  }

  lemma StepIsHonest(genesis: string, log: Log, lines: seq<string>, bodies: seq<string>, e: Event)
    returns (lines': seq<string>)
    requires IsHash(genesis) && Honest(genesis, log, lines, bodies) && EventOk(e)
    ensures Honest(genesis, Append(genesis, log, e), lines',
                   bodies + (if e.Command? && !IsBlankCommand(e.cmd) then [RecordBody(e.m, e.cmd)] else []))
  {
    hide VerifyAll, SeedAll, Hash, IsHash, SeedField, RecordBody;
    var log' := Append(genesis, log, e);
    match e
    case SessionStart(marker) =>
      SeedByLines(genesis, lines);
      assert bodies + [] == bodies;
      AppendLine(genesis, log, lines, bodies, marker, log', bodies);
      lines' := lines + [marker];
    case Command(m, cmd) =>
      if IsBlankCommand(cmd) {
        assert bodies + [] == bodies;
        lines' := lines;
      } else {
        var body := RecordBody(m, cmd);
        var line := WrittenLine(m, cmd, log'.chain);
        HashIsHash(log.chain + body);
        RecordIsLine(m, cmd, log'.chain);
        WrittenIsFullLine(m, cmd, log'.chain);
        ReadsRecord(m, cmd, log'.chain);
        SeedFieldIs(m, cmd, log'.chain);
        AppendLine(genesis, log, lines, bodies, line, log', bodies + [body]);
        lines' := lines + [line];
      }
  }

  lemma {:induction false} RunIsHonest(genesis: string, events: seq<Event>) returns (lines: seq<string>)
    requires IsHash(genesis) && forall e | e in events :: EventOk(e)
    ensures Honest(genesis, AppendAll(genesis, Log("", genesis), events), lines, Bodies(events))
    decreases |events|
  {
    hide Append, IsHash, EventOk;
    if events == [] {
      lines := [];
    } else {
      var init, e := events[..|events| - 1], events[|events| - 1];
      assert events == init + [e];
      var lines0 := RunIsHonest(genesis, init);
      AppendAllLast(genesis, Log("", genesis), init, e);
      lines := StepIsHonest(genesis, AppendAll(genesis, Log("", genesis), init), lines0, Bodies(init), e);
    }
  }

  /** Any number of sessions, any newline-free commands: the verifier accepts every
      record, reads back exactly the chained texts, ends on the chain hash held in
      memory, and the next session starts from it. */
  lemma HonestLogAccepted(genesis: string, events: seq<Event>)
    requires IsHash(genesis) && forall e | e in events :: EventOk(e)
    ensures var log := AppendAll(genesis, Log("", genesis), events);
            var r := Verify(genesis, log.text);
            && Accepted(r) && r.bodies == Bodies(events) && r.total == r.ok == |Bodies(events)|
            && r.chain == log.chain == Seed(genesis, log.text)
  {
    hide Append, IsHash, EventOk, FullLine, Seed, VerifyFrom, VerifyAll, SeedAll;
    var lines := RunIsHonest(genesis, events);
    VerifyByLines(EMPTY.(chain := genesis), lines);
    SeedByLines(genesis, lines);
  }
}
