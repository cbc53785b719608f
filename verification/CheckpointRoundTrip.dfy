/** Restoring a written checkpoint gives the saved state back, and a cut, extended
    or damaged file is refused. */
module CheckpointRoundTrip {
  import opened Text
  import opened Checkpoint
  import Crc32

  // ------------------------------------------------------- the checksum mark

  predicate EndsLine(body: string) {
    body != "" && body[|body| - 1] == NEWLINE
  }

  /** The mark is a newline followed by the tag, and holds no other newline. */
  lemma MarkShape()
    ensures |CHECK_MARK| == 10 && CHECK_MARK[0] == NEWLINE && CHECK_MARK[1..] == CHECK_TAG
    ensures NEWLINE !in CHECK_TAG && CHECK_TAG[0] == 'C' && CHECK_TAG[1] == 'H'
  {}

  lemma MarkAt(text: string, i: nat)
    ensures OccursAt(text, CHECK_MARK, i) <==> i < |text| && text[i] == NEWLINE && CHECK_TAG <= text[i + 1..]
  {
    MarkShape();
    if i + 10 <= |text| {
      assert text[i..i + 10] == [text[i]] + text[i + 1..][..9];
      assert CHECK_MARK == [NEWLINE] + CHECK_TAG;
      if text[i..i + 10] == CHECK_MARK {
        assert text[i..i + 10][0] == text[i];
        assert text[i + 1..][..9] == text[i..i + 10][1..];
      }
    }
  }

  /** A body without the mark, and then the footer: the mark is found at the seam. */
  lemma FindMark(body: string, footer: string)
    requires EndsLine(body) && !Occurs(body, CHECK_MARK) && CHECK_TAG <= footer
    ensures Find(body + footer, CHECK_MARK) == Some(|body| - 1)
  {
    var text := body + footer;
    assert text[|body| - 1..|body| + 9] == [NEWLINE] + footer[..9] == CHECK_MARK;
    assert OccursAt(text, CHECK_MARK, |body| - 1);
    var v := Find(text, CHECK_MARK).value;
    if v < |body| - 1 {
      MarkNotInBody(body, footer, v);
    }
  }

  lemma MarkNotInBody(body: string, footer: string, i: nat)
    requires EndsLine(body) && !Occurs(body, CHECK_MARK) && i < |body| - 1
    ensures !OccursAt(body + footer, CHECK_MARK, i)
  {
    var text := body + footer;
    MarkAt(text, i);
    MarkAt(body, i);
    assert !OccursAt(body, CHECK_MARK, i);
    MarkShape();
    if i + 10 <= |body| {
      assert text[i + 1..][..9] == body[i + 1..][..9];
    } else {
      assert text[i + 1..][|body| - 2 - i] == NEWLINE;
      PrefixDiffers(CHECK_TAG, text[i + 1..], |body| - 2 - i);
    }
  }

  predicate Plain(t: string) {
    NEWLINE !in t && NUL !in t
  }

  lemma PrefixDiffers(pat: string, text: string, j: nat)
    requires j < |pat| && j < |text| && pat[j] != text[j]
    ensures !(pat <= text)
  {}

  /** The start of the checksum tag that no line of a body has. */
  const NEAR_TAG: string := "CHECK"

  lemma NearShape()
    ensures |NEAR_TAG| == 5 && NEWLINE !in NEAR_TAG && CHECK_TAG[..5] == NEAR_TAG
  {}

  lemma PrefixOfLine(tag: string, line: string, rest: string)
    requires NEWLINE !in tag && !(tag <= line)
    ensures !(tag <= line + ([NEWLINE] + rest))
  {
    var text := line + ([NEWLINE] + rest);
    if |line| >= |tag| {
      assert text[..|tag|] == line[..|tag|];
    } else {
      assert text[|line|] == NEWLINE && tag[|line|] in tag;
      PrefixDiffers(tag, text, |line|);
    }
  }

  lemma TagAt(text: string, tag: string, i: nat)
    ensures OccursAt(text, [NEWLINE] + tag, i) <==> i < |text| && text[i] == NEWLINE && tag <= text[i + 1..]
  {
    var n := |tag|;
    if i + 1 + n <= |text| {
      assert text[i..i + 1 + n] == [text[i]] + text[i + 1..][..n];
      if text[i..i + 1 + n] == [NEWLINE] + tag {
        assert text[i..i + 1 + n][0] == text[i];
        assert text[i + 1..][..n] == text[i..i + 1 + n][1..] == tag;
      }
    }
  }

  /** Lines that neither break nor start with a tag hide no line start with it. */
  lemma {:induction false} LinesHideNoMark(lines: seq<string>, tag: string, i: nat)
    requires tag != "" && NEWLINE !in tag && forall l :: l in lines ==> NEWLINE !in l && !(tag <= l)
    ensures !OccursAt(Unlines(lines), [NEWLINE] + tag, i)
  {
    var text := Unlines(lines);
    TagAt(text, tag, i);
    if lines != [] {
      var l, rest := lines[0], Unlines(lines[1..]);
      assert text == l + ([NEWLINE] + rest);
      if i < |l| {
        assert text[i] in l;
      } else if i == |l| {
        assert text[i + 1..] == rest;
        if |lines| > 1 {
          assert lines[1] in lines && rest == lines[1] + ([NEWLINE] + Unlines(lines[2..]));
          PrefixOfLine(tag, lines[1], Unlines(lines[2..]));
        }
      } else if i < |text| {
        LinesHideNoMark(lines[1..], tag, i - |l| - 1);
        TagAt(rest, tag, i - |l| - 1);
        assert text[i + 1..] == rest[i - |l|..];
      }
    }
  }

  lemma TagOfCheck(line: string)
    requires CHECK_TAG <= line
    ensures TagOf(line) == CheckTag
  {
    assert line[0] == 'C' && line[1] == 'H';
    assert "TIMESTAMP="[0] == 'T' && "PID="[0] == 'P' && "CWD="[1] == 'W' && "ENV="[0] == 'E';
    assert "ALIAS="[0] == 'A' && "JOB="[0] == 'J';
  }

  // ------------------------------------------------------------ hex checksum

  function Pow16(n: nat): nat {
    if n == 0 then 1 else 16 * Pow16(n - 1)
  }

  function OrZero(v: Option<nat>): nat {
    if v.Some? then v.value else 0
  }

  lemma HexDigitValue(d: nat)
    requires d < 16
    ensures IsHex(HexDigit(d)) && HexValue(HexDigit(d)) == d
    ensures !IsSpace(HexDigit(d)) && HexDigit(d) !in {'x', 'X', '-', '+', NEWLINE, NUL}
  {}

  lemma {:induction false} HexIsHex(n: nat, width: nat)
    ensures forall c :: c in Hex(n, width) ==> IsHex(c) && !IsSpace(c) && c !in {'x', 'X', '-', '+', NEWLINE, NUL}
  {
    if width > 0 {
      HexIsHex(n / 16, width - 1);
      HexDigitValue(n % 16);
    }
  }

  lemma {:induction false} ScanAppend(a: string, c: char, rest: string, acc: Option<nat>)
    requires IsHex(c) && forall d :: d in a ==> IsHex(d)
    ensures ScanDigits(a + [c] + rest, |a| + 1, acc) ==
            Some(16 * OrZero(ScanDigits(a + [c] + rest, |a|, acc)) + HexValue(c))
    decreases a
  {
    var s := a + [c] + rest;
    if a == "" {
      assert s[0] == c;
      assert ScanDigits(s[1..], 0, Some(16 * OrZero(acc) + HexValue(c))) == Some(16 * OrZero(acc) + HexValue(c));
    } else {
      assert s[1..] == a[1..] + [c] + rest && s[0] == a[0];
      ScanAppend(a[1..], c, rest, Some(16 * OrZero(acc) + HexValue(a[0])));
    }
  }

  lemma {:induction false} ScanDigitsOfHex(n: nat, width: nat, rest: string)
    requires n < Pow16(width)
    ensures OrZero(ScanDigits(Hex(n, width) + rest, width, None)) == n
    ensures width > 0 ==> ScanDigits(Hex(n, width) + rest, width, None).Some?
  {
    if width > 0 {
      var a, c := Hex(n / 16, width - 1), HexDigit(n % 16);
      HexIsHex(n / 16, width - 1);
      HexDigitValue(n % 16);
      ScanDigitsOfHex(n / 16, width - 1, [c] + rest);
      assert a + ([c] + rest) == a + [c] + rest;
      ScanAppend(a, c, rest, None);
    }
  }

  lemma ScanHexOfHex(n: nat, rest: string)
    requires n < 0x1_0000_0000
    ensures ScanHex(Hex(n, 8) + rest) == Some(n)
  {
    var t := Hex(n, 8) + rest;
    HexIsHex(n, 8);
    assert t[0] in Hex(n, 8) && t[1] in Hex(n, 8);
    assert SkipSpace(t) == t;
    assert Pow16(8) == 0x1_0000_0000;
    ScanDigitsOfHex(n, 8, rest);
  }

  /** A sign counts as one of the eight characters, and a minus gives the complement. */
  lemma ScanSignedHex(n: nat, rest: string)
    requires n < 0x1000_0000
    ensures ScanHex("+" + (Hex(n, 7) + rest)) == Some(n)
    ensures ScanHex("-" + (Hex(n, 7) + rest)) == Some((0 - n as int) % 0x1_0000_0000)
  {
    SignedDigits("+", n, rest);
    SignedDigits("-", n, rest);
    hide ScanDigits, Hex, SkipSpace;
  }

  lemma SignedDigits(sign: string, n: nat, rest: string)
    requires n < 0x1000_0000 && (sign == "+" || sign == "-")
    ensures var t := sign + (Hex(n, 7) + rest);
            && SkipSpace(t) == t && |t| > 2 && IsHex(t[2])
            && ScanDigits(t[1..], 7, None) == Some(n)
  {
    var u := Hex(n, 7) + rest;
    var t := sign + u;
    HexIsHex(n, 7);
    assert t[2] == u[1] && u[1] in Hex(n, 7) && t[1..] == u;
    assert Pow16(7) == 0x1000_0000;
    ScanDigitsOfHex(n, 7, rest);
    hide ScanDigits, Hex;
  }

  /** A prefix counts as two. */
  lemma ScanPrefixedHex(n: nat, x: char, rest: string)
    requires n < 0x100_0000 && (x == 'x' || x == 'X')
    ensures ScanHex(['0', x] + (Hex(n, 6) + rest)) == Some(n)
  {
    var u := Hex(n, 6) + rest;
    var t := ['0', x] + u;
    HexIsHex(n, 6);
    assert u[0] in Hex(n, 6);
    assert SkipSpace(t) == t && t[2] == u[0] && t[2..] == u;
    assert Pow16(6) == 0x100_0000;
    ScanDigitsOfHex(n, 6, rest);
    FromZero(u, 6);
    hide ScanDigits, Hex;
  }

  lemma FromZero(s: string, width: nat)
    requires width > 0 && s != "" && IsHex(s[0])
    ensures ScanDigits(s, width, Some(0)) == ScanDigits(s, width, None)
  {}

  // --------------------------------------------------------- intact and damaged

  /** The writer's own text contains no NUL and no early mark. */
  ghost predicate Clean(body: string) {
    NUL !in body && !Occurs(body, CHECK_MARK)
  }

  lemma BodyEndsLine(s: Snapshot)
    ensures EndsLine(Body(s))
  {
    var lines := BodyLines(s);
    assert lines[0] == MAGIC;
    UnlinesEndsLine(lines);
  }

  lemma {:induction false} UnlinesEndsLine(lines: seq<string>)
    requires lines != []
    ensures EndsLine(Unlines(lines))
  {
    if |lines| > 1 {
      UnlinesEndsLine(lines[1..]);
    }
  }

  lemma FooterShape(body: string)
    ensures CHECK_TAG <= Footer(body) && |Footer(body)| == 18
    ensures NUL !in Footer(body) && IndexOf(Footer(body), NEWLINE) == 17
    ensures Footer(body)[9..] == Hex(Checksum(body), 8) + [NEWLINE]
  {
    HexIsHex(Checksum(body), 8);
    assert Footer(body)[..9] == CHECK_TAG;
    assert Footer(body)[..17] == CHECK_TAG + Hex(Checksum(body), 8);
    assert forall c :: c in CHECK_TAG ==> c != NEWLINE && c != NUL;
    IndexOfIs(Footer(body), NEWLINE, 17);
  }

  /** A complete file passes the checksum test. */
  lemma CompleteIsIntact(body: string)
    requires EndsLine(body) && Clean(body) && |body + Footer(body)| <= READ_CAP
    ensures Intact(body + Footer(body)) && CString(body + Footer(body)) == body + Footer(body)
  {
    var text := body + Footer(body);
    FooterShape(body);
    CStringWithoutNul(text);
    FindMark(body, Footer(body));
    assert text[|body|..] == Footer(body) && text[..|body|] == body;
    ScanHexOfHex(Checksum(body), [NEWLINE]);
    assert Footer(body)[18..] == "";
  }

  /** Every strict prefix of a complete file fails it, whatever the checksum. */
  lemma StrictPrefixNotIntact(body: string, k: nat)
    requires EndsLine(body) && Clean(body) && k < |body + Footer(body)|
    ensures !Intact((body + Footer(body))[..k])
  {
    var cut := (body + Footer(body))[..k];
    FooterShape(body);
    assert forall c :: c in cut ==> c in body + Footer(body);
    CStringWithoutNul(cut);
    var mark := Find(cut, CHECK_MARK);
    if mark.Some? {
      NoLineEndAfterMark(body, k, mark.value);
    }
  }

  lemma CutBehind(body: string, f: string, k: nat, i: nat)
    requires |body| <= i <= k <= |body + f|
    ensures (body + f)[..k][i..] == f[i - |body|..k - |body|]
  {}

  lemma NoLineEndAfterMark(body: string, k: nat, i: nat)
    requires EndsLine(body) && Clean(body) && k < |body + Footer(body)|
    requires OccursAt((body + Footer(body))[..k], CHECK_MARK, i)
    ensures var footer := (body + Footer(body))[..k][i + 1..];
            IndexOf(footer, NEWLINE) == |footer|
  {
    hide Checksum, Hex, Find;
    var text := body + Footer(body);
    assert text[i..i + 10] == text[..k][i..i + 10];
    if i < |body| - 1 {
      MarkNotInBody(body, Footer(body), i);
    }
    FooterShape(body);
    hide Footer;
    var footer := text[..k][i + 1..];
    CutBehind(body, Footer(body), k, i + 1);
    assert forall j :: 0 <= j < |footer| ==> footer[j] == Footer(body)[..17][i + 1 - |body| + j];
    IndexOfIs(footer, NEWLINE, |footer|);
  }

  /** With anything added after the checksum line, a file within the size limit passes just
      when the addition shows as blank lines: the test reads it as a C string. */
  lemma TrailingIntactIff(body: string, extra: string)
    requires EndsLine(body) && Clean(body)
    ensures Intact(body + Footer(body) + extra) <==>
            |body + Footer(body) + extra| <= 0x80_0000 && SkipBlankLines(CString(extra)) == ""
    ensures CString(body + Footer(body) + extra) == body + Footer(body) + CString(extra)
  {
    hide Intact, Checksum, Hex, ScanHex;
    var file := body + Footer(body) + extra;
    var seen := Footer(body) + CString(extra);
    FooterShape(body);
    CStringOfConcat(body + Footer(body), extra);
    assert CString(file) == body + seen;
    assert seen[..9] == Footer(body)[..9];
    assert seen[..17] == Footer(body)[..17] && seen[17] == NEWLINE;
    IndexOfIs(seen, NEWLINE, 17);
    assert seen[18..] == CString(extra);
    if SkipBlankLines(CString(extra)) != "" {
      NotIntactWithTail(file, body, seen);
    } else {
      assert seen[9..] == Hex(Checksum(body), 8) + ([NEWLINE] + CString(extra));
      ScanHexOfHex(Checksum(body), [NEWLINE] + CString(extra));
      IntactWithTail(file, body, seen);
    }
  }

  lemma IntactWithTail(file: string, body: string, seen: string)
    requires EndsLine(body) && Clean(body) && CString(file) == body + seen && CHECK_TAG <= seen
    requires var eol := IndexOf(seen, NEWLINE); eol < |seen| && SkipBlankLines(seen[eol + 1..]) == ""
    requires ScanHex(seen[9..]) == Some(Checksum(body))
    ensures Intact(file) <==> |file| <= 0x80_0000
  {
    hide Checksum, ScanHex, CString;
    FindMark(body, seen);
    assert (body + seen)[|body|..] == seen && (body + seen)[..|body|] == body;
    assert file != "" by { EmptyCString(); }
  }

  lemma EmptyCString()
    ensures CString("") == ""
  {}

  lemma NotIntactWithTail(file: string, body: string, seen: string)
    requires EndsLine(body) && Clean(body) && CString(file) == body + seen && CHECK_TAG <= seen
    requires var eol := IndexOf(seen, NEWLINE); eol < |seen| && SkipBlankLines(seen[eol + 1..]) != ""
    ensures !Intact(file)
  {
    hide Checksum, ScanHex, CString;
    FindMark(body, seen);
    assert (body + seen)[|body|..] == seen;
  }

  /** No line of the body starts like the checksum line. */
  ghost predicate FarFromMark(body: string) {
    NUL !in body && !Occurs(body, [NEWLINE] + NEAR_TAG)
  }

  /** Where a mark stands, its first characters stand. */
  lemma MarkIsNear(text: string, i: nat)
    requires OccursAt(text, CHECK_MARK, i)
    ensures OccursAt(text, [NEWLINE] + NEAR_TAG, i)
  {
    MarkAt(text, i);
    TagAt(text, NEAR_TAG, i);
    NearShape();
  }

  lemma FarIsClean(body: string)
    requires FarFromMark(body)
    ensures Clean(body)
  {
    forall i: nat
      ensures !OccursAt(body, CHECK_MARK, i)
    {
      if OccursAt(body, CHECK_MARK, i) {
        MarkIsNear(body, i);
      }
    }
  }

  /** Damage within four bytes that leaves six before it alone makes no mark there. */
  lemma NoMarkBefore(body: string, damaged: string, q: nat, i: nat)
    requires FarFromMark(body) && |body| == |damaged| && q + 6 <= i && q + 6 <= |body|
    requires forall k :: 0 <= k < i && k < |body| ==> body[k] == damaged[k]
    ensures !OccursAt(damaged, CHECK_MARK, q)
  {
    if OccursAt(damaged, CHECK_MARK, q) {
      MarkIsNear(damaged, q);
      assert |[NEWLINE] + NEAR_TAG| == 6;
      assert body[q..q + 6] == damaged[q..q + 6];
      assert OccursAt(body, [NEWLINE] + NEAR_TAG, q);
    }
  }

  lemma {:induction false} BlankLinesOnly(s: string)
    requires SkipBlankLines(s) == ""
    ensures forall c | c in s :: c == NEWLINE || c == '\r'
  {
    if s != "" {
      BlankLinesOnly(s[1..]);
      assert s == [s[0]] + s[1..];
    }
  }

  /** A mark does not straddle the seam: the tag does not overlap itself. */
  lemma NoStraddle(damaged: string, footer: string, q: nat)
    requires CHECK_TAG <= footer && q + 1 < |damaged| < q + 10
    ensures !OccursAt(damaged + footer, CHECK_MARK, q)
  {
    var text := damaged + footer;
    MarkAt(text, q);
    var j := |damaged| - (q + 1);
    var k := if j == 3 then 4 else j;
    var after := text[q + 1..];
    assert CHECK_TAG[0] == 'C' && CHECK_TAG[1] == 'H' && CHECK_TAG[4] == 'K';
    assert after[k] == footer[k - j] == CHECK_TAG[k - j];
    assert j != 3 ==> CHECK_TAG[j] != 'C';
    PrefixDiffers(CHECK_TAG, after, k);
  }

  lemma NoMarkInFooter(damaged: string, footer: string, q: nat)
    requires |footer| == 18 && IndexOf(footer, NEWLINE) == 17 && |damaged| <= q
    ensures !OccursAt(damaged + footer, CHECK_MARK, q)
  {
    var text := damaged + footer;
    MarkAt(text, q);
    if q < |damaged| + 17 {
      assert text[q] == footer[q - |damaged|] && footer[q - |damaged|] in footer[..17];
    }
  }

  lemma NoMarkFarBack(body: string, damaged: string, footer: string, q: nat, i: nat)
    requires FarFromMark(body) && |body| == |damaged| && q + 6 <= i && q + 10 <= |damaged|
    requires forall k :: 0 <= k < i && k < |body| ==> body[k] == damaged[k]
    ensures !OccursAt(damaged + footer, CHECK_MARK, q)
  {
    NoMarkBefore(body, damaged, q, i);
    MarkShape();
    assert (damaged + footer)[q..q + 10] == damaged[q..q + 10];
  }

  /** A mark before the damaged body's last character: either the real checksum line is
      content after it, or the final newline is lost and the mark is too far back. */
  lemma EarlyMark(body: string, damaged: string, i: nat, q: nat)
    requires EndsLine(body) && FarFromMark(body) && |body| == |damaged| && q + 1 < |damaged|
    requires forall k :: 0 <= k < |body| && !(i <= k < i + 4) ==> body[k] == damaged[k]
    requires OccursAt(damaged + Footer(body), CHECK_MARK, q)
    ensures var footer := (damaged + Footer(body))[q + 1..];
            var eol := IndexOf(footer, NEWLINE);
            eol < |footer| && SkipBlankLines(footer[eol + 1..]) != ""
  {
    FooterShape(body);
    hide Checksum, Hex, Footer, FarFromMark, SkipBlankLines;
    if |damaged| < q + 10 {
      NoStraddle(damaged, Footer(body), q);
    } else if q + 6 <= i {
      NoMarkFarBack(body, damaged, Footer(body), q, i);
    } else {
      RealLineTrails(damaged, Footer(body), q);
    }
  }

  /** A newline of the body after the mark leaves the real checksum line behind it. */
  lemma RealLineTrails(damaged: string, footer: string, q: nat)
    requires EndsLine(damaged) && q + 1 < |damaged| && CHECK_TAG <= footer
    ensures var after := (damaged + footer)[q + 1..];
            var eol := IndexOf(after, NEWLINE);
            eol < |after| && SkipBlankLines(after[eol + 1..]) != ""
  {
    var after := (damaged + footer)[q + 1..];
    var at := |damaged| - (q + 1);
    assert after[at - 1] == damaged[|damaged| - 1] == NEWLINE && after[at] == footer[0] == CHECK_TAG[0] == 'C';
    IndexOfBefore(after, NEWLINE, at - 1);
    var rest := after[IndexOf(after, NEWLINE) + 1..];
    assert rest[at - (IndexOf(after, NEWLINE) + 1)] == 'C' && 'C' in rest;
    if SkipBlankLines(rest) == "" {
      BlankLinesOnly(rest);
    }
  }

  /** Damage within four consecutive bytes of the body fails it as well, whatever the
      bytes become: NULs, early marks and a lost final newline included. */
  lemma BurstNotIntact(body: string, damaged: string, i: nat)
    requires EndsLine(body) && FarFromMark(body) && |body| == |damaged| && body != damaged
    requires AreBytes(body) && AreBytes(damaged)
    requires forall k :: 0 <= k < |body| && !(i <= k < i + 4) ==> body[k] == damaged[k]
    ensures !Intact(damaged + Footer(body))
  {
    hide Checksum, Hex, Footer, ScanHex, FarFromMark, CString, SkipBlankLines, AreBytes, EndsLine;
    var text := damaged + Footer(body);
    FooterShape(body);
    if NUL in damaged {
      BurstWithNul(body, damaged, i);
    } else {
      CStringWithoutNul(text);
      var mark := Find(text, CHECK_MARK);
      if mark.Some? && mark.value + 1 < |damaged| {
        EarlyMark(body, damaged, i, mark.value);
      } else if mark.Some? && |damaged| <= mark.value {
        NoMarkInFooter(damaged, Footer(body), mark.value);
      } else if mark.Some? {
        RealMarkDiffers(body, damaged, i);
      }
    }
  }

  /** At the real mark the checksum of the damaged body is not the stored one. */
  lemma RealMarkDiffers(body: string, damaged: string, i: nat)
    requires |body| == |damaged| && body != damaged
    requires AreBytes(body) && AreBytes(damaged)
    requires forall k :: 0 <= k < |body| && !(i <= k < i + 4) ==> body[k] == damaged[k]
    ensures (damaged + Footer(body))[..|body|] == damaged && Checksum(damaged) != Checksum(body)
    ensures ScanHex((damaged + Footer(body))[|body|..][9..]) == Some(Checksum(body))
  {
    hide Checksum, Hex, ScanHex;
    FooterShape(body);
    assert (damaged + Footer(body))[|body|..] == Footer(body);
    ScanHexOfHex(Checksum(body), [NEWLINE]);
    ChecksumDiffers(body, damaged, i);
  }

  /** A NUL cuts the text off inside the damage, before any mark. */
  lemma BurstWithNul(body: string, damaged: string, i: nat)
    requires EndsLine(body) && FarFromMark(body) && |body| == |damaged| && NUL in damaged
    requires forall k :: 0 <= k < |body| && !(i <= k < i + 4) ==> body[k] == damaged[k]
    ensures !Intact(damaged + Footer(body))
  {
    hide Checksum, Hex, Footer, ScanHex;
    var text := damaged + Footer(body);
    var k :| 0 <= k < |damaged| && damaged[k] == NUL;
    var p := IndexOf(text, NUL);
    assert text[k] == NUL;
    IndexOfBefore(text, NUL, k);
    assert damaged[p] == text[p] == NUL && body[p] in body;
    var seen := CString(text);
    assert seen == damaged[..p];
    forall q: nat
      ensures !OccursAt(seen, CHECK_MARK, q)
    {
      MarkShape();
      if q + 10 <= p {
        NoMarkBefore(body, damaged, q, i);
        assert seen[q..q + 10] == damaged[q..q + 10];
      }
    }
  }

  lemma ChecksumDiffers(a: string, b: string, i: nat)
    requires |a| == |b| && a != b && AreBytes(a) && AreBytes(b)
    requires forall k :: 0 <= k < |a| && !(i <= k < i + 4) ==> a[k] == b[k]
    ensures Checksum(a) != Checksum(b)
  {
    hide Crc32.Crc;
    var k :| 0 <= k < |a| && a[k] != b[k];
    assert a[k] in a && b[k] in b;
    ByteOfChar(a[k]);
    ByteOfChar(b[k]);
    assert Bytes(a)[k] != Bytes(b)[k];
    Crc32.FourByteBurstDetected(Bytes(a), Bytes(b), i);
    if Checksum(a) == Checksum(b) {
      WordAsNat(Crc32.Crc(Bytes(a)), Crc32.Crc(Bytes(b)));
    }
  }

  lemma WordAsNat(x: bv32, y: bv32)
    requires x as nat == y as nat
    ensures x == y
  {
    NatAsWord(x);
    NatAsWord(y);
  }

  lemma NatAsWord(x: bv32)
    ensures (x as nat) as bv32 == x
  {}

  // ---------------------------------------------------------------- round trip

  /** Fields that keep the line format: C strings, newlines only inside env entries, alias
      names without '=', the directory within the buffer of getcwd. */
  predicate Savable(s: Snapshot) {
    && Plain(s.timestamp) && Plain(s.cwd) && |s.cwd| < 4096
    && (forall e | e in s.env :: NUL !in e)
    && (forall a | a in s.aliases :: Plain(a.name) && Plain(a.value) && '=' !in a.name)
    && (forall j | j in s.jobs :: Plain(j.command))
  }

  /** What comes back of the entries: the overlong ones are skipped, the others are escaped
      as far as the buffer goes and unescaped. */
  function ComesBack(env: seq<string>): seq<string> {
    if env == [] then []
    else if |env[0]| > MAX_ENTRY then ComesBack(env[1..])
    else [Unescape(EscapeInto(env[0], 0))] + ComesBack(env[1..])
  }

  function ActiveJobs(jobs: seq<Job>): seq<string> {
    if jobs == [] then []
    else if jobs[0].active then [JobText(jobs[0])] + ActiveJobs(jobs[1..])
    else ActiveJobs(jobs[1..])
  }

  lemma Tags(x: string)
    ensures TagOf("TIMESTAMP=" + x) == TimestampTag && TagOf("PID=" + x) == PidTag && TagOf("CWD=" + x) == CwdTag
    ensures TagOf("ENV=" + x) == EnvTag && TagOf("ALIAS=" + x) == AliasTag && TagOf("JOB=" + x) == JobTag
    ensures TagOf(CHECK_TAG + x) == CheckTag
  {
    TagOfCheck(CHECK_TAG + x);
    var e, a, j := "ENV=" + x, "ALIAS=" + x, "JOB=" + x;
    assert e[0] == 'E' && a[0] == 'A' && j[0] == 'J';
    var p, c := "PID=" + x, "CWD=" + x;
    assert p[0] == 'P' && c[0] == 'C' && c[1] == 'W';
  }

  lemma NotNear(x: string)
    ensures !(NEAR_TAG <= "TIMESTAMP=" + x) && !(NEAR_TAG <= "PID=" + x) && !(NEAR_TAG <= "CWD=" + x)
    ensures !(NEAR_TAG <= "ENV=" + x) && !(NEAR_TAG <= "ALIAS=" + x) && !(NEAR_TAG <= "JOB=" + x)
  {
    var t, p, c := "TIMESTAMP=" + x, "PID=" + x, "CWD=" + x;
    assert NEAR_TAG[0] == 'C' && NEAR_TAG[1] == 'H' && t[0] == 'T' && p[0] == 'P' && c[1] == 'W';
    var e, a, j := "ENV=" + x, "ALIAS=" + x, "JOB=" + x;
    assert e[0] == 'E' && a[0] == 'A' && j[0] == 'J';
  }

  lemma {:induction false} EscapeKeepsNul(s: string, used: nat)
    ensures NUL in EscapeInto(s, used) ==> NUL in s
    decreases s
  {
    if s != "" && used < ESCAPE_ROOM {
      EscapeKeepsNul(s[1..], if s[0] == NEWLINE then used + 2 else used + 1);
      assert s == [s[0]] + s[1..];
    }
  }

  /** A line the body is made of. */
  predicate Ordinary(l: string) {
    Plain(l) && !(NEAR_TAG <= l)
  }

  lemma {:induction false} EnvLinesOrdinary(env: seq<string>)
    requires forall e | e in env :: NUL !in e
    ensures forall l :: l in EnvLines(env) ==> Ordinary(l)
  {
    if env != [] {
      EnvLinesOrdinary(env[1..]);
      EscapeKeepsNul(env[0], 0);
      NotNear(EscapeInto(env[0], 0));
    }
  }

  lemma {:induction false} AliasLinesOrdinary(aliases: seq<Alias>)
    requires forall a | a in aliases :: Plain(a.name) && Plain(a.value)
    ensures forall l :: l in AliasLines(aliases) ==> Ordinary(l)
  {
    if aliases != [] {
      AliasLinesOrdinary(aliases[1..]);
      var a := aliases[0];
      var text := a.name + "=" + a.value;
      assert "ALIAS=" + a.name + "=" + a.value == "ALIAS=" + text;
      NotNear(text);
    }
  }

  lemma {:induction false} DigitsPlain(n: nat)
    ensures Plain(Digits(n))
  {}

  lemma JobTextPlain(j: Job)
    requires Plain(j.command)
    ensures Plain(JobText(j)) && Plain(Decimal(j.pid))
  {
    DigitsPlain(if j.id < 0 then -j.id else j.id);
    DigitsPlain(if j.pid < 0 then -j.pid else j.pid);
  }

  lemma {:induction false} JobLinesOrdinary(jobs: seq<Job>)
    requires forall j | j in jobs :: Plain(j.command)
    ensures forall l :: l in JobLines(jobs) ==> Ordinary(l)
  {
    if jobs != [] {
      JobLinesOrdinary(jobs[1..]);
      JobTextPlain(jobs[0]);
      NotNear(JobText(jobs[0]));
    }
  }

  lemma MagicOrdinary()
    ensures Ordinary(MAGIC)
  {
    assert MAGIC[0] == 'L' && NEAR_TAG[0] == 'C';
  }

  lemma HeaderOrdinary(s: Snapshot)
    requires Savable(s)
    ensures forall l :: l in Header(s) ==> Ordinary(l)
  {
    NotNear(s.timestamp);
    NotNear(Decimal(s.pid));
    NotNear(s.cwd);
    DigitsPlain(if s.pid < 0 then -s.pid else s.pid);
    MagicOrdinary();
  }

  lemma BodyLinesOrdinary(s: Snapshot)
    requires Savable(s)
    ensures forall l :: l in BodyLines(s) ==> Ordinary(l)
  {
    HeaderOrdinary(s);
    EnvLinesOrdinary(Take(s.env, MAX_ENV));
    AliasLinesOrdinary(Take(s.aliases, MAX_SAVED_ALIASES));
    JobLinesOrdinary(Take(s.jobs, MAX_JOBS));
  }

  lemma {:induction false} UnlinesPlain(lines: seq<string>)
    requires forall l :: l in lines ==> NUL !in l
    ensures NUL !in Unlines(lines)
  {
    if lines != [] {
      UnlinesPlain(lines[1..]);
    }
  }

  lemma SavableIsFar(s: Snapshot)
    requires Savable(s)
    ensures FarFromMark(Body(s))
  {
    var lines := BodyLines(s);
    BodyLinesOrdinary(s);
    UnlinesPlain(lines);
    NearShape();
    forall i: nat
      ensures !OccursAt(Unlines(lines), [NEWLINE] + NEAR_TAG, i)
    {
      LinesHideNoMark(lines, NEAR_TAG, i);
    }
  }

  lemma SavableIsClean(s: Snapshot)
    requires Savable(s)
    ensures Clean(Body(s))
  {
    SavableIsFar(s);
    FarIsClean(Body(s));
  }

  // The parser walks back over each group of lines the printer wrote.

  lemma ParseOne(line: string, rest: seq<string>, f: Fields, myPid: int)
    requires TagOf(line) !in {CheckTag, PidTag}
    ensures ParseLines([line] + rest, f, myPid) == ParseLines(rest, TakeField(line, f), myPid)
  {
    assert ([line] + rest)[1..] == rest;
  }

  lemma EnvLineParses(text: string, f: Fields)
    requires |f.env| < MAX_ENV
    ensures var line := "ENV=" + text;
            TagOf(line) == EnvTag && TakeField(line, f) == f.(env := f.env + [Unescape(text)])
  {
    hide Unescape;
    Tags(text);
    assert ("ENV=" + text)[4..] == text;
  }

  lemma {:induction false} ParseEnv(env: seq<string>, rest: seq<string>, f: Fields, myPid: int)
    requires |f.env| + |env| <= MAX_ENV
    ensures ParseLines(EnvLines(env) + rest, f, myPid) ==
            ParseLines(rest, f.(env := f.env + ComesBack(env)), myPid)
    decreases env
  {
    hide ParseLines, TagOf, TakeField, Unescape, EscapeInto;
    if env == [] {
      assert EnvLines(env) + rest == rest && f.env + [] == f.env;
    } else if |env[0]| > MAX_ENTRY {
      ParseEnv(env[1..], rest, f, myPid);
    } else {
      var text := EscapeInto(env[0], 0);
      var line := "ENV=" + text;
      var g := f.(env := f.env + [Unescape(text)]);
      EnvLineParses(text, f);
      Assoc([line], EnvLines(env[1..]), rest);
      ParseOne(line, EnvLines(env[1..]) + rest, f, myPid);
      ParseEnv(env[1..], rest, g, myPid);
      Assoc(f.env, [Unescape(text)], ComesBack(env[1..]));
    }
  }

  lemma {:induction false} ParseAliases(aliases: seq<Alias>, rest: seq<string>, f: Fields, myPid: int)
    requires |f.aliases| + |aliases| <= MAX_SAVED_ALIASES
    requires forall a | a in aliases :: '=' !in a.name
    ensures ParseLines(AliasLines(aliases) + rest, f, myPid) ==
            ParseLines(rest, f.(aliases := f.aliases + aliases), myPid)
    decreases aliases
  {
    if aliases == [] {
      assert AliasLines(aliases) + rest == rest && f.aliases + [] == f.aliases;
    } else {
      hide ParseLines, TagOf, TakeField;
      var a := aliases[0];
      var line := "ALIAS=" + a.name + "=" + a.value;
      var g := f.(aliases := f.aliases + [a]);
      AliasLineParses(a, f);
      Assoc([line], AliasLines(aliases[1..]), rest);
      ParseOne(line, AliasLines(aliases[1..]) + rest, f, myPid);
      ParseAliases(aliases[1..], rest, g, myPid);
      Assoc(f.aliases, [a], aliases[1..]);
      assert [a] + aliases[1..] == aliases;
    }
  }

  lemma AliasLineParses(a: Alias, f: Fields)
    requires '=' !in a.name && |f.aliases| < MAX_SAVED_ALIASES
    ensures var line := "ALIAS=" + a.name + "=" + a.value;
            TagOf(line) == AliasTag && TakeField(line, f) == f.(aliases := f.aliases + [a])
  {
    var text := a.name + "=" + a.value;
    var line := "ALIAS=" + a.name + "=" + a.value;
    assert line == "ALIAS=" + text && line[6..] == text;
    Tags(text);
    assert text[..|a.name|] == a.name && text[|a.name|] == '=' && text[|a.name| + 1..] == a.value;
    IndexOfIs(text, '=', |a.name|);
  }

  lemma JobLineParses(text: string, f: Fields)
    ensures var line := "JOB=" + text;
            TagOf(line) == JobTag && TakeField(line, f) == f.(jobs := f.jobs + [text])
  {
    Tags(text);
    assert ("JOB=" + text)[4..] == text;
  }

  lemma {:induction false} ParseJobs(jobs: seq<Job>, rest: seq<string>, f: Fields, myPid: int)
    ensures ParseLines(JobLines(jobs) + rest, f, myPid) ==
            ParseLines(rest, f.(jobs := f.jobs + ActiveJobs(jobs)), myPid)
    decreases jobs
  {
    if jobs == [] {
      assert JobLines(jobs) + rest == rest && f.jobs + [] == f.jobs;
    } else if !jobs[0].active {
      ParseJobs(jobs[1..], rest, f, myPid);
    } else {
      hide ParseLines, TagOf, TakeField, JobText;
      var line := "JOB=" + JobText(jobs[0]);
      var g := f.(jobs := f.jobs + [JobText(jobs[0])]);
      JobLineParses(JobText(jobs[0]), f);
      Assoc([line], JobLines(jobs[1..]), rest);
      ParseOne(line, JobLines(jobs[1..]) + rest, f, myPid);
      ParseJobs(jobs[1..], rest, g, myPid);
      Assoc(f.jobs, [JobText(jobs[0])], ActiveJobs(jobs[1..]));
    }
  }

  /** What a restore of s hands over, before merging. */
  function SavedFields(s: Snapshot): Fields {
    Fields(s.cwd, ComesBack(Take(s.env, 1024)), Take(s.aliases, 256),
           ActiveJobs(Take(s.jobs, 128)))
  }

  lemma ParseHeader(s: Snapshot, rest: seq<string>, myPid: int)
    requires |s.cwd| < 4096
    ensures Parse(Header(s) + rest, myPid) ==
            if s.pid == myPid then SamePid else ParseLines(rest, NO_FIELDS.(cwd := s.cwd), myPid)
  {
    var stamp, pid, cwd := "TIMESTAMP=" + s.timestamp, "PID=" + Decimal(s.pid), "CWD=" + s.cwd;
    var r1 := [cwd] + rest;
    var r2 := [pid] + r1;
    assert (Header(s) + rest)[1..] == [stamp] + r2;
    Tags(s.timestamp);
    Tags(s.cwd);
    hide TagOf, Decimal, ParseLines;
    ParseOne(stamp, r2, NO_FIELDS, myPid);
    ParsePid(s.pid, r1, NO_FIELDS, myPid);
    assert cwd[4..] == s.cwd;
    ParseOne(cwd, rest, NO_FIELDS, myPid);
  }

  lemma ParsePid(n: int, rest: seq<string>, f: Fields, myPid: int)
    ensures ParseLines(["PID=" + Decimal(n)] + rest, f, myPid) ==
            if n == myPid then SamePid else ParseLines(rest, f, myPid)
  {
    var pid := "PID=" + Decimal(n);
    Tags(Decimal(n));
    AtolDecimal(n);
    hide TagOf, Decimal, Atol;
    assert ([pid] + rest)[1..] == rest && pid[4..] == Decimal(n);
  }

  lemma ParseWritten(s: Snapshot, check: string, after: seq<string>, myPid: int)
    requires Savable(s) && TagOf(check) == CheckTag
    ensures Parse(BodyLines(s) + ([check] + after), myPid) == if s.pid == myPid then SamePid else Parsed(SavedFields(s))
  {
    var env, aliases, jobs := Take(s.env, MAX_ENV), Take(s.aliases, MAX_SAVED_ALIASES), Take(s.jobs, MAX_JOBS);
    var last := [check] + after;
    var r1 := JobLines(jobs) + last;
    var r2 := AliasLines(aliases) + r1;
    var r3 := EnvLines(env) + r2;
    assert BodyLines(s) + last == Header(s) + r3;
    ParseHeader(s, r3, myPid);
    var f := NO_FIELDS.(cwd := s.cwd);
    ParseEnv(env, r2, f, myPid);
    assert f.env + ComesBack(env) == ComesBack(env);
    var g := f.(env := ComesBack(env));
    ParseAliases(aliases, r1, g, myPid);
    assert g.aliases + aliases == aliases;
    var h := g.(aliases := aliases);
    ParseJobs(jobs, last, h, myPid);
    assert h.jobs + ActiveJobs(jobs) == ActiveJobs(jobs);
  }

  lemma SplitFile(s: Snapshot)
    requires Savable(s)
    ensures Split(FileText(s)) == BodyLines(s) + ([CHECK_TAG + Hex(Checksum(Body(s)), 8)] + [])
  {
    assert Split("") == [];
    hide Split, Checksum, Hex;
    BodyLinesOrdinary(s);
    SplitUnlines(BodyLines(s), Footer(Body(s)) + "");
    SplitFooter(Body(s), "");
    assert FileText(s) == Unlines(BodyLines(s)) + (Footer(Body(s)) + "");
  }

  lemma SplitFooter(body: string, tail: string)
    ensures Split(Footer(body) + tail) == [CHECK_TAG + Hex(Checksum(body), 8)] + Split(tail)
  {
    hide Split, Checksum, Hex;
    var check := CHECK_TAG + Hex(Checksum(body), 8);
    FooterShape(body);
    assert Footer(body) + tail == check + [NEWLINE] + tail && check == Footer(body)[..17];
    SplitLine(check, tail);
  }

  /** Restoring a written checkpoint gives its working directory, aliases, active jobs and
      what the writer kept of its environment back, whatever the shell had before. */
  lemma RestoreOfWrite(s: Snapshot, myPid: int, env: seq<string>, aliases: seq<Alias>)
    requires Savable(s) && Write(s).Some?
    ensures var f := SavedFields(s);
            Restore(Write(s), myPid, env, aliases) ==
            if s.pid == myPid then Stale
            else Applied(s.cwd, MergeEnv(env, f.env), MergeAliases(aliases, f.aliases), f.jobs)
  {
    SavableIsClean(s);
    var check := CHECK_TAG + Hex(Checksum(Body(s)), 8);
    Tags(Hex(Checksum(Body(s)), 8));
    SplitFile(s);
    hide Savable, Restore, Clean, SavedFields, MergeEnv, MergeAliases, FileText, Body, Parse, Split, TagOf, Hex,
         Checksum, BodyLines;
    RestoreOfIntact(s, myPid, env, aliases);
    ParseWritten(s, check, [], myPid);
  }

  /** A written checkpoint without an early mark is handed over as it parses. */
  lemma RestoreOfIntact(s: Snapshot, myPid: int, env: seq<string>, aliases: seq<Alias>)
    requires Clean(Body(s)) && Write(s).Some?
    ensures Write(s) == Some(FileText(s)) && Intact(FileText(s)) && CString(FileText(s)) == FileText(s)
    ensures Restore(Write(s), myPid, env, aliases) == HandedOver(Parse(Split(FileText(s)), myPid), env, aliases)
  {
    BodyEndsLine(s);
    CompleteIsIntact(Body(s));
    hide Intact, CString, Body, Footer, Parse, Split, HandedOver;
  }

  // ----------------------------------------------------- any fields, newlines included

  lemma FirstOff(a: string) returns (line: string, rest: string)
    requires EndsLine(a)
    ensures a == line + [NEWLINE] + rest && NEWLINE !in line && (rest == "" || EndsLine(rest))
  {
    var i := IndexOf(a, NEWLINE);
    IndexOfBefore(a, NEWLINE, |a| - 1);
    line, rest := a[..i], a[i + 1..];
  }

  /** Cutting at the end of a line splits the lines. */
  lemma {:induction false} SplitAtLine(a: string, b: string)
    requires a == "" || EndsLine(a)
    ensures Split(a + b) == Split(a) + Split(b)
    decreases |a|
  {
    if a == "" {
      assert a + b == b;
    } else {
      hide Split, EndsLine;
      var line, rest := FirstOff(a);
      assert a + b == line + [NEWLINE] + (rest + b);
      SplitLine(line, rest);
      SplitLine(line, rest + b);
      SplitAtLine(rest, b);
      Assoc([line], Split(rest), Split(b));
    }
  }

  /** The parser stops at a checksum line or before it. */
  lemma {:induction false} ParseStops(lines: seq<string>, check: string, after: seq<string>, f: Fields, myPid: int)
    requires TagOf(check) == CheckTag
    ensures ParseLines(lines + ([check] + after), f, myPid) == ParseLines(lines + [check], f, myPid)
    decreases lines
  {
    hide TagOf, TakeField, Atol;
    if lines == [] {
      assert lines + ([check] + after) == [check] + after && lines + [check] == [check];
    } else {
      assert (lines + ([check] + after))[1..] == lines[1..] + ([check] + after);
      assert (lines + [check])[1..] == lines[1..] + [check];
      ParseStops(lines[1..], check, after, TakeField(lines[0], f), myPid);
    }
  }

  lemma FirstLine(s: Snapshot)
    ensures Split(Body(s)) != [] && Split(Body(s))[0] == MAGIC
  {
    var lines := BodyLines(s);
    assert Body(s) == MAGIC + [NEWLINE] + Unlines(lines[1..]) by { assert lines[0] == MAGIC; }
    MagicOrdinary();
    SplitLine(MAGIC, Unlines(lines[1..]));
  }

  lemma SplitShown(s: Snapshot, tail: string)
    ensures Split(FileText(s) + tail) ==
            Split(Body(s)) + ([CHECK_TAG + Hex(Checksum(Body(s)), 8)] + Split(tail))
  {
    BodyEndsLine(s);
    hide Split, Body, Checksum, Hex, Footer, EndsLine;
    assert FileText(s) + tail == Body(s) + (Footer(Body(s)) + tail);
    SplitAtLine(Body(s), Footer(Body(s)) + tail);
    SplitFooter(Body(s), tail);
  }

  lemma ParseAfterMagic(lines: seq<string>, more: seq<string>, myPid: int)
    requires lines != [] && lines[0] == MAGIC
    ensures Parse(lines + more, myPid) == ParseLines(lines[1..] + more, NO_FIELDS, myPid)
  {
    assert (lines + more)[1..] == lines[1..] + more;
  }

  /** What stands behind the checksum line is not parsed, and the first line is right. */
  lemma ParseShown(s: Snapshot, tail: string, myPid: int)
    ensures var lines, check := Split(Body(s)), CHECK_TAG + Hex(Checksum(Body(s)), 8);
            && lines != []
            && Parse(Split(FileText(s) + tail), myPid) == ParseLines(lines[1..] + [check], NO_FIELDS, myPid)
            && Parse(Split(FileText(s) + tail), myPid) != BadMagic
  {
    hide Split, Body, Checksum, Hex, FileText, ParseLines, TagOf, Parse;
    var check := CHECK_TAG + Hex(Checksum(Body(s)), 8);
    FirstLine(s);
    SplitShown(s, tail);
    Tags(Hex(Checksum(Body(s)), 8));
    var lines := Split(Body(s));
    ParseAfterMagic(lines, [check] + Split(tail), myPid);
    ParseStops(lines[1..], check, Split(tail), NO_FIELDS, myPid);
    ParsedOrStale(lines[1..] + [check], NO_FIELDS, myPid);
  }

  lemma {:induction false} ParsedOrStale(lines: seq<string>, f: Fields, myPid: int)
    ensures ParseLines(lines, f, myPid) != BadMagic
    decreases lines
  {
    hide TagOf, TakeField, Atol;
    if lines != [] {
      ParsedOrStale(lines[1..], TakeField(lines[0], f), myPid);
    }
  }

  /** Whatever its fields hold, a written checkpoint passes exactly when its body has no
      early mark; only a field with a newline can make one. */
  lemma WrittenIntactIff(s: Snapshot)
    requires Write(s).Some? && NUL !in Body(s)
    ensures Intact(FileText(s)) <==> Clean(Body(s))
  {
    BodyEndsLine(s);
    var body := Body(s);
    if Clean(body) {
      CompleteIsIntact(body);
    } else {
      hide Body;
      EarlyMarkRefused(body);
    }
  }

  lemma EarlyMarkRefused(body: string)
    requires EndsLine(body) && NUL !in body && !Clean(body)
    ensures !Intact(body + Footer(body))
  {
    FooterShape(body);
    MarkInFront(body, Footer(body));
    var text := body + Footer(body);
    hide Checksum, Hex, Footer, ScanHex, Find, CString, SkipBlankLines, OccursAt, Occurs;
    CStringWithoutNul(text);
    RealLineTrails(body, Footer(body), Find(text, CHECK_MARK).value);
  }

  lemma MarkInFront(body: string, rest: string)
    requires Occurs(body, CHECK_MARK)
    ensures var mark := Find(body + rest, CHECK_MARK); mark.Some? && mark.value + 1 < |body|
  {
    var i: nat :| OccursAt(body, CHECK_MARK, i);
    MarkShape();
    hide Find;
    assert (body + rest)[i..i + 10] == body[i..i + 10];
    assert OccursAt(body + rest, CHECK_MARK, i);
  }

  /** A snapshot whose directory name holds a newline and then the checksum line that the
      snapshot t would get. */
  function Nested(t: Snapshot): Snapshot {
    t.(cwd := t.cwd + "\n" + Footer(Body(t)))
  }

  predicate Bare(t: Snapshot) {
    t.env == [] && t.aliases == [] && t.jobs == []
  }

  /** The body of a bare snapshot up to its directory. */
  function BareHead(t: Snapshot): string {
    Unlines([MAGIC, "TIMESTAMP=" + t.timestamp, "PID=" + Decimal(t.pid)]) + "CWD="
  }

  lemma BareBody(t: Snapshot)
    requires Bare(t)
    ensures Body(t) == BareHead(t) + t.cwd + "\n"
  {
    var init, dir := [MAGIC, "TIMESTAMP=" + t.timestamp, "PID=" + Decimal(t.pid)], "CWD=" + t.cwd;
    assert BodyLines(t) == init + [dir];
    assert [dir][1..] == [] && Unlines([dir]) == dir + [NEWLINE] + "";
    hide Decimal, Unlines;
    UnlinesAppend(init, [dir]);
    assert Body(t) == Unlines(init) + (dir + "\n");
  }

  /** Its file starts with the whole file of t and goes on. */
  lemma NestedText(t: Snapshot)
    requires Bare(t)
    ensures Body(Nested(t)) == FileText(t) + "\n"
    ensures FileText(Nested(t)) == FileText(t) + ("\n" + Footer(Body(Nested(t))))
  {
    BareBody(t);
    BareBody(Nested(t));
    assert BareHead(Nested(t)) == BareHead(t);
    hide Body, Footer, BareHead;
    Regroup(BareHead(t), t.cwd, Footer(Body(t)));
    Assoc(FileText(t), "\n", Footer(Body(Nested(t))));
  }

  lemma Regroup(a: string, b: string, c: string)
    ensures a + (b + "\n" + c) + "\n" == a + b + "\n" + c + "\n"
  {}

  /** Why the condition is there: such a checkpoint is refused when it is complete, and when
      it is cut in the right place a directory is restored that the shell was never in. */
  lemma NewlineInDirectory(t: Snapshot, myPid: int, env: seq<string>, aliases: seq<Alias>)
    requires Savable(t) && Bare(t) && t.pid != myPid && Write(Nested(t)).Some?
    ensures !Clean(Body(Nested(t))) && Restore(Write(Nested(t)), myPid, env, aliases) == Corrupt
    ensures var k := |FileText(t)|;
            && k < |FileText(Nested(t))| && t.cwd != Nested(t).cwd
            && Restore(Some(FileText(Nested(t))[..k]), myPid, env, aliases) ==
               Applied(t.cwd, MergeEnv(env, []), MergeAliases(aliases, []), [])
  {
    NestedMark(t);
    NestedText(t);
    assert SavedFields(t) == Fields(t.cwd, [], [], []);
    assert |Nested(t).cwd| > |t.cwd|;
    hide Body, Footer, Clean, Savable, SavedFields, Restore, MergeEnv, MergeAliases, Intact, FileText, Nested;
    assert FileText(Nested(t))[..|FileText(t)|] == FileText(t);
    RestoreOfWrite(t, myPid, env, aliases);
    WrittenIntactIff(Nested(t));
    RefusedIsCorrupt(FileText(Nested(t)), myPid, env, aliases);
  }

  lemma NestedMark(t: Snapshot)
    requires Savable(t) && Bare(t)
    ensures NUL !in Body(Nested(t)) && !Clean(Body(Nested(t)))
  {
    BodyEndsLine(t);
    SavableIsClean(t);
    FooterShape(Body(t));
    NestedText(t);
    hide Body, Footer, Savable, Find;
    var seen := Footer(Body(t)) + "\n";
    assert Body(Nested(t)) == Body(t) + seen && seen[..9] == Footer(Body(t))[..9];
    FindMark(Body(t), seen);
    assert OccursAt(Body(Nested(t)), CHECK_MARK, |Body(t)| - 1);
  }

  lemma RefusedIsCorrupt(file: string, myPid: int, env: seq<string>, aliases: seq<Alias>)
    ensures !Intact(file) ==> Restore(Some(file), myPid, env, aliases) == Corrupt
  {
    hide Intact, Parse, HandedOver;
  }

  /** An intact file that shows a written checkpoint and what follows it restores like the
      checkpoint itself: nothing after the checksum line is parsed. */
  lemma RestoreOfShown(s: Snapshot, file: string, tail: string, myPid: int, env: seq<string>, aliases: seq<Alias>)
    requires Clean(Body(s)) && Write(s).Some? && Intact(file) && CString(file) == FileText(s) + tail
    ensures Restore(Some(file), myPid, env, aliases) == Restore(Write(s), myPid, env, aliases)
    ensures var r := Restore(Some(file), myPid, env, aliases); r.Stale? || r.Applied?
  {
    hide Clean, Intact, CString, MergeEnv, MergeAliases, FileText, Parse, ParseLines, Split, Body, Hex, Checksum;
    ParseShown(s, tail, myPid);
    ParseShown(s, "", myPid);
    assert FileText(s) + "" == FileText(s);
    var p := Parse(Split(FileText(s)), myPid);
    assert Restore(Some(file), myPid, env, aliases) == HandedOver(p, env, aliases);
    hide Restore;
    RestoreOfIntact(s, myPid, env, aliases);
  }

  /** A checkpoint without an early mark is restored, or stale, but never refused. */
  lemma RestoreOfClean(s: Snapshot, myPid: int, env: seq<string>, aliases: seq<Alias>)
    requires Clean(Body(s)) && Write(s).Some?
    ensures var r := Restore(Write(s), myPid, env, aliases); r.Stale? || r.Applied?
  {
    hide Clean, Intact, Restore, CString, Body, FileText;
    RestoreOfIntact(s, myPid, env, aliases);
    assert FileText(s) + "" == FileText(s);
    RestoreOfShown(s, FileText(s), "", myPid, env, aliases);
  }

  /** How every file starts, and its last line: the checksum of all before it in eight
      hexadecimal digits. */
  lemma FileFrame(s: Snapshot)
    ensures var text := FileText(s);
            && "LAS_SHELL_CHECKPOINT_V1\n" <= text && |text| > 18 && text == Body(s) + text[|text| - 18..]
            && text[|text| - 18..] == "CHECKSUM=" + Hex(Checksum(Body(s)), 8) + "\n"
  {
    var lines := BodyLines(s);
    assert lines[0] == MAGIC;
    assert Body(s) == MAGIC + [NEWLINE] + Unlines(lines[1..]);
    hide Body, BodyLines, Checksum, Hex;
    FooterShape(Body(s));
    var text := FileText(s);
    assert |text| == |Body(s)| + 18;
    assert text[|text| - 18..] == Footer(Body(s));
    assert text[..24] == MAGIC + [NEWLINE];
  }

  // ------------------------------------------------------------------ the environment

  /** The writer keeps all of the entry. */
  predicate KeptWhole(e: string) {
    |e| <= 4096 && EscapeInto(e, 0) == Escape(e)
  }

  /** The buffer takes the escape of a front part of the entry. */
  lemma {:induction false} EscapedPart(e: string, used: nat) returns (k: nat)
    ensures k <= |e| && EscapeInto(e, used) == Escape(e[..k])
    decreases e
  {
    k := 0;
    if e != "" && used < ESCAPE_ROOM {
      var k1 := EscapedPart(e[1..], if e[0] == NEWLINE then used + 2 else used + 1);
      k := k1 + 1;
      assert e[..k][1..] == e[1..][..k1];
    }
  }

  lemma {:induction false} UnescapeShortens(s: string)
    ensures |Unescape(s)| <= |s|
    decreases |s|
  {
    if s != "" {
      UnescapeShortens(if PairAt(s, 0) then s[2..] else s[1..]);
    }
  }

  /** An entry comes back as it was exactly when it is kept whole and holds no pair. */
  lemma EntryComesBackIff(e: string)
    ensures Unescape(EscapeInto(e, 0)) == e <==> EscapeInto(e, 0) == Escape(e) && !HasPair(e)
  {
    var k := EscapedPart(e, 0);
    UnescapeEscape(e[..k]);
    UnescapeShortens(e[..k]);
    UnescapeEscape(e);
    UnescapeWithoutPair(e);
    if k == |e| {
      assert e[..k] == e;
    }
  }

  /** The entry comes back as it was. */
  ghost predicate Survives(e: string) {
    KeptWhole(e) && !HasPair(e)
  }

  lemma {:induction false} ComesBackIff(env: seq<string>)
    ensures |ComesBack(env)| <= |env|
    ensures ComesBack(env) == env <==> forall e | e in env :: Survives(e)
    decreases env
  {
    if env != [] {
      ComesBackIff(env[1..]);
      EntryComesBackIff(env[0]);
      assert Survives(env[0]) <==> |env[0]| <= MAX_ENTRY && Unescape(EscapeInto(env[0], 0)) == env[0];
      hide Unescape, EscapeInto, Survives;
      if |env[0]| <= MAX_ENTRY {
        ConsEqual(Unescape(EscapeInto(env[0], 0)), ComesBack(env[1..]), env);
      }
      assert (forall e | e in env :: Survives(e)) <==> Survives(env[0]) && forall e | e in env[1..] :: Survives(e);
    }
  }

  lemma ConsEqual<T>(x: T, rest: seq<T>, all: seq<T>)
    requires all != []
    ensures [x] + rest == all <==> x == all[0] && rest == all[1..]
  {
    assert ([x] + rest)[1..] == rest && all == [all[0]] + all[1..];
  }

  /** The environment is recovered exactly when it has no more entries than are saved, each
      is kept whole, and none holds a literal pair; then every saved variable reads as
      saved after the restore and every other one as before. */
  lemma RestoredEnvironment(s: Snapshot, myPid: int, env: seq<string>, aliases: seq<Alias>, name: string)
    requires Savable(s) && Write(s).Some? && s.pid != myPid && '=' !in name
    ensures SavedFields(s).env == s.env <==> |s.env| <= 1024 && forall e | e in s.env :: Survives(e)
    ensures var r := Restore(Write(s), myPid, env, aliases);
            r.Applied? && Getenv(name, r.env) ==
            if Getenv(name, SavedFields(s).env).Some? then Getenv(name, SavedFields(s).env) else Getenv(name, env)
  {
    RestoreOfWrite(s, myPid, env, aliases);
    MergeLookup(name, env, SavedFields(s).env);
    hide Savable, Restore, MergeEnv, MergeAliases, Getenv, ComesBack, Survives, ActiveJobs;
    ComesBackIff(Take(s.env, MAX_ENV));
  }

  // -------------------------------------------------------------------- damage

  /** A cut-off checkpoint file is refused at every length. */
  lemma StrictPrefixCorrupt(s: Snapshot, k: nat, myPid: int, env: seq<string>, aliases: seq<Alias>)
    requires Clean(Body(s)) && k < |FileText(s)|
    ensures Restore(Some(FileText(s)[..k]), myPid, env, aliases) == Corrupt
  {
    BodyEndsLine(s);
    StrictPrefixNotIntact(Body(s), k);
  }

  /** A checkpoint with something added after its checksum line is restored as if that
      were not there, or refused: the first exactly when the file is within the size limit
      and the addition shows as blank lines. */
  lemma TrailingRestoredIff(s: Snapshot, extra: string, myPid: int, env: seq<string>, aliases: seq<Alias>)
    requires Clean(Body(s)) && Write(s).Some?
    ensures Restore(Some(FileText(s) + extra), myPid, env, aliases) ==
            if |FileText(s) + extra| <= 0x80_0000 && SkipBlankLines(CString(extra)) == ""
            then Restore(Write(s), myPid, env, aliases) else Corrupt
    ensures Restore(Write(s), myPid, env, aliases) != Corrupt
  {
    var file := FileText(s) + extra;
    BodyEndsLine(s);
    TrailingIntactIff(Body(s), extra);
    RefusedIsCorrupt(file, myPid, env, aliases);
    hide Restore, Intact, CString, SkipBlankLines, Body, Footer;
    RestoreOfClean(s, myPid, env, aliases);
    if Intact(file) {
      RestoreOfShown(s, file, CString(extra), myPid, env, aliases);
    }
  }

  /** The instance: text behind a NUL goes unnoticed. */
  lemma TextBehindNul(s: Snapshot, junk: string, myPid: int, env: seq<string>, aliases: seq<Alias>)
    requires Clean(Body(s)) && Write(s).Some? && |FileText(s)| + 1 + |junk| <= READ_CAP
    ensures Restore(Some(FileText(s) + ([NUL] + junk)), myPid, env, aliases) == Restore(Write(s), myPid, env, aliases)
    ensures FileText(s) + ([NUL] + junk) != FileText(s)
  {
    hide Restore, FileText, Clean;
    TrailingRestoredIff(s, [NUL] + junk, myPid, env, aliases);
    assert CString([NUL] + junk) == "";
  }

  /** Any damage of the body within four consecutive bytes is refused, whatever the fields
      hold, when no line of the body starts like the checksum line. */
  lemma BurstCorrupt(s: Snapshot, damaged: string, i: nat, myPid: int, env: seq<string>, aliases: seq<Alias>)
    requires FarFromMark(Body(s)) && damaged != Body(s)
    requires |damaged| == |Body(s)| && AreBytes(Body(s)) && AreBytes(damaged)
    requires forall k :: 0 <= k < |damaged| && !(i <= k < i + 4) ==> Body(s)[k] == damaged[k]
    ensures Restore(Some(damaged + Footer(Body(s))), myPid, env, aliases) == Corrupt
  {
    BodyEndsLine(s);
    BurstNotIntact(Body(s), damaged, i);
  }
}
