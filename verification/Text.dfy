/** Character-level helpers shared by the engines: the C string primitives they
    are written with, as functions on strings. */
module Text {

  datatype Option<+T> = None | Some(value: T)

  const NEWLINE := '\n'
  const NUL := '\0'

  predicate IsBlank(c: char) {
    c == ' ' || c == '\t'
  }

  /** strchr as an index: the first position of c, or |s|. */
  function IndexOf(s: string, c: char): (i: nat)
    ensures i <= |s|
    ensures c !in s[..i]
    ensures i < |s| ==> s[i] == c
  {
    if s == [] || s[0] == c then 0 else 1 + IndexOf(s[1..], c)
  }

  lemma {:induction false} IndexOfIs(s: string, c: char, i: nat)
    requires i <= |s| && c !in s[..i]
    requires i == |s| || s[i] == c
    ensures IndexOf(s, c) == i
  {
    if i > 0 {
      assert s[0] == s[..i][0];
      assert s[1..][..i - 1] == s[..i][1..];
      IndexOfIs(s[1..], c, i - 1);
    }
  }

  lemma {:induction false} IndexOfBefore(s: string, c: char, k: nat)
    requires k < |s| && s[k] == c
    ensures IndexOf(s, c) <= k
  {
    if k > 0 && s[0] != c {
      IndexOfBefore(s[1..], c, k - 1);
    }
  }

  lemma IndexOfAfter(a: string, rest: string, c: char)
    requires c !in a
    ensures IndexOf(a + rest, c) == |a| + IndexOf(rest, c)
  {
    var i := IndexOf(rest, c);
    assert (a + rest)[..|a| + i] == a + rest[..i];
    IndexOfIs(a + rest, c, |a| + i);
  }

  /** The text up to the first c: what is left after "*strchr(s, c) = 0". */
  function CutAt(s: string, c: char): string {
    s[..IndexOf(s, c)]
  }

  /** The characters a C string shows: up to the first NUL. */
  function CString(content: string): string {
    CutAt(content, NUL)
  }

  lemma CStringWithoutNul(text: string)
    requires '\0' !in text
    ensures CString(text) == text
  {
    IndexOfIs(text, NUL, |text|);
  }

  lemma CStringOfConcat(a: string, b: string)
    requires NUL !in a
    ensures CString(a + b) == a + CString(b)
  {
    var n := IndexOf(b, NUL);
    assert (a + b)[..|a| + n] == a + b[..n];
    IndexOfIs(a + b, NUL, |a| + n);
  }

  function SkipBlanks(s: string): string {
    if s != [] && IsBlank(s[0]) then SkipBlanks(s[1..]) else s
  }

  /** Drops trailing characters of a set, but never the first character. */
  function DropTrailing(s: string, drop: set<char>): string {
    if |s| > 1 && s[|s| - 1] in drop then DropTrailing(s[..|s| - 1], drop) else s
  }

  /** The occurrence test behind strstr. */
  predicate OccursAt(s: string, pat: string, i: nat) {
    i + |pat| <= |s| && s[i..i + |pat|] == pat
  }

  ghost predicate Occurs(s: string, pat: string) {
    exists i: nat :: OccursAt(s, pat, i)
  }

  /** strstr as an index: the first occurrence of pat, if any. */
  function Find(s: string, pat: string): (r: Option<nat>)
    ensures r.Some? ==> OccursAt(s, pat, r.value)
    ensures r.Some? ==> forall i: nat :: OccursAt(s, pat, i) ==> r.value <= i
    ensures r.None? ==> !Occurs(s, pat)
  {
    if pat <= s then
      assert s[0..|pat|] == pat;
      Some(0)
    else if s == [] then None
    else
      var r := Find(s[1..], pat);
      assert forall i: nat :: OccursAt(s, pat, i) ==> i > 0 && OccursAt(s[1..], pat, i - 1) by {
        forall i: nat | OccursAt(s, pat, i)
          ensures i > 0 && OccursAt(s[1..], pat, i - 1)
        {
          if i > 0 {
            assert s[1..][i - 1..i - 1 + |pat|] == s[i..i + |pat|];
          }
        }
      }
      if r.None? then None
      else
        assert s[1..][r.value..r.value + |pat|] == s[r.value + 1..r.value + 1 + |pat|];
        Some(r.value + 1)
  }

  predicate IsHex(c: char) {
    IsDigit(c) || 'A' <= c <= 'F' || 'a' <= c <= 'f'
  }

  predicate IsDigit(c: char) {
    '0' <= c <= '9'
  }

  function Take<T>(s: seq<T>, n: nat): seq<T> {
    if |s| <= n then s else s[..n]
  }

  /** Every character is a byte. */
  predicate AreBytes(text: string) {
    forall c | c in text :: c as int < 256
  }

  /** The bytes behind a C string. */
  function Bytes(text: string): seq<bv8> {
    seq(|text|, i requires 0 <= i < |text| => (text[i] as int % 256) as bv8)
  }

  lemma BytesInjective(a: string, b: string)
    requires AreBytes(a) && AreBytes(b) && Bytes(a) == Bytes(b)
    ensures a == b
  {
    assert |Bytes(a)| == |a| && |Bytes(b)| == |b|;
    forall i | 0 <= i < |a|
      ensures a[i] == b[i]
    {
      assert a[i] in a && b[i] in b;
      assert Bytes(a)[i] == Bytes(b)[i];
      ByteOfChar(a[i]);
      ByteOfChar(b[i]);
    }
  }

  lemma ByteOfChar(c: char)
    requires c as int < 256
    ensures ((c as int % 256) as bv8) as int == c as int
  {}

  lemma Assoc<T>(a: seq<T>, b: seq<T>, c: seq<T>)
    ensures a + b + c == a + (b + c)
  {}

  function Concat<T>(parts: seq<seq<T>>): seq<T> {
    if parts == [] then [] else parts[0] + Concat(parts[1..])
  }

  lemma {:induction false} ConcatAppend<T>(a: seq<seq<T>>, b: seq<seq<T>>)
    ensures Concat(a + b) == Concat(a) + Concat(b)
  {
    if a == [] {
      assert a + b == b;
    } else {
      assert (a + b)[1..] == a[1..] + b;
      ConcatAppend(a[1..], b);
    }
  }

  // -------------------------------------------------------------------- lines

  /** What one fgets into a buffer of this size takes from the front of a text. */
  function ReadSize(text: string, size: nat): (n: nat)
    requires size > 1
    ensures n <= |text| && n < size
    ensures text != "" ==> n > 0
  {
    var stop := IndexOf(text, NEWLINE);
    var full := if stop < |text| then stop + 1 else stop;
    if full < size then full else size - 1
  }

  function Unlines(lines: seq<string>): string {
    if lines == [] then "" else lines[0] + [NEWLINE] + Unlines(lines[1..])
  }

  /** The newline-separated pieces of a text; nothing after a final newline. */
  function Split(text: string): seq<string>
    decreases |text|
  {
    if text == "" then []
    else
      var i := IndexOf(text, NEWLINE);
      [text[..i]] + (if i == |text| then [] else Split(text[i + 1..]))
  }

  lemma {:induction false} UnlinesAppend(a: seq<string>, b: seq<string>)
    ensures Unlines(a + b) == Unlines(a) + Unlines(b)
  {
    if a == [] {
      assert a + b == b;
    } else {
      assert (a + b)[1..] == a[1..] + b;
      UnlinesAppend(a[1..], b);
    }
  }

  lemma SplitLine(line: string, rest: string)
    requires NEWLINE !in line
    ensures Split(line + [NEWLINE] + rest) == [line] + Split(rest)
  {
    var text := line + [NEWLINE] + rest;
    assert text[..|line|] == line && text[|line|] == NEWLINE;
    IndexOfIs(text, NEWLINE, |line|);
    assert text[|line| + 1..] == rest;
  }

  lemma {:induction false} SplitUnlines(lines: seq<string>, tail: string)
    requires forall l :: l in lines ==> NEWLINE !in l
    ensures Split(Unlines(lines) + tail) == lines + Split(tail)
  {
    hide Split;
    if lines == [] {
      assert Unlines(lines) + tail == tail && lines + Split(tail) == Split(tail);
    } else {
      var rest := Unlines(lines[1..]) + tail;
      assert Unlines(lines) + tail == lines[0] + [NEWLINE] + rest;
      SplitLine(lines[0], rest);
      SplitUnlines(lines[1..], tail);
      assert lines + Split(tail) == [lines[0]] + (lines[1..] + Split(tail));
    }
  }

  // ------------------------------------------------------------------ numbers

  function Digit(d: nat): char
    requires d < 10
  {
    ['0', '1', '2', '3', '4', '5', '6', '7', '8', '9'][d]
  }

  function DigitValue(c: char): nat
    requires IsDigit(c)
  {
    c as nat - '0' as nat
  }

  function Digits(n: nat): (s: string)
    ensures s != "" && forall c :: c in s ==> IsDigit(c)
  {
    if n < 10 then [Digit(n)] else Digits(n / 10) + [Digit(n % 10)]
  }

  /** printf "%d" */
  function Decimal(n: int): string {
    if n < 0 then "-" + Digits(-n) else Digits(n)
  }

  predicate IsSpace(c: char) {
    c in {' ', '\t', '\n', '\r', '\U{000B}', '\U{000C}'}
  }

  function SkipSpace(s: string): (r: string)
    ensures |r| <= |s|
  {
    if s != "" && IsSpace(s[0]) then SkipSpace(s[1..]) else s
  }

  function LeadingValue(s: string, acc: nat): nat {
    if s != "" && IsDigit(s[0]) then LeadingValue(s[1..], 10 * acc + DigitValue(s[0])) else acc
  }

  /** atol, without overflow */
  function Atol(s: string): int {
    var t := SkipSpace(s);
    if "-" <= t then -(LeadingValue(t[1..], 0) as int)
    else if "+" <= t then LeadingValue(t[1..], 0)
    else LeadingValue(t, 0)
  }

  /** sscanf "%d": an optionally signed number after white space, and the rest. */
  function ScanInt(s: string): Option<(int, string)> {
    var t := SkipSpace(s);
    var u := if "-" <= t || "+" <= t then t[1..] else t;
    if u == "" || !IsDigit(u[0]) then None
    else
      var v := LeadingValue(u, 0);
      Some((if "-" <= t then 0 - v as int else v as int, AfterDigits(u)))
  }

  function AfterDigits(s: string): string {
    if s != "" && IsDigit(s[0]) then AfterDigits(s[1..]) else s
  }

  /** A printed number in front of anything but a digit is read back. */
  lemma ScanDecimal(n: int, rest: string)
    requires rest == "" || !IsDigit(rest[0])
    ensures ScanInt(Decimal(n) + rest) == Some((n, rest))
  {
    var ds := Digits(if n < 0 then -n else n);
    var t := Decimal(n) + rest;
    assert IsDigit(ds[0]) && SkipSpace(t) == t;
    DigitsValue(if n < 0 then -n else n);
    DigitsThen(ds, rest, 0);
    if n < 0 {
      assert t[1..] == ds + rest;
    } else {
      assert t == ds + rest && t[0] != '-' && t[0] != '+';
    }
  }

  lemma {:induction false} DigitsThen(ds: string, rest: string, acc: nat)
    requires (forall d :: d in ds ==> IsDigit(d)) && (rest == "" || !IsDigit(rest[0]))
    ensures LeadingValue(ds + rest, acc) == LeadingValue(ds, acc) && AfterDigits(ds + rest) == rest
    decreases ds
  {
    if ds == "" {
      assert ds + rest == rest;
    } else {
      assert (ds + rest)[1..] == ds[1..] + rest;
      DigitsThen(ds[1..], rest, 10 * acc + DigitValue(ds[0]));
    }
  }

  lemma {:induction false} LeadingValueAppend(a: string, c: char, acc: nat)
    requires IsDigit(c) && forall d :: d in a ==> IsDigit(d)
    ensures LeadingValue(a + [c], acc) == 10 * LeadingValue(a, acc) + DigitValue(c)
    decreases a
  {
    if a == "" {
      assert a + [c] == [c] && [c][1..] == "";
    } else {
      assert (a + [c])[1..] == a[1..] + [c];
      LeadingValueAppend(a[1..], c, 10 * acc + DigitValue(a[0]));
    }
  }

  lemma {:induction false} DigitsValue(n: nat)
    ensures LeadingValue(Digits(n), 0) == n
  {
    if n >= 10 {
      DigitsValue(n / 10);
      LeadingValueAppend(Digits(n / 10), Digit(n % 10), 0);
    } else {
      assert [Digit(n)][1..] == "";
    }
  }

  lemma AtolDecimal(n: int)
    ensures Atol(Decimal(n)) == n
  {
    var t := Decimal(n);
    var ds := Digits(if n < 0 then -n else n);
    assert IsDigit(ds[0]);
    assert SkipSpace(t) == t;
    if n < 0 {
      DigitsValue(-n);
      assert t[1..] == ds;
    } else {
      DigitsValue(n);
      assert t[0] != '-' && t[0] != '+';
    }
  }
}
