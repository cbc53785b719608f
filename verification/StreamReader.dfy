/** The buffered line reader of src/streaming_sub.c, and its registry of open streams. */
module StreamReader {
  import opened Text

  const LINE_LIMIT: nat := 4095
  const BUFFER_SIZE: nat := 4096

  // ----------------------------------------------------------- the lines of a stream

  /** The bytes read() delivers: up to its first empty answer, end of file or error. */
  function Delivered(chunks: seq<string>): string {
    if chunks == [] || chunks[0] == "" then "" else chunks[0] + Delivered(chunks[1..])
  }

  function WithoutReturns(s: string): string {
    if s == "" then "" else (if s[0] == '\r' then "" else [s[0]]) + WithoutReturns(s[1..])
  }

  /** What the line buffer takes of a line. */
  function Kept(s: string): (k: string)
    ensures k <= WithoutReturns(s) && |k| <= 4095
    ensures k == WithoutReturns(s) || |k| == 4095
  {
    Take(WithoutReturns(s), LINE_LIMIT)
  }

  /** A line as the reader hands it out: a copy of the buffer up to its first NUL. */
  function Clean(s: string): string {
    CString(Kept(s))
  }

  function CleanAll(segments: seq<string>): seq<string> {
    if segments == [] then [] else [Clean(segments[0])] + CleanAll(segments[1..])
  }

  /** All lines of a stream, cleaned; what follows the last newline counts only if
      something is left of it. */
  function Lines(stream: string): seq<string>
    decreases |stream|
  {
    var k := IndexOf(stream, NEWLINE);
    if k < |stream| then [Clean(stream[..k])] + Lines(stream[k + 1..])
    else if Kept(stream) == "" then []
    else [Clean(stream)]
  }

  /** What one call returns when these bytes remain. */
  function NextLine(remaining: string): Option<string> {
    var k := IndexOf(remaining, NEWLINE);
    if k == |remaining| && Kept(remaining) == "" then None else Some(Clean(remaining[..k]))
  }

  /** What remains after that call. */
  function RestAfter(remaining: string): (r: string)
    ensures |r| <= |remaining|
  {
    var k := IndexOf(remaining, NEWLINE);
    if k == |remaining| then "" else remaining[k + 1..]
  }

  lemma LinesStep(remaining: string)
    ensures NextLine(remaining) == None ==> Lines(remaining) == []
    ensures NextLine(remaining).Some? ==>
              Lines(remaining) == [NextLine(remaining).value] + Lines(RestAfter(remaining))
    ensures NextLine(remaining).Some? ==> |RestAfter(remaining)| < |remaining|
  {
    hide Clean, Kept;
    var k := IndexOf(remaining, NEWLINE);
    KeptOfNothing();
    if k == |remaining| {
      assert remaining[..k] == remaining;
      assert Lines("") == [];
    }
  }

  lemma KeptOfNothing()
    ensures Kept("") == "" && WithoutReturns("") == ""
  {}

  /** A stream of terminated lines, of any lengths, and an unterminated rest: every line
      comes out cleaned, so an overlong one does not shift those after it. */
  lemma {:induction false} LinesOfUnlines(lines: seq<string>, tail: string)
    requires (forall l | l in lines :: NEWLINE !in l) && NEWLINE !in tail
    ensures Lines(Unlines(lines) + tail) == CleanAll(lines) + (if Kept(tail) == "" then [] else [Clean(tail)])
    decreases lines
  {
    hide Clean, Kept;
    if lines == [] {
      assert Unlines(lines) + tail == tail;
      IndexOfIs(tail, NEWLINE, |tail|);
    } else {
      var line, rest := lines[0], Unlines(lines[1..]) + tail;
      var stream := Unlines(lines) + tail;
      assert stream == line + ([NEWLINE] + rest);
      assert line in lines && forall l | l in lines[1..] :: l in lines;
      LinesOfUnlines(lines[1..], tail);
      Terminated(stream, line, rest);
      LinesStep(stream);
      Assoc([Clean(line)], CleanAll(lines[1..]), if Kept(tail) == "" then [] else [Clean(tail)]);
    }
  }

  /** Two ways of cutting the same bytes into answers deliver the same lines. */
  lemma {:induction false} DeliveredIsConcat(chunks: seq<string>)
    requires "" !in chunks
    ensures Delivered(chunks) == Concat(chunks)
  {
    if chunks != [] {
      assert chunks[0] in chunks && forall c | c in chunks[1..] :: c in chunks;
      DeliveredIsConcat(chunks[1..]);
    }
  }

  // ------------------------------------------------------------------- the reader

  class StreamSub {
    const buffer: array<char>
    var bufPos: nat
    var bufLen: nat
    var eof: bool
    /** The answers read() still has to give; an empty one is end of file or an error. */
    var chunks: seq<string>

    ghost predicate Valid()
      reads this, buffer
    {
      && buffer.Length == BUFFER_SIZE && bufPos <= bufLen <= BUFFER_SIZE
      && forall c | c in chunks :: |c| <= BUFFER_SIZE
    }

    /** The bytes not yet handed out. */
    ghost function Remaining(): string
      reads this, buffer
      requires Valid()
    {
      if eof then "" else buffer[bufPos..bufLen] + Delivered(chunks)
    }

    constructor (chunks: seq<string>)
      requires forall c | c in chunks :: |c| <= BUFFER_SIZE
      ensures Valid() && fresh(buffer) && !eof && Remaining() == Delivered(chunks)
    {
      buffer := new char[BUFFER_SIZE];
      bufPos, bufLen, eof := 0, 0, false;
      this.chunks := chunks;
    }

    /** read() into the buffer. */
    method Fill() returns (n: nat)
      requires Valid() && !eof && bufPos == bufLen
      modifies this, buffer
      ensures Valid() && !eof && Remaining() == old(Remaining())
      ensures n == 0 ==> Remaining() == ""
      ensures n > 0 ==> bufPos < bufLen
    {
      if chunks == [] || chunks[0] == "" {
        n := 0;
        assert buffer[bufPos..bufLen] == "";
        return;
      }
      var chunk := chunks[0];
      assert chunk in chunks;
      n := |chunk|;
      forall i | 0 <= i < n {
        buffer[i] := chunk[i];
      }
      bufLen, bufPos := n, 0;
      chunks := chunks[1..];
      assert buffer[..n] == chunk;
      assert old(buffer[bufPos..bufLen]) == "";
    }

    /** The next byte, or end of file. */
    method NextByte() returns (c: Option<char>)
      requires Valid() && !eof
      modifies this, buffer
      ensures Valid()
      ensures c == None ==> eof && old(Remaining()) == "" && Remaining() == ""
      ensures c.Some? ==> !eof && old(Remaining()) == [c.value] + Remaining()
    {
      if bufPos == bufLen {
        var n := Fill();
        if n == 0 {
          eof := true;
          return None;
        }
      }
      c := Some(buffer[bufPos]);
      assert buffer[bufPos..bufLen] == [buffer[bufPos]] + buffer[bufPos + 1..bufLen];
      bufPos := bufPos + 1;
      Assoc([buffer[bufPos - 1]], buffer[bufPos..bufLen], Delivered(chunks));
    }

    /** stream_sub_read_line */
    method ReadLine() returns (r: Option<string>)
      requires Valid()
      modifies this, buffer
      ensures Valid()
      ensures r == (if old(eof) then None else NextLine(old(Remaining())))
      ensures Remaining() == RestAfter(old(Remaining()))
      ensures r == None ==> eof
    {
      ghost var before := Remaining();
      NoLines();
      assert before == "" ==> RestAfter(before) == "";
      if eof {
        return None;
      }
      hide Clean, Kept, NextLine, RestAfter, WithoutReturns, Delivered, CString;
      var line := "";
      KeptOfNothing();
      ghost var read := "";
      while |line| < LINE_LIMIT
        invariant Valid() && !eof && before == read + Remaining()
        invariant NEWLINE !in read && line == WithoutReturns(read) == Kept(read) && |line| <= LINE_LIMIT
        decreases |Remaining()|
      {
        var c := NextByte();
        if c == None {
          Unterminated(before, read);
          if line != "" {
            return Some(CString(line));
          }
          return None;
        }
        if c.value == NEWLINE {
          Terminated(before, read, Remaining());
          return Some(CString(line));
        }
        KeptAppend(read, c.value);
        if c.value != '\r' {
          line := line + [c.value];
        }
        Assoc(read, [c.value], Remaining());
        read := read + [c.value];
      }
      while true
        invariant Valid() && !eof && before == read + Remaining()
        invariant NEWLINE !in read && line == Kept(read) && |line| == LINE_LIMIT
        decreases |Remaining()|
      {
        var c := NextByte();
        if c == None {
          Unterminated(before, read);
          return Some(CString(line));
        }
        if c.value == NEWLINE {
          Terminated(before, read, Remaining());
          return Some(CString(line));
        }
        KeptAppend(read, c.value);
        Assoc(read, [c.value], Remaining());
        read := read + [c.value];
      }
    }

    /** Reading until NULL, as a streaming while loop does. */
    method Drain() returns (lines: seq<string>)
      requires Valid()
      modifies this, buffer
      ensures Valid() && eof && lines == Lines(old(Remaining()))
    {
      hide NextLine, RestAfter, Lines;
      lines := [];
      var more := true;
      assert eof ==> Lines(Remaining()) == [] by { NoLines(); }
      while more
        invariant Valid() && (more || eof)
        invariant Lines(old(Remaining())) == lines + (if more then Lines(Remaining()) else [])
        decreases more, |Remaining()|
      {
        LinesStep(Remaining());
        NoLines();
        ghost var before := Remaining();
        var r := ReadLine();
        if r == None {
          more := false;
        } else {
          Assoc(lines, [r.value], Lines(RestAfter(before)));
          lines := lines + [r.value];
        }
      }
    }
  }

  lemma NoLines()
    ensures Lines("") == [] && NextLine("") == None
  {
    assert Kept("") == "";
  }

  lemma {:induction false} WithoutReturnsAppend(s: string, c: char)
    ensures WithoutReturns(s + [c]) == WithoutReturns(s) + (if c == '\r' then "" else [c])
  {
    if s == "" {
      assert (s + [c])[1..] == "";
    } else {
      assert (s + [c])[1..] == s[1..] + [c];
      WithoutReturnsAppend(s[1..], c);
    }
  }

  /** One more byte: dropped if a carriage return, or once the line is full. */
  lemma KeptAppend(s: string, c: char)
    ensures WithoutReturns(s + [c]) == WithoutReturns(s) + (if c == '\r' then "" else [c])
    ensures |Kept(s)| == LINE_LIMIT ==> Kept(s + [c]) == Kept(s)
    ensures |WithoutReturns(s + [c])| <= LINE_LIMIT ==> Kept(s + [c]) == WithoutReturns(s + [c])
  {
    WithoutReturnsAppend(s, c);
  }

  lemma Terminated(before: string, read: string, rest: string)
    requires before == read + ([NEWLINE] + rest) && NEWLINE !in read
    ensures NextLine(before) == Some(CString(Kept(read))) && RestAfter(before) == rest
  {
    assert before[..|read|] == read && before[|read|] == NEWLINE && before[|read| + 1..] == rest;
    IndexOfIs(before, NEWLINE, |read|);
  }

  lemma Unterminated(before: string, read: string)
    requires before == read + "" && NEWLINE !in read
    ensures RestAfter(before) == ""
    ensures NextLine(before) == if Kept(read) == "" then None else Some(CString(Kept(read)))
  {
    assert before == read && read[..|read|] == read;
    IndexOfIs(before, NEWLINE, |read|);
  }

  // ----------------------------------------------------------------- the registry

  const MAX_STREAMS: nat := 32

  /** The open streams, by handle, so that all can be closed on an interrupt. A stream
      beyond the limit stays open but unregistered. */
  class Registry {
    const slots: array<nat>
    var count: nat
    /** The handles closed so far, in order. */
    var closed: seq<nat>

    ghost predicate Valid()
      reads this, slots
    {
      slots.Length == MAX_STREAMS && count <= MAX_STREAMS && NoneTwice(Open())
    }

    ghost function Open(): seq<nat>
      reads this, slots
      requires count <= slots.Length
    {
      slots[..count]
    }

    constructor ()
      ensures Valid() && fresh(slots) && Open() == [] && closed == []
    {
      slots := new nat[MAX_STREAMS];
      count, closed := 0, [];
    }

    /** registry_add */
    method Add(h: nat)
      requires Valid() && h !in Open()
      modifies this`count, slots
      ensures Valid()
      ensures Open() == old(Open()) + (if old(count) < 32 then [h] else [])
    {
      if count < MAX_STREAMS {
        slots[count] := h;
        count := count + 1;
        assert slots[..count - 1] == old(slots[..count]);
      }
    }

    /** registry_remove: the last handle takes the removed one's place. */
    method Remove(h: nat)
      requires Valid()
      modifies this`count, slots
      ensures Valid() && closed == old(closed)
      ensures Open() == Swapped(old(Open()), h)
    {
      var i := 0;
      while i < count
        invariant i <= count && slots[..] == old(slots[..]) && count == old(count)
        invariant h !in slots[..i]
      {
        if slots[i] == h {
          SwappedAt(slots[..count], i);
          count := count - 1;
          slots[i] := slots[count];
          assert slots[..count] == old(slots[..count])[i := old(slots[count - 1])][..count];
          return;
        }
        assert slots[..i + 1] == slots[..i] + [slots[i]];
        i := i + 1;
      }
      SwappedAbsent(slots[..count], h);
    }

    /** stream_sub_close, as far as the registry sees it. */
    method Close(h: nat)
      requires Valid()
      modifies this, slots
      ensures Valid() && closed == old(closed) + [h] && Open() == Swapped(old(Open()), h)
    {
      closed := closed + [h];
      Remove(h);
    }

    /** stream_sub_close_all: every registered stream is closed, exactly once. */
    method CloseAll()
      requires Valid()
      modifies this, slots
      ensures Valid() && Open() == [] && closed == old(closed) + Reversed(old(Open()))
    {
      ghost var before := Open();
      var i := count;
      assert before[..i] == before && before[i..] == [];
      while i > 0
        invariant Valid() && i == count && i <= |before|
        invariant Open() == before[..i]
        invariant closed == old(closed) + Reversed(before[i..])
      {
        i := i - 1;
        var h := slots[i];
        assert Open()[i] == h == before[i];
        SwappedAt(Open(), i);
        ReversedStep(before, i);
        Assoc(closed, [h], []);
        Assoc(old(closed), Reversed(before[i + 1..]), [h]);
        Close(h);
        assert before[..i + 1][i := before[i]][..i] == before[..i];
      }
      assert before[0..] == before;
    }
  }

  predicate NoneTwice(s: seq<nat>) {
    forall i, j | 0 <= i < j < |s| :: s[i] != s[j]
  }

  /** The list without h, with its last element in the gap. */
  function Swapped(s: seq<nat>, h: nat): seq<nat> {
    if h !in s then s
    else
      var i := Place(s, h);
      s[i := s[|s| - 1]][..|s| - 1]
  }

  function Place(s: seq<nat>, h: nat): (i: nat)
    requires h in s
    ensures i < |s| && s[i] == h
  {
    if s[0] == h then 0 else 1 + Place(s[1..], h)
  }

  lemma SwappedAt(s: seq<nat>, i: nat)
    requires NoneTwice(s) && i < |s|
    ensures Swapped(s, s[i]) == s[i := s[|s| - 1]][..|s| - 1]
    ensures NoneTwice(Swapped(s, s[i]))
  {
    assert s[i] in s;
    assert Place(s, s[i]) == i;
  }

  lemma SwappedAbsent(s: seq<nat>, h: nat)
    requires h !in s
    ensures Swapped(s, h) == s
  {}

  /** Removing takes out that handle and no other. */
  lemma SwappedRemoves(s: seq<nat>, h: nat, x: nat)
    requires NoneTwice(s)
    ensures x in Swapped(s, h) <==> x in s && x != h
    ensures |Swapped(s, h)| == if h in s then |s| - 1 else |s|
  {
    if h in s {
      var i, n := Place(s, h), |s| - 1;
      var t := Swapped(s, h);
      if x in s && x != h {
        var k :| 0 <= k < |s| && s[k] == x;
        assert t[if k == n then i else k] == x;
      }
      if x in t {
        var k :| 0 <= k < |t| && t[k] == x;
        assert s[if k == i then n else k] == x;
      }
    }
  }

  function Reversed(s: seq<nat>): seq<nat> {
    if s == [] then [] else Reversed(s[1..]) + [s[0]]
  }

  lemma ReversedStep(s: seq<nat>, i: nat)
    requires i < |s|
    ensures Reversed(s[i..]) == Reversed(s[i + 1..]) + [s[i]]
  {
    assert s[i..][1..] == s[i + 1..];
  }
}
