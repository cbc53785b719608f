/** The loops of src/crash_recovery.c: write_checkpoint_to_fd, the line parser and
    the merges of checkpoint_restore, each computing its specification. */
module CheckpointCode {
  import opened Text
  import opened Checkpoint
  import Crc32

  /** The append buffer of write_checkpoint_to_fd. */
  class Buffer {
    var text: string

    constructor ()
      ensures text == ""
    {
      text := "";
    }

    method Append(piece: string) returns (ok: bool)
      modifies this
      ensures ok == (|old(text)| + |piece| < 0x40_0000)
      ensures text == if ok then old(text) + piece else old(text)
    {
      ok := |text| + |piece| < WRITE_CAP;
      if ok {
        text := text + piece;
      }
    }
  }

  method EscapeLine(src: string) returns (escaped: string)
    ensures escaped == EscapeInto(src, 0)
  {
    escaped := "";
    var i := 0;
    while i < |src| && |escaped| < ESCAPE_ROOM
      invariant i <= |src|
      invariant escaped + EscapeInto(src[i..], |escaped|) == EscapeInto(src, 0)
    {
      EscapeStep(src, i, escaped);
      hide EscapeInto;
      escaped := escaped + (if src[i] == NEWLINE then "\\n" else [src[i]]);
      i := i + 1;
    }
    assert EscapeInto(src[i..], |escaped|) == "";
  }

  lemma EscapeStep(src: string, i: nat, escaped: string)
    requires i < |src| && |escaped| < ESCAPE_ROOM
    ensures var e := escaped + (if src[i] == NEWLINE then "\\n" else [src[i]]);
            escaped + EscapeInto(src[i..], |escaped|) == e + EscapeInto(src[i + 1..], |e|)
  {
    assert src[i..][0] == src[i] && src[i..][1..] == src[i + 1..];
    var piece := if src[i] == NEWLINE then "\\n" else [src[i]];
    Assoc(escaped, piece, EscapeInto(src[i + 1..], |escaped + piece|));
  }

  lemma UnlinesCons(line: string, rest: seq<string>)
    ensures Unlines([line] + rest) == line + [NEWLINE] + Unlines(rest)
  {
    assert ([line] + rest)[1..] == rest;
  }

  /** write_checkpoint_to_fd, up to the fwrite. */
  method WriteCheckpoint(s: Snapshot, table: Crc32.Table) returns (r: Option<string>)
    requires table.Valid()
    ensures r == Write(s)
  {
    hide Unlines, Header, EnvLines, AliasLines, JobLines, Take, Hex, Body, Bytes, Crc32.Crc, BodyLines;
    BodyParts(s);
    var b := new Buffer();
    var ok := b.Append(Unlines(Header(s)));
    if !ok {
      return None;
    }
    ok := AppendEnv(b, Take(s.env, MAX_ENV));
    if !ok {
      return None;
    }
    ok := AppendAliases(b, Take(s.aliases, MAX_SAVED_ALIASES));
    if !ok {
      return None;
    }
    ok := AppendJobs(b, Take(s.jobs, MAX_JOBS));
    if !ok {
      return None;
    }
    assert b.text == Body(s);
    var crc := table.Compute(Bytes(b.text));
    ok := b.Append(CHECK_TAG + Hex(crc as nat, 8) + [NEWLINE]);
    if !ok {
      return None;
    }
    return Some(b.text);
  }

  lemma BodyParts(s: Snapshot)
    ensures Body(s) == Unlines(Header(s)) + Unlines(EnvLines(Take(s.env, MAX_ENV)))
                       + Unlines(AliasLines(Take(s.aliases, MAX_SAVED_ALIASES)))
                       + Unlines(JobLines(Take(s.jobs, MAX_JOBS)))
  {
    var h, e := Header(s), EnvLines(Take(s.env, MAX_ENV));
    var a, j := AliasLines(Take(s.aliases, MAX_SAVED_ALIASES)), JobLines(Take(s.jobs, MAX_JOBS));
    UnlinesAppend(h + e + a, j);
    UnlinesAppend(h + e, a);
    UnlinesAppend(h, e);
  }

  lemma EnvStep(env: seq<string>, i: nat)
    requires i < |env|
    ensures |env[i]| > MAX_ENTRY ==> EnvLines(env[i..]) == EnvLines(env[i + 1..])
    ensures |env[i]| <= MAX_ENTRY ==>
              && EnvLines(env[i..]) != []
              && Unlines(EnvLines(env[i..])) ==
                 "ENV=" + EscapeInto(env[i], 0) + [NEWLINE] + Unlines(EnvLines(env[i + 1..]))
  {
    assert env[i..][0] == env[i] && env[i..][1..] == env[i + 1..];
    UnlinesCons("ENV=" + EscapeInto(env[i], 0), EnvLines(env[i + 1..]));
  }

  lemma AliasStep(aliases: seq<Alias>, i: nat)
    requires i < |aliases|
    ensures Unlines(AliasLines(aliases[i..])) ==
            "ALIAS=" + aliases[i].name + "=" + aliases[i].value + [NEWLINE] + Unlines(AliasLines(aliases[i + 1..]))
  {
    assert aliases[i..][0] == aliases[i] && aliases[i..][1..] == aliases[i + 1..];
    UnlinesCons("ALIAS=" + aliases[i].name + "=" + aliases[i].value, AliasLines(aliases[i + 1..]));
  }

  method AppendEnv(b: Buffer, env: seq<string>) returns (ok: bool)
    modifies b
    ensures ok == (|old(b.text)| + |Unlines(EnvLines(env))| < WRITE_CAP || EnvLines(env) == [])
    ensures ok ==> b.text == old(b.text) + Unlines(EnvLines(env))
  {
    ghost var goal := b.text + Unlines(EnvLines(env));
    var i := 0;
    while i < |env|
      invariant i <= |env|
      invariant goal == b.text + Unlines(EnvLines(env[i..]))
      invariant EnvLines(env) == [] ==> EnvLines(env[i..]) == []
      invariant EnvLines(env) == [] || EnvLines(env[i..]) != [] || |goal| < WRITE_CAP
    {
      EnvStep(env, i);
      hide EnvLines, Unlines, EscapeInto;
      if |env[i]| <= MAX_ENTRY {
        var escaped := EscapeLine(env[i]);
        Assoc(b.text, "ENV=" + escaped + [NEWLINE], Unlines(EnvLines(env[i + 1..])));
        ok := b.Append("ENV=" + escaped + [NEWLINE]);
        if !ok {
          return;
        }
      }
      i := i + 1;
    }
    return true;
  }

  method AppendAliases(b: Buffer, aliases: seq<Alias>) returns (ok: bool)
    modifies b
    ensures ok == (|old(b.text)| + |Unlines(AliasLines(aliases))| < WRITE_CAP || aliases == [])
    ensures ok ==> b.text == old(b.text) + Unlines(AliasLines(aliases))
  {
    ghost var goal := b.text + Unlines(AliasLines(aliases));
    var i := 0;
    while i < |aliases|
      invariant i <= |aliases|
      invariant goal == b.text + Unlines(AliasLines(aliases[i..]))
      invariant i > 0 ==> |b.text| < WRITE_CAP
    {
      AliasStep(aliases, i);
      hide AliasLines, Unlines;
      var line := "ALIAS=" + aliases[i].name + "=" + aliases[i].value + [NEWLINE];
      Assoc(b.text, line, Unlines(AliasLines(aliases[i + 1..])));
      ok := b.Append(line);
      if !ok {
        return;
      }
      i := i + 1;
    }
    return true;
  }

  lemma JobStep(jobs: seq<Job>, i: nat)
    requires i < |jobs|
    ensures !jobs[i].active ==> JobLines(jobs[i..]) == JobLines(jobs[i + 1..])
    ensures jobs[i].active ==>
              && JobLines(jobs[i..]) != []
              && Unlines(JobLines(jobs[i..])) ==
                 "JOB=" + JobText(jobs[i]) + [NEWLINE] + Unlines(JobLines(jobs[i + 1..]))
  {
    assert jobs[i..][0] == jobs[i] && jobs[i..][1..] == jobs[i + 1..];
    UnlinesCons("JOB=" + JobText(jobs[i]), JobLines(jobs[i + 1..]));
  }

  method AppendJobs(b: Buffer, jobs: seq<Job>) returns (ok: bool)
    modifies b
    ensures ok == (|old(b.text)| + |Unlines(JobLines(jobs))| < WRITE_CAP || JobLines(jobs) == [])
    ensures ok ==> b.text == old(b.text) + Unlines(JobLines(jobs))
  {
    ghost var goal := b.text + Unlines(JobLines(jobs));
    var i := 0;
    while i < |jobs|
      invariant i <= |jobs|
      invariant goal == b.text + Unlines(JobLines(jobs[i..]))
      invariant JobLines(jobs) == [] ==> JobLines(jobs[i..]) == []
      invariant JobLines(jobs) == [] || JobLines(jobs[i..]) != [] || |goal| < WRITE_CAP
    {
      JobStep(jobs, i);
      hide JobLines, Unlines, JobText;
      if jobs[i].active {
        var line := "JOB=" + JobText(jobs[i]) + [NEWLINE];
        Assoc(b.text, line, Unlines(JobLines(jobs[i + 1..])));
        ok := b.Append(line);
        if !ok {
          return;
        }
      }
      i := i + 1;
    }
    return true;
  }

  /** The line at pos, and where the next one starts. */
  method LineAt(text: string, pos: nat) returns (line: string, next: nat)
    requires pos < |text|
    ensures pos < next <= |text| && Split(text[pos..]) == [line] + Split(text[next..])
  {
    SplitAtPos(text, pos);
    hide Split;
    var len := IndexOf(text[pos..], NEWLINE);
    line := text[pos..][..len];
    next := if pos + len < |text| then pos + len + 1 else pos + len;
  }

  /** The line loop of checkpoint_restore. */
  method ParseText(text: string, myPid: int) returns (p: Parsed)
    ensures p == Parse(Split(text), myPid)
  {
    hide *;
    var f := NO_FIELDS;
    var pos, lineNum := 0, 0;
    SplitNone();
    assert text[0..] == text;
    while pos < |text|
      invariant 0 <= pos <= |text|
      invariant lineNum == 0 ==> pos == 0 && f == NO_FIELDS
      invariant lineNum == 0 ==> Parse(Split(text), myPid) == Parse(Split(text[pos..]), myPid)
      invariant lineNum > 0 ==> Parse(Split(text), myPid) == ParseLines(Split(text[pos..]), f, myPid)
      decreases |text| - pos
    {
      var line, next := LineAt(text, pos);
      ParseStep(line, Split(text[next..]), f, myPid);
      if lineNum == 0 {
        if line != MAGIC {
          return BadMagic;
        }
      } else {
        if TagOf(line) == PidTag && Atol(line[4..]) == myPid {
          return SamePid;
        }
        if TagOf(line) == CheckTag {
          return Parsed(f);
        }
        f := TakeField(line, f);
      }
      pos := next;
      lineNum := lineNum + 1;
    }
    assert text[pos..] == "";
    ParseNone(f, myPid);
    return Parsed(f);
  }

  lemma ParseNone(f: Fields, myPid: int)
    ensures Parse([], myPid) == Parsed(NO_FIELDS) && ParseLines([], f, myPid) == Parsed(f)
  {}

  lemma ParseStep(line: string, rest: seq<string>, f: Fields, myPid: int)
    ensures Parse([line] + rest, myPid) == if line != MAGIC then BadMagic else ParseLines(rest, NO_FIELDS, myPid)
    ensures ParseLines([line] + rest, f, myPid) ==
            if TagOf(line) == CheckTag then Parsed(f)
            else if TagOf(line) == PidTag && Atol(line[4..]) == myPid then SamePid
            else ParseLines(rest, TakeField(line, f), myPid)
  {
    assert ([line] + rest)[1..] == rest;
    hide TagOf, TakeField, Atol;
  }

  lemma SplitAtPos(text: string, pos: nat)
    requires pos < |text|
    ensures var len := IndexOf(text[pos..], NEWLINE);
            var next := if pos + len < |text| then pos + len + 1 else pos + len;
            && Split(text[pos..]) != []
            && Split(text[pos..])[0] == text[pos..][..len] && Split(text[pos..])[1..] == Split(text[next..])
  {
    hide Split, IndexOf;
    var rest := text[pos..];
    var len := IndexOf(rest, NEWLINE);
    SplitStep(rest);
    if pos + len < |text| {
      Suffixes(text, pos, pos + len + 1);
    } else {
      SplitNone();
      assert text[pos + len..] == "";
    }
  }

  lemma Suffixes(s: string, i: nat, j: nat)
    requires i <= j <= |s|
    ensures s[i..][j - i..] == s[j..]
  {}

  lemma SplitNone()
    ensures Split("") == []
  {}

  lemma SplitStep(text: string)
    requires text != ""
    ensures var i := IndexOf(text, NEWLINE);
            && Split(text) != [] && Split(text)[0] == text[..i]
            && Split(text)[1..] == if i == |text| then [] else Split(text[i + 1..])
  {}

  method IsOverridden(entry: string, restored: seq<string>) returns (found: bool)
    ensures found == Overridden(entry, restored)
  {
    var j := 0;
    while j < |restored|
      invariant j <= |restored|
      invariant forall k :: 0 <= k < j ==> !SameKey(entry, restored[k])
    {
      if SameKey(entry, restored[j]) {
        return true;
      }
      j := j + 1;
    }
    return false;
  }

  /** The environment merge of checkpoint_restore. */
  method MergeEnvironment(env: seq<string>, restored: seq<string>) returns (merged: seq<string>)
    ensures merged == MergeEnv(env, restored)
  {
    hide Overridden, SameKey;
    if |restored| == 0 {
      return env;
    }
    merged := [];
    var i := 0;
    while i < |env|
      invariant i <= |env|
      invariant merged + Kept(env[i..], restored) == Kept(env, restored)
    {
      assert env[i..][0] == env[i] && env[i..][1..] == env[i + 1..];
      var overridden := IsOverridden(env[i], restored);
      if !overridden {
        Assoc(merged, [env[i]], Kept(env[i + 1..], restored));
        merged := merged + [env[i]];
      }
      i := i + 1;
    }
    assert env[i..] == [] && merged + [] == merged;
    merged := merged + restored;
  }

  /** The alias table after the restore. */
  method MergeAliasTable(aliases: seq<Alias>, restored: seq<Alias>) returns (merged: seq<Alias>)
    ensures merged == MergeAliases(aliases, restored)
  {
    merged := aliases;
    var i := 0;
    while i < |restored|
      invariant i <= |restored|
      invariant MergeAliases(merged, restored[i..]) == MergeAliases(aliases, restored)
    {
      assert restored[i..][0] == restored[i] && restored[i..][1..] == restored[i + 1..];
      if !Defines(merged, restored[i].name) && |merged| < MAX_ALIASES {
        merged := merged + [restored[i]];
      }
      i := i + 1;
    }
  }

  /** checkpoint_restore */
  method RestoreCheckpoint(file: Option<string>, myPid: int, env: seq<string>, aliases: seq<Alias>,
                           table: Crc32.Table) returns (r: Restored)
    requires table.Valid()
    ensures r == Restore(file, myPid, env, aliases)
  {
    hide Find, IndexOf, ScanHex, SkipBlankLines, Split, Parse, MergeEnv, MergeAliases, Bytes, CString;
    if file.None? {
      return NoFile;
    }
    var content := file.value;
    if |content| == 0 || |content| > READ_CAP {
      return Corrupt;
    }
    var raw := CString(content);
    var mark := Find(raw, CHECK_MARK);
    if mark.None? {
      return Corrupt;
    }
    var footer := raw[mark.value + 1..];
    var stored := ScanHex(footer[9..]);
    if stored.None? {
      return Corrupt;
    }
    var eol := IndexOf(footer, NEWLINE);
    if eol == |footer| || SkipBlankLines(footer[eol + 1..]) != "" {
      return Corrupt;
    }
    var computed := table.Compute(Bytes(raw[..mark.value + 1]));
    if computed as nat != stored.value {
      return Corrupt;
    }
    var parsed := ParseText(raw, myPid);
    match parsed {
      case BadMagic => r := Corrupt;
      case SamePid => r := Stale;
      case Parsed(f) =>
        var env' := MergeEnvironment(env, f.env);
        var aliases' := MergeAliasTable(aliases, f.aliases);
        r := Applied(f.cwd, env', aliases', f.jobs);
    }
  }
}
