/** The write-then-rename protocol of checkpoint_save_now and its background
    thread, as steps on a disk of inodes. A crash can fall between any two steps. */
module CheckpointSave {
  import opened Text
  import opened Checkpoint
  import opened CheckpointRoundTrip

  /** One save in progress: the open temporary file, how much of the text has been
      flushed, and whether fclose has returned. */
  datatype Writer =
    | Off
    | Opened(inode: nat)
    | Writing(inode: nat, s: Snapshot, written: nat)
    | Closed(inode: nat, s: Snapshot, written: nat)

  datatype Who = Main | Background

  /** The background thread: asleep in the timed wait, or holding the mutex. */
  datatype Thread = NotStarted | Waiting | Locked | Exited

  datatype State = State(
    data: map<nat, string>,       // inode contents
    nextInode: nat,
    tmp: Option<nat>,             // the two directory entries
    chk: Option<nat>,
    main: Writer,
    background: Writer,
    thread: Thread,
    running: bool,                // g_chk_running
    stopFlag: bool,               // g_chk_stop_flag
    joining: bool,                // the main thread is inside checkpoint_stop
    saved: set<Snapshot>          // snapshots whose rename has happened
  )

  datatype Step =
    | Open(who: Who)                   // fopen(tmp, "w")
    | Begin(who: Who, s: Snapshot)     // write_checkpoint_to_fd built its text
    | Put(who: Who, n: nat)            // n more bytes reach the file
    | Close(who: Who)                  // fclose, possibly after a short flush
    | Fail(who: Who)                   // any error path: unlink(tmp)
    | Rename(who: Who)                 // rename(tmp, chk)
    | Delete                           // checkpoint_delete
    | Start                            // checkpoint_start
    | Wake                             // the timed wait ends, mutex acquired
    | Sleep                            // the thread releases the mutex
    | RequestStop                      // checkpoint_stop sets the flag and signals
    | ThreadExit                       // the thread sees the flag
    | Join                             // checkpoint_stop returns

  function WriterOf(st: State, who: Who): Writer {
    if who == Main then st.main else st.background
  }

  function WithWriter(st: State, who: Who, w: Writer): State {
    if who == Main then st.(main := w) else st.(background := w)
  }

  /** A save by the thread needs the mutex it took when it woke; the main thread
      saves whenever it is not blocked in checkpoint_stop. */
  predicate MayAct(st: State, who: Who) {
    if who == Main then !st.joining else st.thread == Locked
  }

  predicate Enabled(st: State, step: Step) {
    match step
    case Open(who) => MayAct(st, who) && WriterOf(st, who).Off?
    case Begin(who, s) => MayAct(st, who) && WriterOf(st, who).Opened? && Write(s).Some?
    case Put(who, n) =>
      var w := WriterOf(st, who);
      MayAct(st, who) && w.Writing? && w.written + n <= |FileText(w.s)|
    case Close(who) => MayAct(st, who) && WriterOf(st, who).Writing?
    case Fail(who) => MayAct(st, who) && !WriterOf(st, who).Off?
    case Rename(who) => MayAct(st, who) && WriterOf(st, who).Closed? && st.tmp.Some?
    case Delete => !st.joining && st.main.Off?
    case Start => !st.joining && st.main.Off? && !st.running && st.thread in {NotStarted, Exited}
    case Wake => st.thread == Waiting && !st.stopFlag
    case Sleep => st.thread == Locked && st.background.Off?
    case RequestStop => st.running && !st.joining && st.main.Off? && st.thread != Locked
    case ThreadExit => st.thread == Waiting && st.stopFlag
    case Join => st.joining && st.thread == Exited
  }

  /** Writing at an offset into what the file holds now; a gap reads as NULs. */
  function Overlay(was: string, offset: nat, piece: string): string {
    var padded := if |was| < offset then was + seq(offset - |was|, i => NUL) else was;
    padded[..offset] + piece + (if offset + |piece| < |padded| then padded[offset + |piece|..] else "")
  }

  function Contents(st: State, inode: nat): string {
    if inode in st.data then st.data[inode] else ""
  }

  function Apply(st: State, step: Step): State
    requires Enabled(st, step)
  {
    match step
    case Open(who) =>
      var inode := if st.tmp.Some? then st.tmp.value else st.nextInode;
      var st1 := st.(data := st.data[inode := ""], tmp := Some(inode),
                        nextInode := if st.tmp.Some? then st.nextInode else st.nextInode + 1);
      WithWriter(st1, who, Opened(inode))
    case Begin(who, s) => WithWriter(st, who, Writing(WriterOf(st, who).inode, s, 0))
    case Put(who, n) =>
      var w := WriterOf(st, who);
      var piece := FileText(w.s)[w.written..w.written + n];
      var put := st.(data := st.data[w.inode := Overlay(Contents(st, w.inode), w.written, piece)]);
      WithWriter(put, who, Writing(w.inode, w.s, w.written + n))
    case Close(who) =>
      var w := WriterOf(st, who);
      WithWriter(st, who, Closed(w.inode, w.s, w.written))
    case Fail(who) => WithWriter(st.(tmp := None), who, Off)
    case Rename(who) =>
      var s := WriterOf(st, who).s;
      WithWriter(st.(chk := st.tmp, tmp := None, saved := st.saved + {s}), who, Off)
    case Delete => st.(chk := None)
    case Start => st.(thread := Waiting, running := true, stopFlag := false)
    case Wake => st.(thread := Locked)
    case Sleep => st.(thread := Waiting)
    case RequestStop => st.(stopFlag := true, joining := true)
    case ThreadExit => st.(thread := Exited)
    case Join => st.(running := false, joining := false)
  }

  /** Saves do not overlap: what holding the mutex around both would guarantee. */
  predicate Serialised(st: State, step: Step) {
    step.Open? ==> WriterOf(st, if step.who == Main then Background else Main).Off?
  }

  /** What the main thread could test before a save, and the thread before it wakes:
      that the other one is not in the middle of its own. */
  predicate Guarded(st: State, step: Step) {
    (step == Open(Main) ==> st.thread != Locked) && (step == Wake ==> st.main.Off?)
  }

  predicate IsRun(st: State, steps: seq<Step>)
    decreases steps
  {
    steps == [] || (Enabled(st, steps[0]) && IsRun(Apply(st, steps[0]), steps[1..]))
  }

  predicate IsSerialised(st: State, steps: seq<Step>)
    requires IsRun(st, steps)
    decreases steps
  {
    steps == [] || (Serialised(st, steps[0]) && IsSerialised(Apply(st, steps[0]), steps[1..]))
  }

  predicate IsGuarded(st: State, steps: seq<Step>)
    requires IsRun(st, steps)
    decreases steps
  {
    steps == [] || (Guarded(st, steps[0]) && IsGuarded(Apply(st, steps[0]), steps[1..]))
  }

  function After(st: State, steps: seq<Step>): State
    requires IsRun(st, steps)
    decreases steps
  {
    if steps == [] then st else After(Apply(st, steps[0]), steps[1..])
  }

  // ----------------------------------------------------------------- invariant

  /** The writer is the only user of the temporary file and has put a prefix of its
      text into it. */
  predicate WriterOk(st: State, w: Writer) {
    match w
    case Off => true
    case Opened(inode) => st.tmp == Some(inode) && Contents(st, inode) == ""
    case Writing(inode, s, n) =>
      st.tmp == Some(inode) && n <= |FileText(s)| && Contents(st, inode) == FileText(s)[..n] && Write(s).Some?
    case Closed(inode, s, n) =>
      st.tmp == Some(inode) && n <= |FileText(s)| && Contents(st, inode) == FileText(s)[..n] && Write(s).Some?
  }

  /** The checkpoint file holds a prefix of a saved snapshot's text. */
  ghost predicate ChkOk(st: State) {
    st.chk.Some? ==> exists s :: s in st.saved && Contents(st, st.chk.value) <= FileText(s) && Write(s).Some?
  }

  /** What every run keeps, overlapping saves included: the two directory entries are
      different files, the thread saves only while it holds the mutex, and the main thread
      does not while it waits for it. */
  predicate Base(st: State) {
    && (st.tmp.Some? ==> st.tmp.value < st.nextInode)
    && (st.chk.Some? ==> st.chk.value < st.nextInode && st.chk != st.tmp)
    && (!st.background.Off? ==> st.thread == Locked)
    && (st.joining ==> st.running && st.main.Off?)
    && (!st.running ==> st.thread in {NotStarted, Exited})
  }

  ghost predicate Inv(st: State) {
    && Base(st)
    && (st.main.Off? || st.background.Off?)
    && WriterOk(st, st.main) && WriterOk(st, st.background)
    && ChkOk(st)
  }

  /** A fresh process: no save open, no thread, and on disk whatever earlier
      serialised saves left. */
  ghost predicate Init(st: State) {
    && st.main.Off? && st.background.Off? && st.thread.NotStarted?
    && !st.running && !st.stopFlag && !st.joining
    && Base(st) && ChkOk(st)
  }

  lemma StepKeepsBase(st: State, step: Step)
    requires Base(st) && Enabled(st, step)
    ensures Base(Apply(st, step))
  {
    hide FileText, Write, Overlay;
  }

  lemma PutExtends(was: string, text: string, n: nat, k: nat)
    requires n + k <= |text| && was == text[..n]
    ensures Overlay(was, n, text[n..n + k]) == text[..n + k]
  {}

  lemma ChkKept(st: State, st': State)
    requires ChkOk(st) && st'.chk == st.chk && st.saved <= st'.saved
    requires st.chk.Some? ==> Contents(st', st.chk.value) == Contents(st, st.chk.value)
    ensures ChkOk(st')
  {
    if st.chk.Some? {
      var s :| s in st.saved && Contents(st, st.chk.value) <= FileText(s) && Write(s).Some?;
      assert s in st'.saved;
    }
  }

  lemma OpenKeepsInv(st: State, step: Step)
    requires Inv(st) && Enabled(st, step) && Serialised(st, step) && step.Open?
    ensures Inv(Apply(st, step))
  {
    hide FileText;
    ChkKept(st, Apply(st, step));
  }

  lemma PutKeepsInv(st: State, who: Who, n: nat)
    requires Inv(st) && Enabled(st, Put(who, n))
    ensures Inv(Apply(st, Put(who, n)))
  {
    hide FileText, Overlay;
    var w := WriterOf(st, who);
    PutExtends(Contents(st, w.inode), FileText(w.s), w.written, n);
    ChkKept(st, Apply(st, Put(who, n)));
  }

  lemma RenameKeepsInv(st: State, who: Who)
    requires Inv(st) && Enabled(st, Rename(who))
    ensures Inv(Apply(st, Rename(who)))
  {
    hide FileText;
    var st' := Apply(st, Rename(who));
    var w := WriterOf(st, who);
    assert w.s in st'.saved && Contents(st', st'.chk.value) <= FileText(w.s);
  }

  lemma OtherKeepsInv(st: State, step: Step)
    requires Inv(st) && Enabled(st, step) && !step.Open? && !step.Put? && !step.Rename?
    ensures Inv(Apply(st, step))
  {
    hide FileText;
    if !step.Delete? {
      ChkKept(st, Apply(st, step));
    }
  }

  /** Every serialised step keeps the invariant. */
  lemma StepKeepsInv(st: State, step: Step)
    requires Inv(st) && Enabled(st, step) && Serialised(st, step)
    ensures Inv(Apply(st, step))
  {
    hide Inv;
    match step
    case Open(_) => OpenKeepsInv(st, step);
    case Put(who, n) => PutKeepsInv(st, who, n);
    case Rename(who) => RenameKeepsInv(st, who);
    case _ => OtherKeepsInv(st, step);
  }

  lemma {:induction false} RunKeepsInv(st: State, steps: seq<Step>)
    requires Inv(st) && IsRun(st, steps) && IsSerialised(st, steps)
    ensures Inv(After(st, steps))
    decreases steps
  {
    if steps != [] {
      StepKeepsInv(st, steps[0]);
      RunKeepsInv(Apply(st, steps[0]), steps[1..]);
    }
  }

  // ------------------------------------------------------------------- results

  function FileOf(st: State): Option<string> {
    if st.chk.None? then None else Some(Contents(st, st.chk.value))
  }

  /** What a restore finds: nothing, a file it refuses, or the file of exactly one snapshot
      whose save had reached its rename, restored as a complete one. */
  ghost predicate SafeFile(st: State, myPid: int, env: seq<string>, aliases: seq<Alias>) {
    var r := Restore(FileOf(st), myPid, env, aliases);
    || (r == NoFile && st.chk.None?)
    || r == Corrupt
    || exists s :: s in st.saved && FileOf(st) == Some(FileText(s)) && IsRestored(r, s, myPid, env, aliases)
  }

  /** r is what a complete file of s restores to; a line of a field can make that stale, and
      without newlines in the fields only the process id does. */
  ghost predicate IsRestored(r: Restored, s: Snapshot, myPid: int, env: seq<string>, aliases: seq<Alias>) {
    && r == Restore(Write(s), myPid, env, aliases) && (r.Stale? || r.Applied?)
    && (Savable(s) ==> if s.pid == myPid then r.Stale? else r.Applied?)
  }

  /** Crash safety: wherever a serialised run stops, a restore finds a safe file, when no
      saved body has an early mark. */
  lemma CrashSafe(st: State, steps: seq<Step>, myPid: int, env: seq<string>, aliases: seq<Alias>)
    requires Init(st) && IsRun(st, steps) && IsSerialised(st, steps)
    requires forall s :: s in After(st, steps).saved ==> Clean(Body(s))
    ensures SafeFile(After(st, steps), myPid, env, aliases)
  {
    hide Restore, FileText, Clean, Body, IsRestored, IsRun, IsSerialised, After;
    RunKeepsInv(st, steps);
    var end := After(st, steps);
    if end.chk.None? {
      RestoreOfNothing(myPid, env, aliases);
    } else {
      var s :| s in end.saved && Contents(end, end.chk.value) <= FileText(s) && Write(s).Some?;
      RestoreOfPrefix(s, Contents(end, end.chk.value), myPid, env, aliases);
    }
  }

  /** The state in which a new process finds the disk after a crash. The name of the
      temporary file holds the process id, so an old one is seen only if that recurs. */
  function Fresh(st: State, sameName: bool): State {
    st.(main := Off, background := Off, thread := NotStarted, running := false, stopFlag := false, joining := false,
        tmp := if sameName then st.tmp else None)
  }

  lemma CrashLeavesInit(st: State, sameName: bool)
    requires Inv(st)
    ensures Init(Fresh(st, sameName)) && FileOf(Fresh(st, sameName)) == FileOf(st)
  {
    hide FileText;
    ChkKept(st, Fresh(st, sameName));
  }

  /** One process: its run up to the crash, and whether the next one has its id. */
  datatype Life = Life(steps: seq<Step>, sameName: bool)

  predicate IsHistory(st: State, lives: seq<Life>)
    decreases lives
  {
    lives == [] ||
    (IsRun(st, lives[0].steps) && IsSerialised(st, lives[0].steps) &&
     IsHistory(Fresh(After(st, lives[0].steps), lives[0].sameName), lives[1..]))
  }

  function AfterAll(st: State, lives: seq<Life>): State
    requires IsHistory(st, lives)
    decreases lives
  {
    if lives == [] then st else AfterAll(Fresh(After(st, lives[0].steps), lives[0].sameName), lives[1..])
  }

  /** After any number of processes, each crashing anywhere, the next one starts from a
      disk that crash safety covers. */
  lemma {:induction false} HistoryLeavesInit(st: State, lives: seq<Life>)
    requires Init(st) && IsHistory(st, lives)
    ensures Init(AfterAll(st, lives))
    decreases lives
  {
    hide IsRun, IsSerialised, After, FileText;
    if lives != [] {
      RunKeepsInv(st, lives[0].steps);
      CrashLeavesInit(After(st, lives[0].steps), lives[0].sameName);
      HistoryLeavesInit(Fresh(After(st, lives[0].steps), lives[0].sameName), lives[1..]);
    }
  }

  lemma RestoreOfNothing(myPid: int, env: seq<string>, aliases: seq<Alias>)
    ensures Restore(None, myPid, env, aliases) == NoFile
  {}

  lemma RestoreOfPrefix(s: Snapshot, text: string, myPid: int, env: seq<string>, aliases: seq<Alias>)
    requires Clean(Body(s)) && Write(s).Some? && text <= FileText(s)
    ensures var r := Restore(Some(text), myPid, env, aliases);
            r == Corrupt || (text == FileText(s) && IsRestored(r, s, myPid, env, aliases))
  {
    hide Restore, Savable, FileText, Clean, Body, SavedFields, MergeEnv, MergeAliases;
    if |text| < |FileText(s)| {
      assert text == FileText(s)[..|text|];
      StrictPrefixCorrupt(s, |text|, myPid, env, aliases);
    } else {
      assert text == FileText(s);
      RestoreOfClean(s, myPid, env, aliases);
      if Savable(s) {
        RestoreOfWrite(s, myPid, env, aliases);
      }
    }
  }

  /** Durability, in every run: what a restore will read changes only by a rename, a
      delete, or a write through a file that an overlapping save has renamed away. */
  lemma StepKeepsFile(st: State, step: Step)
    requires Base(st) && Enabled(st, step) && !step.Rename? && !step.Delete?
    requires step.Put? ==> st.chk != Some(WriterOf(st, step.who).inode)
    ensures FileOf(Apply(st, step)) == FileOf(st)
  {
    hide FileText, Overlay;
  }

  /** Without overlapping saves no writer ever holds the checkpoint file. */
  lemma WriterHoldsTemporary(st: State, who: Who)
    requires Inv(st) && !WriterOf(st, who).Off?
    ensures st.chk != Some(WriterOf(st, who).inode)
  {
    hide FileText;
  }

  /** A save whose bytes all reached the file is what a restore reads once renamed. */
  lemma RenamePublishes(st: State, who: Who)
    requires Inv(st) && Enabled(st, Rename(who)) && WriterOf(st, who).written == |FileText(WriterOf(st, who).s)|
    ensures FileOf(Apply(st, Rename(who))) == Write(WriterOf(st, who).s)
  {
    var w := WriterOf(st, who);
    assert FileText(w.s)[..w.written] == FileText(w.s);
  }

  predicate ByThread(step: Step) {
    (step.Open? || step.Begin? || step.Put? || step.Close? || step.Fail? || step.Rename?) && step.who == Background
  }

  lemma {:induction false} QuietUntilStart(st: State, steps: seq<Step>, i: nat)
    requires Base(st) && !st.running && IsRun(st, steps)
    requires i < |steps| && Start !in steps[..i]
    ensures !ByThread(steps[i]) && steps[i] !in {Wake, Sleep}
    decreases steps
  {
    hide Write, FileText;
    if i > 0 {
      assert steps[0] == steps[..i][0];
      StepKeepsBase(st, steps[0]);
      assert steps[1..][..i - 1] == steps[..i][1..];
      QuietUntilStart(Apply(st, steps[0]), steps[1..], i - 1);
    }
  }

  lemma SliceOfRest(steps: seq<Step>, j: nat, i: nat)
    requires j < i <= |steps|
    ensures steps[1..][j..i - 1] == steps[j + 1..i]
  {}

  /** In every run, overlapping saves or not: once checkpoint_stop has returned, and until
      the next start, the thread takes no step. */
  lemma {:induction false} NoThreadSaveAfterStop(st: State, steps: seq<Step>, j: nat, i: nat)
    requires Base(st) && IsRun(st, steps) && j < i < |steps|
    requires steps[j] == Join && Start !in steps[j + 1..i]
    ensures !ByThread(steps[i]) && steps[i] !in {Wake, Sleep}
    decreases steps
  {
    hide Write, FileText;
    StepKeepsBase(st, steps[0]);
    var rest := steps[1..];
    if j == 0 {
      assert rest[..i - 1] == steps[1..i];
      QuietUntilStart(Apply(st, Join), rest, i - 1);
    } else {
      SliceOfRest(steps, j, i);
      assert rest[j - 1] == Join;
      NoThreadSaveAfterStop(Apply(st, steps[0]), rest, j - 1, i - 1);
    }
  }

  lemma StopReturned(st: State)
    requires Base(st) && Enabled(st, Join)
    ensures Base(Apply(st, Join)) && !Apply(st, Join).running && Apply(st, Join).background.Off?
  {
    StepKeepsBase(st, Join);
  }

  // ------------------------------------------------------- what a caller can test

  /** A guarded run has no overlapping saves. */
  lemma {:induction false} GuardedIsSerialised(st: State, steps: seq<Step>)
    requires Base(st) && (st.thread == Locked ==> st.main.Off?) && IsRun(st, steps) && IsGuarded(st, steps)
    ensures IsSerialised(st, steps)
    decreases steps
  {
    hide Write, FileText;
    if steps != [] {
      StepKeepsBase(st, steps[0]);
      GuardedIsSerialised(Apply(st, steps[0]), steps[1..]);
    }
  }

  /** Any step that ignores the guard can be continued to an overlap. */
  lemma UnguardedOverlaps(st: State, step: Step) returns (rest: seq<Step>)
    requires Base(st) && Enabled(st, step) && !Guarded(st, step)
    ensures IsRun(st, [step] + rest) && !IsSerialised(st, [step] + rest)
  {
    hide Write, FileText;
    if step == Open(Main) && !st.background.Off? {
      rest := [];
    } else {
      rest := [Open(Background)];
      RunOne(Apply(st, step), Open(Background));
    }
    RunCons(st, step, rest);
  }

  /** Crash safety under the guard. */
  lemma GuardedCrashSafe(st: State, steps: seq<Step>, myPid: int, env: seq<string>, aliases: seq<Alias>)
    requires Init(st) && IsRun(st, steps) && IsGuarded(st, steps)
    requires forall s :: s in After(st, steps).saved ==> Clean(Body(s))
    ensures SafeFile(After(st, steps), myPid, env, aliases)
  {
    hide Restore, FileText, Clean, Body, IsRun, IsSerialised, After, SafeFile;
    GuardedIsSerialised(st, steps);
    CrashSafe(st, steps, myPid, env, aliases);
  }

  // ----------------------------------------------------- without a clean body

  /** A save of the main thread of which only the first k characters reach the disk. */
  function ShortSave(s: Snapshot, k: nat): seq<Step> {
    [Open(Main)] + ([Begin(Main, s)] + ([Put(Main, k)] + ([Close(Main)] + [Rename(Main)])))
  }

  lemma ShortSaveLeaves(st: State, s: Snapshot, k: nat)
    requires Init(st) && st.tmp.None? && Write(s).Some? && k <= |FileText(s)|
    ensures var steps := ShortSave(s, k);
            && IsRun(st, steps) && IsSerialised(st, steps)
            && After(st, steps).saved == st.saved + {s} && FileOf(After(st, steps)) == Some(FileText(s)[..k])
  {
    hide FileText, IsRun, After, IsSerialised, ChkOk;
    var st1 := Apply(st, Open(Main));
    var st2 := Apply(st1, Begin(Main, s));
    assert Overlay("", 0, FileText(s)[0..0 + k]) == FileText(s)[..k];
    var st3 := Apply(st2, Put(Main, k));
    var st4 := Apply(st3, Close(Main));
    RunOne(st4, Rename(Main));
    RunCons(st3, Close(Main), [Rename(Main)]);
    RunCons(st2, Put(Main, k), [Close(Main)] + [Rename(Main)]);
    RunCons(st1, Begin(Main, s), [Put(Main, k)] + ([Close(Main)] + [Rename(Main)]));
    RunCons(st, Open(Main), [Begin(Main, s)] + ([Put(Main, k)] + ([Close(Main)] + [Rename(Main)])));
  }

  /** The condition of crash safety is needed: with a newline in the directory name there
      is a serialised run of one save after which a restore applies a directory that no
      saved snapshot has. */
  lemma NewlineBreaksCrashSafety(st: State, t: Snapshot, myPid: int, env: seq<string>, aliases: seq<Alias>)
    requires Init(st) && st.tmp.None? && st.saved == {}
    requires Savable(t) && Bare(t) && t.pid != myPid && Write(Nested(t)).Some?
    ensures var steps := ShortSave(Nested(t), |FileText(t)|);
            && IsRun(st, steps) && IsSerialised(st, steps)
            && var end := After(st, steps);
               var r := Restore(FileOf(end), myPid, env, aliases);
               r.Applied? && r.cwd == t.cwd && forall s | s in end.saved :: s.cwd != t.cwd
  {
    hide Restore, FileText, Savable, IsRun, IsSerialised, After, ShortSave, Init, Write, MergeEnv, MergeAliases, Nested;
    NewlineInDirectory(t, myPid, env, aliases);
    ShortSaveLeaves(st, Nested(t), |FileText(t)|);
  }

  // -------------------------------------------------- without the serialisation

  lemma RunCons(st: State, step: Step, rest: seq<Step>)
    requires Enabled(st, step) && IsRun(Apply(st, step), rest)
    ensures IsRun(st, [step] + rest) && After(st, [step] + rest) == After(Apply(st, step), rest)
    ensures IsSerialised(st, [step] + rest) <==> Serialised(st, step) && IsSerialised(Apply(st, step), rest)
  {
    assert ([step] + rest)[1..] == rest;
  }

  /** The thread holds the mutex and neither it nor the main thread is saving yet. */
  predicate Ready(st: State) {
    && st.main.Off? && st.background.Off? && st.thread == Locked && !st.joining && st.tmp.None?
    && (st.chk.Some? ==> st.chk.value < st.nextInode)
  }

  /** The overlap the missing lock allows: the thread is writing s1 when the main
      thread opens the same temporary file, writes s2 in full and renames it. */
  function Race(s1: Snapshot, s2: Snapshot): seq<Step> {
    [Open(Background)] + ([Begin(Background, s1)] + ([Open(Main)] + [Begin(Main, s2)]))
  }

  function OverlapStart(s1: Snapshot, s2: Snapshot): seq<Step> {
    [Start] + ([Wake] + Race(s1, s2))
  }

  function OverlapEnd(s1: Snapshot, s2: Snapshot, k: nat): seq<Step>
    requires k <= |FileText(s1)|
  {
    [Put(Background, k)] + ([Put(Main, |FileText(s2)|)] + ([Put(Background, |FileText(s1)| - k)]
    + ([Close(Main)] + [Rename(Main)])))
  }

  /** The state in which both writers hold the same fresh, empty inode. */
  function BothOpen(st: State, s1: Snapshot, s2: Snapshot): State {
    var inode := st.nextInode;
    st.(data := st.data[inode := ""][inode := ""], nextInode := inode + 1, tmp := Some(inode),
        background := Writing(inode, s1, 0), main := Writing(inode, s2, 0))
  }

  lemma RaceStarts(st: State, s1: Snapshot, s2: Snapshot)
    requires Ready(st) && Write(s1).Some? && Write(s2).Some?
    ensures IsRun(st, Race(s1, s2)) && !IsSerialised(st, Race(s1, s2))
    ensures After(st, Race(s1, s2)) == BothOpen(st, s1, s2)
  {
    hide FileText, IsRun, After, IsSerialised;
    var st3 := Apply(st, Open(Background));
    var st4 := Apply(st3, Begin(Background, s1));
    var st5 := Apply(st4, Open(Main));
    var last := [Begin(Main, s2)];
    RunOne(st5, Begin(Main, s2));
    RunCons(st4, Open(Main), last);
    RunCons(st3, Begin(Background, s1), [Open(Main)] + last);
    RunCons(st, Open(Background), [Begin(Background, s1)] + ([Open(Main)] + last));
  }

  /** A fresh process with its thread started and awake. */
  function Started(st: State): State {
    st.(thread := Locked, running := true, stopFlag := false)
  }

  lemma OverlapStarts(st: State, s1: Snapshot, s2: Snapshot)
    requires Init(st) && st.tmp.None? && Write(s1).Some? && Write(s2).Some?
    ensures IsRun(st, OverlapStart(s1, s2)) && !IsSerialised(st, OverlapStart(s1, s2))
    ensures After(st, OverlapStart(s1, s2)) == BothOpen(Started(st), s1, s2) && Ready(Started(st))
  {
    hide FileText, IsRun, After, IsSerialised, Race, BothOpen, ChkOk;
    var st1 := Apply(st, Start);
    assert Apply(st1, Wake) == Started(st);
    RaceStarts(Started(st), s1, s2);
    RunCons(st1, Wake, Race(s1, s2));
    RunCons(st, Start, [Wake] + Race(s1, s2));
  }

  lemma RunOne(st: State, step: Step)
    requires Enabled(st, step)
    ensures IsRun(st, [step]) && After(st, [step]) == Apply(st, step)
    ensures IsSerialised(st, [step]) <==> Serialised(st, step)
  {
    RunCons(st, step, []);
    assert [step] + [] == [step];
  }

  /** What the file holds as the two writers overwrite each other. */
  lemma Overlays(a: string, b: string, k: nat)
    requires k <= |a| == |b|
    ensures a[0..0 + k] == a[..k] && b[0..0 + |b|] == b && a[k..k + (|a| - k)] == a[k..]
    ensures Overlay("", 0, a[..k]) == a[..k] && Overlay(a[..k], 0, b) == b && Overlay(b, k, a[k..]) == b[..k] + a[k..]
  {}

  lemma MainFinishes(st: State)
    requires !st.joining && st.main.Writing? && st.tmp.Some?
    ensures var last := [Close(Main)] + [Rename(Main)];
            IsRun(st, last) && After(st, last).saved == st.saved + {st.main.s} &&
            FileOf(After(st, last)) == Some(Contents(st, st.tmp.value))
  {
    hide FileText, IsRun, After, IsSerialised;
    RunOne(Apply(st, Close(Main)), Rename(Main));
    RunCons(st, Close(Main), [Rename(Main)]);
  }

  lemma OverlapEnds(st: State, s1: Snapshot, s2: Snapshot, k: nat)
    requires Ready(st) && Write(s1).Some? && Write(s2).Some?
    requires k <= |FileText(s2)| == |FileText(s1)|
    ensures var st6 := BothOpen(st, s1, s2);
            IsRun(st6, OverlapEnd(s1, s2, k)) &&
            var end := After(st6, OverlapEnd(s1, s2, k));
            end.saved == st.saved + {s2} && FileOf(end) == Some(FileText(s2)[..k] + FileText(s1)[k..])
  {
    hide FileText, IsRun, After, IsSerialised;
    var a, b := FileText(s1), FileText(s2);
    var st6 := BothOpen(st, s1, s2);
    Overlays(a, b, k);
    hide Overlay;
    var st7 := Apply(st6, Put(Background, k));
    var st8 := Apply(st7, Put(Main, |b|));
    var st9 := Apply(st8, Put(Background, |a| - k));
    MainFinishes(st9);
    RunCons(st8, Put(Background, |a| - k), [Close(Main)] + [Rename(Main)]);
    RunCons(st7, Put(Main, |b|), [Put(Background, |a| - k)] + ([Close(Main)] + [Rename(Main)]));
    RunCons(st6, Put(Background, k),
            [Put(Main, |b|)] + ([Put(Background, |a| - k)] + ([Close(Main)] + [Rename(Main)])));
  }

  lemma {:induction false} RunConcat(st: State, a: seq<Step>, b: seq<Step>)
    requires IsRun(st, a) && IsRun(After(st, a), b)
    ensures IsRun(st, a + b) && After(st, a + b) == After(After(st, a), b)
    ensures IsSerialised(st, a + b) <==> IsSerialised(st, a) && IsSerialised(After(st, a), b)
    decreases a
  {
    hide Apply, Enabled, Serialised;
    if a == [] {
      assert a + b == b;
    } else {
      assert (a + b)[1..] == a[1..] + b;
      RunConcat(Apply(st, a[0]), a[1..], b);
    }
  }

  /** The main thread's save succeeds in full, and yet the checkpoint file holds
      neither snapshot: the first bytes of one and the rest of the other. */
  lemma OverlapMixes(st: State, s1: Snapshot, s2: Snapshot, k: nat)
    requires Init(st) && st.tmp.None? && Write(s1).Some? && Write(s2).Some?
    requires k <= |FileText(s2)| == |FileText(s1)|
    ensures var steps := OverlapStart(s1, s2) + OverlapEnd(s1, s2, k);
            && IsRun(st, steps) && !IsSerialised(st, steps)
            && After(st, steps).saved == st.saved + {s2}
            && FileOf(After(st, steps)) == Some(FileText(s2)[..k] + FileText(s1)[k..])
  {
    hide FileText, Apply, Enabled, Serialised, BothOpen, OverlapStart, OverlapEnd;
    OverlapStarts(st, s1, s2);
    OverlapEnds(Started(st), s1, s2, k);
    RunConcat(st, OverlapStart(s1, s2), OverlapEnd(s1, s2, k));
  }

  /** A restore applies s1, which no save ever renamed into place, and s2, whose save
      succeeded, is lost. */
  ghost predicate LostToUnsaved(st: State, s1: Snapshot, s2: Snapshot, myPid: int, env: seq<string>,
                                aliases: seq<Alias>) {
    && s2 in st.saved && s1 !in st.saved
    && var f := SavedFields(s1);
       Restore(FileOf(st), myPid, env, aliases) ==
       Applied(s1.cwd, MergeEnv(env, f.env), MergeAliases(aliases, f.aliases), f.jobs)
  }

  /** The overlap breaks crash safety: a restore applies s1, which no save ever renamed
      into place, while the snapshot that was saved is lost. */
  lemma OverlapRestoresUnsaved(st: State, s1: Snapshot, s2: Snapshot, myPid: int, env: seq<string>, aliases: seq<Alias>)
    requires Init(st) && st.tmp.None? && Write(s1).Some? && Write(s2).Some? && |FileText(s1)| == |FileText(s2)|
    requires Savable(s1) && s1.pid != myPid && s1 !in st.saved && s1 != s2
    ensures var steps := OverlapStart(s1, s2) + OverlapEnd(s1, s2, 0);
            IsRun(st, steps) && LostToUnsaved(After(st, steps), s1, s2, myPid, env, aliases)
  {
    hide Restore, FileText, Savable, IsRun, IsSerialised, After, OverlapStart, OverlapEnd, SavedFields, MergeEnv,
         MergeAliases, Init;
    OverlapMixes(st, s1, s2, 0);
    assert FileText(s2)[..0] + FileText(s1)[0..] == FileText(s1);
    RestoreOfWrite(s1, myPid, env, aliases);
  }

  /** Gives up whatever saves are open. */
  function Failures(st: State): seq<Step> {
    (if st.main.Off? then [] else [Fail(Main)]) + (if st.background.Off? then [] else [Fail(Background)])
  }

  lemma FailuresClear(st: State)
    requires Base(st) && st.thread == Locked && !st.joining && !st.main.Off?
    ensures IsRun(st, Failures(st)) && Ready(After(st, Failures(st))) && After(st, Failures(st)).saved == st.saved
  {
    hide FileText, Write;
    var st1 := Apply(st, Fail(Main));
    RunOne(st, Fail(Main));
    if st.background.Off? {
      assert Failures(st) == [Fail(Main)];
    } else {
      RunOne(st1, Fail(Background));
      RunCons(st, Fail(Main), [Fail(Background)]);
      assert Failures(st) == [Fail(Main)] + [Fail(Background)];
    }
  }

  lemma RaceRestoresUnsaved(st: State, s1: Snapshot, s2: Snapshot, myPid: int, env: seq<string>, aliases: seq<Alias>)
    requires Ready(st) && Write(s1).Some? && Write(s2).Some? && |FileText(s1)| == |FileText(s2)|
    requires Savable(s1) && s1.pid != myPid && s1 !in st.saved && s1 != s2
    ensures IsRun(st, Race(s1, s2) + OverlapEnd(s1, s2, 0))
    ensures LostToUnsaved(After(st, Race(s1, s2) + OverlapEnd(s1, s2, 0)), s1, s2, myPid, env, aliases)
  {
    hide Restore, FileText, Savable, IsRun, IsSerialised, After, Race, OverlapEnd, SavedFields, MergeEnv, MergeAliases,
         Ready, BothOpen;
    RaceStarts(st, s1, s2);
    OverlapEnds(st, s1, s2, 0);
    RunConcat(st, Race(s1, s2), OverlapEnd(s1, s2, 0));
    assert FileText(s2)[..0] + FileText(s1)[0..] == FileText(s1);
    RestoreOfWrite(s1, myPid, env, aliases);
  }

  /** Crash safety needs the guard everywhere: after any step against it, in any state a
      run can reach, there is a continuation that loses a saved snapshot to an unsaved one. */
  lemma UnguardedRestoresUnsaved(st: State, step: Step, s1: Snapshot, s2: Snapshot, myPid: int, env: seq<string>,
                                 aliases: seq<Alias>)
    returns (rest: seq<Step>)
    requires Base(st) && Enabled(st, step) && !Guarded(st, step)
    requires Write(s1).Some? && Write(s2).Some? && |FileText(s1)| == |FileText(s2)|
    requires Savable(s1) && s1.pid != myPid && s1 !in st.saved && s1 != s2
    ensures IsRun(st, [step] + rest) && LostToUnsaved(After(st, [step] + rest), s1, s2, myPid, env, aliases)
  {
    StepKeepsBase(st, step);
    var st1 := Apply(st, step);
    assert st1.thread == Locked && !st1.joining && !st1.main.Off? && st1.saved == st.saved;
    hide FileText, Savable, IsRun, After, Race, OverlapEnd, Base, Enabled, Apply, Ready, LostToUnsaved, Write, Failures;
    FailuresClear(st1);
    var st2 := After(st1, Failures(st1));
    var race := Race(s1, s2) + OverlapEnd(s1, s2, 0);
    RaceRestoresUnsaved(st2, s1, s2, myPid, env, aliases);
    RunConcat(st1, Failures(st1), race);
    rest := Failures(st1) + race;
    RunCons(st, step, rest);
  }

  // -------------------------------------------------------------------- progress

  /** What the thread still has to do before a stop can get its mutex. */
  function Unlock(st: State): seq<Step> {
    if st.thread != Locked then []
    else (if st.background.Off? then [] else [Fail(Background)]) + [Sleep]
  }

  lemma UnlockLeaves(st: State)
    requires Base(st) && st.thread in {Waiting, Locked}
    ensures IsRun(st, Unlock(st))
    ensures var end := After(st, Unlock(st));
            && end.thread == Waiting && end.background.Off? && end.main == st.main && end.running == st.running
            && end.joining == st.joining && end.stopFlag == st.stopFlag && FileOf(end) == FileOf(st)
  {
    hide FileText, Write;
    if st.thread == Locked {
      if st.background.Off? {
        RunOne(st, Sleep);
        assert Unlock(st) == [Sleep];
      } else {
        var st1 := Apply(st, Fail(Background));
        RunOne(st1, Sleep);
        RunCons(st, Fail(Background), [Sleep]);
      }
    }
  }

  const STOPPING: seq<Step> := [RequestStop] + ([ThreadExit] + [Join])

  lemma StoppingEnds(st: State)
    requires st.running && !st.joining && st.main.Off? && st.thread == Waiting
    ensures IsRun(st, STOPPING)
    ensures var end := After(st, STOPPING);
            end.thread == Exited && !end.running && !end.joining && FileOf(end) == FileOf(st)
  {
    var st1 := Apply(st, RequestStop);
    var st2 := Apply(st1, ThreadExit);
    RunOne(st2, Join);
    RunCons(st1, ThreadExit, [Join]);
    RunCons(st, RequestStop, [ThreadExit] + [Join]);
    hide IsRun, After;
  }

  /** A stop does not hang: in any state a run can reach in which the thread runs and the
      main thread is idle, whatever the thread is doing, there is a continuation in which
      the stop is asked for, the thread ends and the join returns, with the file as it was. */
  lemma StopCanReturn(st: State)
    requires Base(st) && st.running && !st.joining && st.main.Off? && st.thread in {Waiting, Locked}
    ensures var steps := Unlock(st) + STOPPING;
            && IsRun(st, steps)
            && var end := After(st, steps);
               end.thread == Exited && !end.running && !end.joining && FileOf(end) == FileOf(st)
  {
    hide Base, IsRun, After;
    UnlockLeaves(st);
    StoppingEnds(After(st, Unlock(st)));
    RunConcat(st, Unlock(st), STOPPING);
  }

  /** The checkpoint is deleted exactly when the main thread is idle, and then a restore
      finds no file. */
  lemma DeleteClears(st: State, myPid: int, env: seq<string>, aliases: seq<Alias>)
    ensures Enabled(st, Delete) <==> st.main.Off? && !st.joining
    ensures Enabled(st, Delete) ==> Restore(FileOf(Apply(st, Delete)), myPid, env, aliases) == NoFile
  {
    hide Restore, FileText, Write;
    RestoreOfNothing(myPid, env, aliases);
  }

  /** Two such snapshots: they need only differ in their time. */
  lemma SameLengthTexts(s: Snapshot, time1: string, time2: string)
    requires |time1| == |time2|
    ensures |FileText(s.(timestamp := time1))| == |FileText(s.(timestamp := time2))|
  {
    BodyByTime(s.(timestamp := time1));
    BodyByTime(s.(timestamp := time2));
    FooterShape(Body(s.(timestamp := time1)));
    FooterShape(Body(s.(timestamp := time2)));
    hide Body, Footer, Unlines;
  }

  lemma BodyByTime(s: Snapshot)
    ensures |Body(s)| == |s.timestamp| + |MAGIC| + 12 + |Unlines(BodyLines(s)[2..])|
    ensures BodyLines(s)[2..] == BodyLines(s.(timestamp := ""))[2..]
  {
    var lines := BodyLines(s);
    assert lines[0] == MAGIC && lines[1] == "TIMESTAMP=" + s.timestamp;
    assert lines[1..][1..] == lines[2..];
    assert Unlines(lines) == lines[0] + [NEWLINE] + Unlines(lines[1..]);
    assert Unlines(lines[1..]) == lines[1] + [NEWLINE] + Unlines(lines[2..]);
    hide EnvLines, AliasLines, JobLines;
    assert lines[2..] == ["PID=" + Decimal(s.pid), "CWD=" + s.cwd] + EnvLines(Take(s.env, MAX_ENV))
                         + AliasLines(Take(s.aliases, MAX_SAVED_ALIASES)) + JobLines(Take(s.jobs, MAX_JOBS));
  }
}
