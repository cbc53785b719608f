/** What a restore does with the saved jobs: those whose process still runs are entered
    into the job table of the new shell. */
module CheckpointJobs {
  import opened Text
  import opened Checkpoint
  import opened CheckpointRoundTrip

  const TABLE_SIZE: nat := 100
  const COMMAND_CAP: nat := 1023

  datatype SavedJob = SavedJob(id: int, pid: int, command: string)

  /** The sscanf and the two strchr calls on the text after JOB=. */
  function ReadJob(text: string): Option<SavedJob> {
    match ScanInt(text)
    case None => None
    case Some((id, rest)) =>
      if rest == "" || rest[0] != ':' then None
      else match ScanInt(rest[1..])
        case None => None
        case Some((pid, _)) => Some(SavedJob(id, pid, JobCommand(text)))
  }

  function JobCommand(text: string): string {
    var c1 := IndexOf(text, ':');
    if c1 == |text| then ""
    else
      var rest := text[c1 + 1..];
      var c2 := IndexOf(rest, ':');
      if c2 == |rest| then "" else Take(rest[c2 + 1..], COMMAND_CAP)
  }

  lemma NoColon(n: int)
    ensures ':' !in Decimal(n)
  {
    assert forall c :: c in Digits(if n < 0 then -n else n) ==> IsDigit(c);
  }

  lemma CommandOfText(j: Job)
    ensures JobCommand(JobText(j)) == Take(j.command, 1023)
  {
    hide Decimal, Take, IndexOf;
    var id, pid := Decimal(j.id), Decimal(j.pid);
    var last := ":" + j.command;
    var rest := pid + last;
    assert JobText(j) == id + (":" + rest);
    NoColon(j.id);
    NoColon(j.pid);
    FirstColon(rest);
    FirstColon(j.command);
    IndexOfAfter(id, ":" + rest, ':');
    IndexOfAfter(pid, last, ':');
    assert JobText(j)[|id| + 1..] == rest && rest[|pid| + 1..] == j.command;
  }

  lemma FirstColon(s: string)
    ensures IndexOf(":" + s, ':') == 0
  {}

  /** A written job line reads as the job, its command cut to the buffer. */
  lemma ReadJobOfText(j: Job)
    ensures ReadJob(JobText(j)) == Some(SavedJob(j.id, j.pid, Take(j.command, 1023)))
  {
    hide Decimal, ScanInt, JobCommand, Take;
    var rest := Decimal(j.pid) + (":" + j.command);
    assert JobText(j) == Decimal(j.id) + (":" + rest);
    ScanDecimal(j.id, ":" + rest);
    ScanDecimal(j.pid, ":" + j.command);
    assert (":" + rest)[1..] == rest;
    CommandOfText(j);
  }

  // ------------------------------------------------------------------ the table

  datatype Jobs = Jobs(entries: seq<Job>, nextId: int)

  /** add_job */
  function Added(t: Jobs, pid: int, command: string): Jobs {
    if |t.entries| < TABLE_SIZE then Jobs(t.entries + [Job(t.nextId, pid, command, true)], t.nextId + 1) else t
  }

  /** The JOB= branch for one line. `alive` stands for the look into /proc. */
  function Reentered(t: Jobs, text: string, alive: int -> bool): Jobs {
    match ReadJob(text)
    case None => t
    case Some(j) => if alive(j.pid) then Added(t, j.pid, j.command) else t
  }

  function ReenteredAll(t: Jobs, texts: seq<string>, alive: int -> bool): Jobs
    decreases texts
  {
    if texts == [] then t else ReenteredAll(Reentered(t, texts[0], alive), texts[1..], alive)
  }

  class JobTable {
    var entries: seq<Job>
    var nextId: int

    method AddJob(pid: int, command: string)
      modifies this
      ensures Jobs(entries, nextId) == Added(old(Jobs(entries, nextId)), pid, command)
    {
      if |entries| < TABLE_SIZE {
        entries := entries + [Job(nextId, pid, command, true)];
        nextId := nextId + 1;
      }
    }

    /** The job lines of a restore, in the order of the file. */
    method Reenter(texts: seq<string>, alive: int -> bool)
      modifies this
      ensures Jobs(entries, nextId) == ReenteredAll(old(Jobs(entries, nextId)), texts, alive)
    {
      var i := 0;
      while i < |texts|
        invariant i <= |texts|
        invariant ReenteredAll(old(Jobs(entries, nextId)), texts, alive) ==
                  ReenteredAll(Jobs(entries, nextId), texts[i..], alive)
      {
        assert texts[i..][0] == texts[i] && texts[i..][1..] == texts[i + 1..];
        var job := ReadJob(texts[i]);
        if job.Some? && alive(job.value.pid) {
          AddJob(job.value.pid, job.value.command);
        }
        i := i + 1;
      }
    }
  }

  // ------------------------------------------------------------------ round trip

  /** The active jobs whose process still runs. */
  function Live(jobs: seq<Job>, alive: int -> bool): seq<Job> {
    if jobs == [] then []
    else if jobs[0].active && alive(jobs[0].pid) then [jobs[0]] + Live(jobs[1..], alive)
    else Live(jobs[1..], alive)
  }

  /** The same jobs under new numbers, their commands cut to the buffer. */
  function Renumbered(jobs: seq<Job>, nextId: int): (r: seq<Job>)
    ensures |r| == |jobs|
  {
    seq(|jobs|, i requires 0 <= i < |jobs| =>
      Job(nextId + i, jobs[i].pid, Take(jobs[i].command, 1023), true))
  }

  /** Behind what the table already holds, as far as there is room, come exactly the live
      jobs of the saved shell, in order, numbered on from the table's own counter. */
  lemma {:induction false} LiveJobsReenter(t: Jobs, jobs: seq<Job>, alive: int -> bool)
    requires |t.entries| <= 100
    ensures var live := Take(Live(jobs, alive), 100 - |t.entries|);
            ReenteredAll(t, ActiveJobs(jobs), alive) ==
            Jobs(t.entries + Renumbered(live, t.nextId), t.nextId + |live|)
    decreases |jobs|
  {
    hide Reentered, JobText, Renumbered, Live, Take;
    LiveHead(jobs, alive, TABLE_SIZE - |t.entries|);
    var room := TABLE_SIZE - |t.entries|;
    var live := Take(Live(jobs, alive), room);
    if jobs == [] {
      assert t.entries + Renumbered(live, t.nextId) == t.entries;
    } else if !jobs[0].active {
      LiveJobsReenter(t, jobs[1..], alive);
    } else {
      var j, rest := jobs[0], ActiveJobs(jobs[1..]);
      assert ActiveJobs(jobs)[0] == JobText(j) && ActiveJobs(jobs)[1..] == rest;
      ReenteredText(t, j, alive);
      var t' := Reentered(t, JobText(j), alive);
      LiveJobsReenter(t', jobs[1..], alive);
      if alive(j.pid) && room > 0 {
        var live' := Take(Live(jobs[1..], alive), room - 1);
        RenumberedCons(t.entries, j, live', t.nextId);
      } else if room == 0 {
        LiveHead(jobs[1..], alive, 0);
      }
    }
  }

  lemma LiveHead(jobs: seq<Job>, alive: int -> bool, room: nat)
    ensures Take(Live(jobs, alive), room) ==
            if jobs == [] then []
            else if !(jobs[0].active && alive(jobs[0].pid)) then Take(Live(jobs[1..], alive), room)
            else if room == 0 then []
            else [jobs[0]] + Take(Live(jobs[1..], alive), room - 1)
    ensures Take(Live(jobs, alive), 0) == []
  {}

  lemma ReenteredText(t: Jobs, j: Job, alive: int -> bool)
    ensures Reentered(t, JobText(j), alive) ==
            if alive(j.pid) then Added(t, j.pid, Take(j.command, COMMAND_CAP)) else t
  {
    hide ReadJob, JobText;
    ReadJobOfText(j);
  }

  lemma RenumberedCons(entries: seq<Job>, j: Job, jobs: seq<Job>, nextId: int)
    ensures entries + [Job(nextId, j.pid, Take(j.command, COMMAND_CAP), true)] + Renumbered(jobs, nextId + 1) ==
            entries + Renumbered([j] + jobs, nextId)
  {}

  /** Restoring a written checkpoint into a shell with this job table. */
  lemma RestoredJobs(s: Snapshot, myPid: int, env: seq<string>, aliases: seq<Alias>, t: Jobs, alive: int -> bool)
    requires Savable(s) && Write(s).Some? && s.pid != myPid && |t.entries| <= 100
    ensures var r := Restore(Write(s), myPid, env, aliases);
            var live := Take(Live(Take(s.jobs, 128), alive), 100 - |t.entries|);
            && r.Applied?
            && ReenteredAll(t, r.jobs, alive) == Jobs(t.entries + Renumbered(live, t.nextId), t.nextId + |live|)
  {
    RestoreOfWrite(s, myPid, env, aliases);
    LiveJobsReenter(t, Take(s.jobs, MAX_JOBS), alive);
  }
}
