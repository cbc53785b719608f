# Las_shell engines in Dafny

Las_shell is a trading shell written in C. This project models its self-contained
engines and proves what they are for:

- **Scripts.** A script is a flat list of lines. `while`, `if`, `else`, `done` and `fi` are
  matched by depth counters while the lines are read, and the collected blocks are run by
  mutual recursion with break/continue signals and a cap of 1,000,000 rounds. The model runs
  the same loops over line lists and over the file, and proves them equal to a direct
  recursive meaning of the program tree, from the bytes of the file on.
- **Checkpoints.** The table-driven CRC-32, the line printer and parser, the merge into the
  running shell, the re-entry of jobs that still run, and the save protocol (truncate, write,
  close, rename) as a state machine with two writers that may stop after any step.
- **Audit log.** Streaming SHA-256, the chained records, the verifier, what an accepted log
  says about its lines, and the seeding of a new session from an existing log.
- **Exchange calendar.** Civil dates, the holiday table, and the scans for the next change,
  open and close, all measured against the status at each single minute.
- **Command chains and words.** The splitter and the prev/node loop over `&&`, `||`, `;`,
  `&`, `|>`, `?>`, `~>` and the bare pipe; the tokenizer and the quoter.
- **Streams, JSON arrays, paper ledger.** The buffered line reader and its registry, the
  walker over the objects of a JSON array, and the paper trading account with its flattening
  under the risk rules.

Running a command is an uninterpreted function of the shell state in every engine, so each
result holds for any commands. C code that updates variables in loops is a Dafny method with
loops, C records that are updated are classes; each method is proved equal to a function
of its inputs or of the old state, and the lemmas are about those functions. Files: one
module per engine, `*Code` holds loops, and files such as `*Proofs`, `*RoundTrip`, `*Tree`, `*Traces`, `*Standard`
and `*Example` hold the lemmas. `Text.dfy` holds the C string primitives.

`dafny verify dfyconfig.toml` checks everything.

## Where code and documentation differ

The model follows the code. Each difference comes with its exact condition and an instance:

- The escaping of newlines in a checkpoint does not escape backslashes
  (src/crash_recovery.c:179-187), so an entry that holds a literal backslash followed by n
  comes back changed: `Checkpoint.EscapeRoundTrip`, instance `Checkpoint.LiteralPairChanges`.
- Only newlines in environment entries are escaped (src/crash_recovery.c:171-216), so one in a
  directory, alias or job can start a line of its own, and a checksum line is found too early.
  `CheckpointRoundTrip.WrittenIntactIff` says exactly when a complete file is refused for it,
  `CheckpointRoundTrip.NewlineInDirectory` is an instance, and
  `CheckpointSave.NewlineBreaksCrashSafety` the run in which a cut save then restores a directory
  no snapshot had.
- The header of src/crash_recovery.c promises saves without races (line 26), but the save on
  command, on exit and on a signal does not take the mutex the thread holds
  (src/crash_recovery.c:829-836 against 299-321). `CheckpointSave.GuardedCrashSafe` proves crash
  safety under the guard that is missing, and `CheckpointSave.UnguardedRestoresUnsaved` that any
  step against the guard can be continued so that a restore applies a snapshot no save ever put
  in place; `CheckpointSave.OverlapRestoresUnsaved` is the run from a fresh process.
- The comment at src/operators.c:728-739 says a left operand is executed exactly once. A right
  operand that is captured in turn runs twice, and an operand that `&&` or `||` skips still runs
  when a capturing operator follows it: `OperatorProofs.RunsAtMostOnce` and
  `OperatorProofs.SkippedOperandRuns`, instances `OperatorProofs.AdjacentCapturesRunTwice` and
  `OperatorProofs.GuardDoesNotStopCapture`.
- `&` puts only the last command of an AND-OR list in the background, where section 2.9.3 of the
  POSIX Shell Command Language has the whole list: `OperatorProofs.SequenceIsPosixIff`, instance
  `OperatorProofs.AmpTakesLastOnly`.
- `calendar_minutes_until_change` counts an early close as a change even when it falls inside
  the lunch break, where the status stays the same: `CalendarProofs.MinutesUntilChangeIsLeast`,
  instance `CalendarProofs.EarlyCloseInLunch`.
- The comment at src/calendar.c:242-247 calls explicit holidays authoritative and lets generated
  ones fill gaps; the code lets generated ones replace explicit ones:
  `CalendarCode.ExplicitDecidesIff`, instance `CalendarCode.GeneratedOverridesExplicit`.
- The audit verifier prints that the log is tamper-free (src/audit.c:777), but it treats its
  line buffer as a C string and its suffix buffer holds 2047 characters, so that text behind a
  NUL and text past that limit are not chained. `AuditLines.LineBinds` says
  exactly when any two lines with one chained text are equal, `AuditLines.AlignedLineBinds`
  when two lines as the logger writes them are, `AuditLines.AcceptedLinesBind` says it for any
  two accepted logs, and `AuditLines.HiddenLogAccepted` and
  `AuditLines.JunkLogAccepted` are pairs of different accepted logs with one report. On a line
  whose leading fields are quoted, which the logger never writes, the field cut out need not be
  the one read as the hash: `AuditLines.QuotedFieldShifts`.
- A restore refuses what follows the checksum line of a checkpoint, but reads the file as a C
  string (src/crash_recovery.c:466-481), so text behind a NUL goes unnoticed:
  `CheckpointRoundTrip.TrailingRestoredIff`, instance `CheckpointRoundTrip.TextBehindNul`.
- The comment at src/redirection.c:136-141 says that re-joined arguments round-trip through
  `las_shell -c`. Its quoting answers to the tokenizer alone, and the line is first tested for
  operators and pipes and split on them (src/script.c:374-401):
  `WordDispatch.RunsAgainIff`, instances `WordDispatch.SemicolonSplits` and
  `WordDispatch.QuoteUncoversOperator`.
- A save of the paper account drops flat positions and with them their realized gains.
  `Ledger.ReloadConservesIff` gives the exact condition under which the books still balance
  after a restart, `Ledger.EventsKeepSound` the amount that is missing after any run, and
  `Ledger.ReloadForgetsGain` an instance.
- `close_all` announces the flattening of every position, but each sale passes the pre-trade
  rules: `LedgerCode.CloseAllFlattensIff`.
- At the top level of a script `break` and `continue` are ordinary commands, an `if` without
  `fi` still runs what was read, and a bare `while` is a command (src/script.c:703, 785-811);
  inside a block all three are different (src/script.c:164-233): `ScriptRun.JumpAtTopLevel`,
  `ScriptRun.IfWithoutFi`, `ScriptRun.BareWhile`.

## Model

| member | source | states |
|---|---|---|
| Script.CollectBlock | src/script.c:102-118 | what a collector takes is strictly shorter than what it was given, the fact that makes the mutual recursion end |
| Script.CollectIf | src/script.c:124-144 | both branches and the rest together are strictly shorter than the lines given |
| Script.CollectBlockFromList | src/script.c:102-118 | the cursor loop returns the lines up to the matching "done" and stops just past it, or runs to the end and fails |
| Script.CollectIfFromList | src/script.c:124-144 | the cursor loop returns exactly the then-lines and else-lines of the matching "fi" |
| Script.DetectStreaming | src/script.c:66-90 | the guard found is the one GuardOf says |
| Script.Inside | src/script.c:76-84 | the depth loop returns the text up to the matching parenthesis |
| Script.Interpreter.ExecuteLineList | src/script.c:164-233 | the walker changes the state and returns the status and signal that RunLines gives for the same lines; it terminates |
| Script.Interpreter.ExecuteWhileBlock | src/script.c:235-289 | state and status are those of RunWhile, stop flag, stream loops, break and the iteration cap included |
| Script.Interpreter.ExecuteIfBlock | src/script.c:292-307 | state, status and signal are those of RunIf, with status 0 when the chosen branch is missing |
| Script.CollectIfStep | src/script.c:124-144 | one line of the if collector relates what has been collected to what is still to come, in every case of its keyword tests |
| ScriptFile.FileLinesOfUnlines | src/script.c:657-660 | lines that fit the 4096-character buffer are read back from the file one by one, each up to its first NUL |
| ScriptFile.File.ReadLine | src/script.c:657-660 | each read hands out the next of the file's lines and leaves the others |
| ScriptFile.CollectBlockFromFile | src/script.c:35-53 | the FILE-based loop collector takes the same body as the list-based one and leaves the same rest |
| ScriptFile.CollectIfFromFile | src/script.c:762-786 | the inline if collector returns what Gather says, with or without a matching "fi" |
| ScriptFile.GatherIsCollect | src/script.c:762-786 | with a matching "fi" the FILE-based collector takes the same branches as the list-based one, and without one the list-based one fails |
| ScriptTree.CollectBlockOver | src/script.c:102-118 | a loop collector at any depth passes over a whole well-formed block: no inner "done" is taken for its own |
| ScriptTree.CollectIfOver | src/script.c:124-144 | an if collector at any depth passes over a whole well-formed block: no inner "else" or "fi" is taken for its own |
| ScriptTree.CollectsLoop | src/script.c:174-189 | at a loop header exactly the printed body is collected, with the "do" on either line |
| ScriptTree.CollectsChoice | src/script.c:191-221 | at an if header exactly the two printed branches are collected |
| ScriptTree.BlockInterpreterAgrees | src/script.c:164-307 | for every well-formed tree and every state, running its printed lines gives the tree's final state, status and break/continue signal |
| ScriptTree.LoopAgrees | src/script.c:235-289 | the same for a loop, streaming or not |
| ScriptTree.IterationAgrees | src/script.c:256-284 | the same for any number of remaining rounds of a loop |
| ScriptLoops.LoopRounds | src/script.c:256-284 | every run of a loop is a sequence of rounds, each from a state the guard admits, that ends exactly by a break, the stop flag, the cap or the guard |
| ScriptLoops.PlainWhile | src/script.c:235-289 | a plain loop runs its body just after each condition that returned 0, at most 1,000,000 times, and ends by a condition that returned something else, a break, the stop flag or that cap |
| ScriptLoops.StreamWhile | src/script.c:235-289 | a streaming loop opens its stream once, sets the variable to each line in turn, runs its body after each, ends for want of a line like a plain one for its condition, and closes the stream |
| ScriptLoops.FirstTest | src/script.c:268-276 | a first condition that fails leaves the loop at once with status 0, one that succeeds runs the body from the state it left |
| ScriptLoops.TreeRounds | src/script.c:256-284 | the same rounds for the tree loop, each with the outcome that the tree of the body has |
| ScriptSyntax.TrimIs | src/script.c:26-32 | trimming takes off the blanks in front and the white space behind, and nothing else |
| ScriptSyntax.WhileConditionIs | src/script.c:55-64 | the condition of a while header is the text between the keyword and a semicolon or the end, without blanks around it |
| ScriptSyntax.IfConditionIs | src/script.c:192-196 | so is the condition of an if header, but for blanks in front of it |
| ScriptSyntax.OverNested | src/script.c:76-84 | text with balanced parentheses is read over at any depth |
| ScriptSyntax.StreamGuard | src/script.c:66-90 | NAME=$<(command) is a streaming guard for exactly that name and command, whatever balanced parentheses the command holds |
| ScriptSyntax.PlainGuardIff | src/script.c:66-70 | a condition is a plain guard if and only if it does not have that form at its first equals sign |
| ScriptRun.Shell.Inside | src/script.c:670-677 | the quote test of a continued line |
| ScriptRun.Shell.ReadLogical | src/script.c:669-695 | a line is joined with its continuation lines, truncated to the buffer, and exactly those lines are consumed |
| ScriptRun.Shell.SkipOpener | src/script.c:708-719 | the lookahead consumes the next line just when it is the keyword, and otherwise seeks back |
| ScriptRun.Shell.ExecuteTopLine | src/script.c:796-812 | a command line changes state and status as TopLine says, history and $? included |
| ScriptRun.Shell.ExecuteScript | src/script.c:633-817 | running a file changes the state and returns the status that RunScript gives for its lines |
| ScriptRun.ScriptAgrees | src/script.c:657-812 | running lines that print a tree, none of whose top-level statements starts with a continued line, is running the tree's statements in order, each to its end; lines inside blocks may end in backslashes |
| ScriptRun.HeadIsJoined | src/script.c:665-695 | a statement's first line broken over continuation lines runs as the joined line, for any script after it |
| ScriptRun.BrokenScriptAgrees | src/script.c:657-812 | the same agreement when every top-level statement is broken over continuation lines in any way |
| ScriptRun.FileAgrees | src/script.c:633-817 | the same from the bytes of the file, continuation lines included |
| ScriptRun.JumpAtTopLevel | src/script.c:796-811 | for every script that starts with break or continue: the line is a command at the top level and ends the block inside one |
| ScriptRun.IfWithoutFi | src/script.c:762-794 | an if whose fi is missing runs the lines read, and in a block the same lines do nothing |
| ScriptRun.BareWhile | src/script.c:703-711 | a lone while is a command at the top level and a loop header in a block, for any lines after it |
| ScriptContinuation.QuotesAfterIff | src/script.c:670-677 | a text ends inside quotes if and only if after text whose quotes are all closed one opens and is not closed again |
| ScriptContinuation.ContinuesIff | src/script.c:669-679 | a line goes on on the next one if and only if it ends in a backslash outside quotes |
| ScriptContinuation.JoinedFits | src/script.c:680-692 | the next line is joined on as far as the 4096 characters of the buffer go |
| ScriptContinuation.LinePassedOver | src/script.c:657-664 | empty lines and lines that start with "#!" are passed over |
| ScriptContinuation.LongLineIsCut | src/script.c:657-660 | a line longer than the buffer is read as several, the first of 4095 characters |
| Crc32.Table.constructor | src/crash_recovery.c:91-99 | entry i is eight division steps of i |
| Crc32.Table.Lookup | src/crash_recovery.c:105-107 | one table step on the register |
| Crc32.Table.Compute | src/crash_recovery.c:101-110 | the table loop returns the bit-by-bit division of the data by 0xEDB88320 (section 8 of RFC 1952) |
| Crc32.TableStep | src/crash_recovery.c:105-107 | feeding the eight bits of a byte one by one equals one lookup, one shift and one exclusive or |
| Crc32.DivideConcat | src/crash_recovery.c:101-110 | dividing a concatenation is dividing the parts in turn |
| Crc32.DivideLowBits | src/crash_recovery.c:91-99 | feeding the low bits of a word is stepping with the word added in |
| Crc32.StepXor | src/crash_recovery.c:93-97 | the division step is linear |
| Crc32.StepsXor | src/crash_recovery.c:93-97 | so is any number of steps |
| Crc32.DivideXor | src/crash_recovery.c:101-110 | two registers fed two messages differ by the difference fed the difference |
| Crc32.DivideInjective | src/crash_recovery.c:101-110 | a common tail never hides a difference of registers |
| Crc32.BurstIsSeen | src/crash_recovery.c:101-110 | at most 32 bits that leave a zero register at zero are all zero |
| Crc32.BurstDetected | src/crash_recovery.c:101-110 | messages that differ only within 32 consecutive bits never leave the same remainder |
| Crc32.FourByteBurstDetected | src/crash_recovery.c:101-110 | two bodies of equal length that differ, and only within four consecutive bytes, never share a checksum |
| Crc32Remainder.RegisterOfPolynomial | src/crash_recovery.c:93-97 | the constant of the table is the generator polynomial of section 8 of RFC 1952 without its highest power |
| Crc32Remainder.BitsOfByte | src/crash_recovery.c:101-110 | the message polynomial takes the bits of a byte from the lowest on |
| Crc32Remainder.StepDivides | src/crash_recovery.c:93-97 | one step of the register multiplies by x and takes the generator away when that overflows |
| Crc32Remainder.DivideIsRemainder | src/crash_recovery.c:101-110 | the register after a message is the remainder of message and start value by the generator, with a quotient that proves it |
| Crc32Remainder.RemainderUnique | src/crash_recovery.c:101-110 | quotient and remainder by the generator are unique |
| Crc32Remainder.CrcIsRemainder | src/crash_recovery.c:101-110 | the checksum, inverted, is the remainder of the data times x to the 32nd, with its first 32 coefficients inverted, over the two-element field |
| Checkpoint.EscapeInto | src/crash_recovery.c:179-188 | an escaped entry holds no newline, at any fill of the buffer |
| Checkpoint.EscapeFits | src/crash_recovery.c:179-188 | within the buffer the truncating escape is the whole escape |
| Checkpoint.UnescapeEscape | src/crash_recovery.c:565-587 | unescaping an escaped entry is unescaping the entry itself |
| Checkpoint.EscapeRoundTrip | src/crash_recovery.c:179-187 | unescape undoes escape if and only if the entry holds no literal backslash-n pair |
| Checkpoint.LiteralPairChanges | src/crash_recovery.c:179-187 | the instance: an entry that ends in backslash and n comes back with a newline |
| Checkpoint.GetenvOverridden | src/helper.c:201-225 | which entries the merge removes, seen through a lookup |
| Checkpoint.GetenvKept | src/crash_recovery.c:656-711 | entries the merge keeps read as before |
| Checkpoint.MergeLookup | src/crash_recovery.c:656-711 | after the merge every name has its checkpoint value if it has one, else its old value |
| CheckpointAliases.MergeAppendsNew | src/crash_recovery.c:713-735 | the alias table after a restore is the table before and then exactly the first new names of the restored list that fit, in order |
| CheckpointAliases.MergeKeepsTable | src/crash_recovery.c:713-735 | the table keeps what it had in front, never grows beyond 100 entries, and doubles no name |
| CheckpointAliases.MergeLooksUpIff | src/crash_recovery.c:713-735 | every name means what it meant in the table, else what the restored list says, if and only if there is room for all the new names |
| CheckpointAliases.LeftOutName | src/crash_recovery.c:725-733 | the first new name without room means nothing afterwards |
| CheckpointCode.Buffer.Append | src/crash_recovery.c:154-158 | a piece is appended whole or, when the buffer would be full, refused |
| CheckpointCode.EscapeLine | src/crash_recovery.c:179-188 | the escaping loop computes EscapeInto |
| CheckpointCode.AppendEnv | src/crash_recovery.c:173-191 | the environment section is written whole, or the write fails just when it does not fit |
| CheckpointCode.AppendAliases | src/crash_recovery.c:193-202 | the same for the aliases |
| CheckpointCode.AppendJobs | src/crash_recovery.c:204-216 | the same for the active jobs |
| CheckpointCode.WriteCheckpoint | src/crash_recovery.c:144-236 | the writer produces the body, its checksum line and nothing else, or fails when its buffer is too small |
| CheckpointCode.LineAt | src/crash_recovery.c:509-517 | the line at a position and the start of the next |
| CheckpointCode.ParseText | src/crash_recovery.c:495-646 | the line loop computes Parse over the newline-separated lines |
| CheckpointCode.IsOverridden | src/crash_recovery.c:674-691 | an entry is dropped just when some restored entry has its key |
| CheckpointCode.MergeEnvironment | src/crash_recovery.c:656-711 | the rebuilt array is the kept entries and then the restored ones |
| CheckpointCode.MergeAliasTable | src/crash_recovery.c:713-735 | restored aliases are added in order unless defined already or the table is full |
| CheckpointCode.RestoreCheckpoint | src/crash_recovery.c:419-743 | the whole restore returns what Restore says: no file, corrupt, stale, or the applied fields; its job lines go to JobTable.Reenter |
| CheckpointRoundTrip.FindMark | src/crash_recovery.c:446-452 | the checksum mark is found exactly at the end of a body that does not contain it |
| CheckpointRoundTrip.LinesHideNoMark | src/crash_recovery.c:446-452 | whatever the tag, the text of lines that hold no newline and do not start with it shows it at no line start |
| CheckpointRoundTrip.ScanHexOfHex | src/crash_recovery.c:220-220 | eight printed hexadecimal digits are scanned back to the checksum |
| CheckpointRoundTrip.ScanSignedHex | src/crash_recovery.c:453-456 | a sign counts as one of the eight characters scanned, and a minus gives the complement |
| CheckpointRoundTrip.ScanPrefixedHex | src/crash_recovery.c:453-456 | a prefix 0x counts as two of them |
| CheckpointRoundTrip.CompleteIsIntact | src/crash_recovery.c:446-493 | a complete file passes the checksum test |
| CheckpointRoundTrip.FileFrame | src/crash_recovery.c:160-220 | every file starts with its version line and ends with the checksum of all before it in eight digits |
| CheckpointRoundTrip.StrictPrefixNotIntact | src/crash_recovery.c:446-493 | every strict prefix of a complete file fails it, whatever the checksum |
| CheckpointRoundTrip.TrailingIntactIff | src/crash_recovery.c:419-493 | a complete file with anything added after the checksum line passes if and only if it is within the size limit and the addition shows as blank lines |
| CheckpointRoundTrip.EarlyMark | src/crash_recovery.c:446-481 | when the damage makes an early mark, the real checksum line stands behind it as refused content |
| CheckpointRoundTrip.BurstWithNul | src/crash_recovery.c:419-452 | when the damage holds a NUL, the text ends before any mark |
| CheckpointRoundTrip.BurstNotIntact | src/crash_recovery.c:446-493 | a body damaged within four consecutive bytes fails it, whatever the bytes become: NULs, early marks and a lost final newline included |
| CheckpointRoundTrip.SavableIsClean | src/crash_recovery.c:160-216 | a snapshot of C strings, with newlines in environment entries only, alias names without "=" and a directory within the buffer of getcwd, writes a body without an early mark; entries of any length |
| CheckpointRoundTrip.SavableIsFar | src/crash_recovery.c:160-216 | no line of such a body even starts like the checksum line |
| CheckpointRoundTrip.ParseWritten | src/crash_recovery.c:495-646 | parsing the written lines of such a snapshot gives back its directory, aliases, active jobs and what the writer kept of its environment |
| CheckpointRoundTrip.RestoreOfWrite | src/crash_recovery.c:144-236 | restoring the checkpoint of such a snapshot gives back its directory, aliases and active jobs, merged into any shell, and of its environment what the writer kept: entries over 4096 characters are skipped, escapes cut at the buffer; or stale for the same process |
| CheckpointRoundTrip.SplitAtLine | src/crash_recovery.c:509-517 | cutting a text at the end of a line splits its lines, whatever they hold |
| CheckpointRoundTrip.ParseStops | src/crash_recovery.c:641-643 | the parser stops at a checksum line or before it, so what follows does not matter |
| CheckpointRoundTrip.RestoreOfClean | src/crash_recovery.c:419-646 | any checkpoint without an early mark, newlines in its fields included, is restored or stale, never refused |
| CheckpointRoundTrip.WrittenIntactIff | src/crash_recovery.c:446-493 | whatever its fields hold, a complete checkpoint without NULs passes the checksum test if and only if its body has no early mark |
| CheckpointRoundTrip.NewlineInDirectory | src/crash_recovery.c:167-171 | the instances: a directory name with a newline and a checksum line in it gives a complete file that is refused, and a cut one from which a directory is restored that the shell was never in |
| CheckpointRoundTrip.RestoreOfShown | src/crash_recovery.c:495-646 | an intact file that shows any checkpoint without an early mark and more behind it restores like the checkpoint: nothing after the checksum line is parsed |
| CheckpointRoundTrip.RestoredEnvironment | src/crash_recovery.c:173-191 | of a snapshot as for RestoreOfWrite the environment is recovered if and only if it has no more entries than are saved and each is kept whole and holds no literal pair; in every case each name reads as what came back, or as before |
| CheckpointAliases.RestoredAliases | src/crash_recovery.c:193-202 | of a snapshot as for RestoreOfWrite the new aliases are added behind those of the shell as far as there is room, and with room for all every name means what it did in the shell or else when the checkpoint was written |
| CheckpointRoundTrip.EntryComesBackIff | src/crash_recovery.c:177-188 | an entry is unescaped to itself if and only if the buffer took its whole escape and it holds no literal pair |
| CheckpointRoundTrip.ComesBackIff | src/crash_recovery.c:173-191 | the saved entries come back as they were if and only if each of them does: no skipped one is made up for by another |
| CheckpointRoundTrip.StrictPrefixCorrupt | src/crash_recovery.c:446-493 | a checkpoint without an early mark that is cut off at any length is refused as corrupt |
| CheckpointRoundTrip.TrailingRestoredIff | src/crash_recovery.c:419-493 | restoring any checkpoint without an early mark with anything added is restoring it without, exactly under that condition, and is refused otherwise |
| CheckpointRoundTrip.TextBehindNul | src/crash_recovery.c:466-481 | the instance: any text behind a NUL, within the size limit |
| CheckpointRoundTrip.BurstCorrupt | src/crash_recovery.c:446-493 | every checkpoint none of whose body lines starts like the checksum line is refused when its body, of byte characters, is damaged within four consecutive bytes in any way; entries of any length, newlines in any field |
| CheckpointJobs.ReadJobOfText | src/crash_recovery.c:607-619 | a written job line is scanned back to its number, process and command, cut to 1023 characters |
| CheckpointJobs.JobTable.AddJob | src/operators.c:207-216 | a job is entered under the next number while there is room |
| CheckpointJobs.JobTable.Reenter | src/crash_recovery.c:605-639 | the job lines change the table as ReenteredAll says |
| CheckpointJobs.LiveJobsReenter | src/crash_recovery.c:605-639 | behind what the table holds come exactly the active jobs whose process runs, in order, renumbered, as far as there is room |
| CheckpointJobs.RestoredJobs | src/crash_recovery.c:204-216 | the same from the checkpoint of a snapshot as for RestoreOfWrite to the table of the restoring shell |
| CheckpointSave.StepKeepsInv | src/crash_recovery.c:241-288 | every step of a save, of the thread, of a delete or of start and stop that opens no second save keeps the invariant: the checkpoint file holds a prefix of one saved snapshot's text |
| CheckpointSave.RunKeepsInv | src/crash_recovery.c:241-389 | so does every run without overlapping saves |
| CheckpointSave.CrashSafe | src/crash_recovery.c:241-389 | wherever such a run of snapshots without early marks stops, a restore finds nothing, refuses the file, or reads exactly one snapshot that was renamed into place: never a mixture |
| CheckpointSave.StepKeepsBase | src/crash_recovery.c:241-389 | every step of every run, overlapping or not, keeps the two directory entries apart and the thread's saves under its mutex |
| CheckpointSave.GuardedIsSerialised | src/crash_recovery.c:293-321 | if the main thread opens only while the mutex is free and the thread wakes only while no save is open, saves never overlap |
| CheckpointSave.UnguardedOverlaps | src/crash_recovery.c:829-836 | every step against that guard, in any state a run can reach, can be continued to overlapping saves |
| CheckpointSave.GuardedCrashSafe | src/crash_recovery.c:241-389 | crash safety, with the same conclusion, for every run under the guard |
| CheckpointSave.NewlineBreaksCrashSafety | src/crash_recovery.c:167-171 | without the condition on marks: a run of one save, of a directory with a newline in its name, after which a restore applies a directory that no saved snapshot has |
| CheckpointSave.CrashLeavesInit | src/crash_recovery.c:241-288 | a crash leaves a disk from which the next process starts as the proofs assume, with the same file |
| CheckpointSave.HistoryLeavesInit | src/crash_recovery.c:241-389 | so does any number of processes one after the other, each crashing anywhere |
| CheckpointSave.StepKeepsFile | src/crash_recovery.c:241-288 | in every run, only a rename, a delete or a write through a file that was renamed away changes what a restore reads |
| CheckpointSave.WriterHoldsTemporary | src/crash_recovery.c:241-288 | without overlapping saves no writer holds the file a restore reads |
| CheckpointSave.RenamePublishes | src/crash_recovery.c:268-284 | a save whose bytes all reached the file is what a restore reads from then on |
| CheckpointSave.StopReturned | src/crash_recovery.c:378-389 | in every run, when the join returns the thread is off and has no save open |
| CheckpointSave.NoThreadSaveAfterStop | src/crash_recovery.c:293-389 | in every run, overlapping saves included: from a returned stop until the next start no step belongs to the thread |
| CheckpointSave.StopCanReturn | src/crash_recovery.c:293-389 | in any state a run can reach with the thread running and the main thread idle, a stop can be asked for and return, with the file as it was |
| CheckpointSave.DeleteClears | src/crash_recovery.c:748-765 | the file is deleted when the main thread is idle, and then a restore finds none |
| CheckpointSave.OverlapMixes | src/crash_recovery.c:829-836 | with overlapping saves there is a run after which the file holds the start of one snapshot and the end of another, although a save reported success |
| CheckpointSave.OverlapRestoresUnsaved | src/crash_recovery.c:829-836 | a run after which a restore applies a snapshot that was never renamed into place, while the one whose save succeeded is lost |
| CheckpointSave.UnguardedRestoresUnsaved | src/crash_recovery.c:829-836 | every step against the guard, in any state a run can reach, has a continuation after which a restore applies a snapshot that was never renamed into place and a saved one is lost |
| CheckpointSave.SameLengthTexts | src/crash_recovery.c:160-171 | two snapshots that differ in their time have texts of one length, as those runs need |
| Sha256.MessageSchedule | src/audit.c:100-106 | the 64 words are the message schedule of section 6.2.2 of FIPS 180-4 |
| Sha256.RunRounds | src/audit.c:107-112 | the loop performs the 64 rounds |
| Sha256.CompressInPlace | src/audit.c:100-113 | the state array is updated to the compression of its old value and the block |
| Sha256.HashOneMore | src/audit.c:123-128 | hashing one more block is compressing it into the hash so far |
| Sha256.Context.constructor | src/audit.c:115-121 | a new context has been fed nothing |
| Sha256.Context.UpdateByte | src/audit.c:123-128 | one byte is added to what has been fed; full blocks are compressed at once |
| Sha256.Context.Update | src/audit.c:123-128 | what has been fed is the concatenation of all inputs, however they were cut |
| Sha256.Context.PadWithZeros | src/audit.c:133-133 | the padding loop ends and adds exactly the zeros that the standard asks for, from every buffer length |
| Sha256.Context.Final | src/audit.c:130-143 | the digest is the fold of the compression function over the padded message (sections 5.1.1, 5.2.1, 5.3.3 and 6.2.2 of FIPS 180-4) |
| Sha256.Context.StateBytes | src/audit.c:137-142 | the state words are written most significant byte first |
| Sha256.LengthBytes | src/audit.c:134-136 | the eight bytes of the bit count, filled from the last |
| Sha256.PadStops | src/audit.c:133-133 | the loop condition fails first at exactly the standard's number of zeros |
| Sha256.LengthFieldWraps | src/audit.c:131-135 | multiples of the field's range do not show in the length field |
| Sha256.CountWraps | src/audit.c:125-131 | the 64-bit counter that wraps gives the length field of the true length |
| Sha256Standard.PrimesAreFirst | src/audit.c:78-90 | the numbers the constants are made from are the first 64 primes |
| Sha256Standard.KIsCubeRoot | src/audit.c:78-90 | each round constant is the first 32 bits of the fraction of the cube root of its prime (section 4.2.2 of FIPS 180-4) |
| Sha256Standard.H0IsSquareRoot | src/audit.c:115-121 | each initial word is those of the square root of one of the first eight (section 5.3.3) |
| Sha256Standard.RotRMovesBits | src/audit.c:92-92 | a rotation puts the lowest bits in the upper places and the others below them |
| Sha256Standard.ChChooses | src/audit.c:93-93 | Ch has the bits of one word where the first has ones, and of the other elsewhere |
| Sha256Standard.MajAgrees | src/audit.c:94-94 | Maj has the bits of two words where they agree, and of the third elsewhere |
| Sha256Standard.SigmasAreLinear | src/audit.c:95-98 | the four sigmas of an exclusive or are the exclusive or of the sigmas, for every two words |
| Sha256Standard.BigSigmasMoveBits | src/audit.c:95-96 | the big sigmas move each single bit by the numbers of places of section 4.1.2, around the end of the word; with linearity this says what they do to every word |
| Sha256Standard.SmallSigmasMoveBits | src/audit.c:97-98 | so do the small ones, whose third term shifts off the end |
| Sha256Standard.RoundsAreValues | src/audit.c:106-110 | after any number of rounds the eight working variables are the last four values of two sequences with one recurrence each |
| Sha256Example.CompressIs | src/audit.c:100-113 | from the initial state, the one padded block of "abc" compresses to the words of the published example, by every schedule word and round |
| Sha256Example.DigestOfAbc | src/audit.c:145-149 | the digest of "abc" is the published one, ba7816bf to f20015ad: every table entry, index, shift and the order of the rounds come into it |
| AuditProofs.QuoteLength | src/audit.c:288-300 | a quoted command never overflows its 2048-character buffer, however many quotes it holds |
| AuditProofs.QuoteDoubles | src/audit.c:288-300 | quoting doubles every quote of the characters kept, and these are the whole command if and only if it fits the buffer |
| Audit.Quote | src/audit.c:288-300 | the quoting loop computes CsvQuote |
| Audit.CommaAt | src/audit.c:580-592 | a found comma lies in the text |
| Audit.ScanCommas | src/audit.c:580-592 | the scan finds the n-th comma outside quotes, in the writer and in the verifier |
| Audit.AuditLog.Init | src/audit.c:350-415 | a new session takes its chain hash from the log and adds its marker |
| Audit.AuditLog.LogCommand | src/audit.c:469-612 | a command adds one record chained to the previous one; blank commands add nothing |
| Audit.CheckLine | src/audit.c:653-768 | the verifier's loop body, on the C string in the line buffer, computes VerifyLine |
| Audit.VerifyLog | src/audit.c:622-786 | the verifier's report is Verify, and it returns 0 just when that accepts |
| AuditProofs.HashIsHash | src/audit.c:259-269 | every digest prints as 64 hexadecimal digits |
| AuditProofs.ChainBinds | src/audit.c:302-319 | equal chain values of two record lists of bytes mean equal lists, or two of their own chained inputs at the returned positions are different bytes with one SHA-256 digest, or one of these inputs hashes to the genesis |
| AuditProofs.HexBytesInjective | src/audit.c:259-263 | the printed digest determines the digest |
| AuditProofs.SameHashCollides | src/audit.c:302-319 | two different byte texts with one printed hash are a collision of SHA-256 |
| AuditProofs.BodiesAreBytes | src/audit.c:653-768 | the chained texts the verifier rebuilds from a log of bytes are bytes |
| AuditProofs.VerifyChains | src/audit.c:653-768 | the verifier's chain value is the chain of the records it accepted |
| AuditProofs.AcceptedLogsBind | src/audit.c:622-786 | two accepted logs with the same genesis and last hash hold the same chained texts, or there is such a coincidence among the chained inputs of these very logs |
| AuditLines.StrippedLine | src/audit.c:708-737 | a C string is its text up to the fifth comma, the text cut out and the suffix; the chained text is the first and what the buffer takes of the last, ended by a newline |
| AuditLines.CommaIn | src/audit.c:711-719 | the comma scan depends only on the text up to the comma it finds, so the chained text fixes where the hash was cut out |
| AuditLines.ShownBinds | src/audit.c:708-737 | two C strings with one chained text are equal if and only if they agree in the text cut out and beyond the suffix buffer |
| AuditLines.LineBinds | src/audit.c:653-737 | any two lines with one chained text are equal if and only if they agree in what is open: the text cut out, beyond the suffix buffer, behind a NUL, and whether a newline ends what is shown |
| AuditLines.ReadLineBinds | src/audit.c:653-737 | so are any two lines that are read as the same record |
| AuditLines.AlignedField | src/audit.c:662-682 | on a line with unquoted leading fields that fit, the field splitter reads the text between the commas |
| AuditLines.AlignedComma | src/audit.c:711-719 | and the comma scan finds the same fields |
| AuditLines.MiddleIsStored | src/audit.c:708-737 | so the text cut out is the stored hash |
| AuditLines.OpenIsUnchained | src/audit.c:653-737 | on two whole lines with unquoted leading fields and one reading, only what is beyond the suffix buffer and behind a NUL is open |
| AuditLines.AlignedLineBinds | src/audit.c:653-737 | two such lines with the same chained text and stored hash are equal if and only if they agree beyond the suffix buffer and behind a NUL |
| AuditLines.AcceptedLinesRead | src/audit.c:653-768 | the lines of an accepted log read as its chained texts and the running chain, one by one |
| AuditLines.RecordsAreLines | src/audit.c:653-655 | whatever the log, the pieces its line buffer takes hold a newline at their end at most |
| AuditLines.AcceptedLinesBind | src/audit.c:622-786 | any two accepted logs with the same genesis and last hash have the same record lines if and only if these agree, line by line, in what is open, or there is a coincidence among their chained inputs; overlong, unterminated and quoted lines included |
| AuditLines.WellFormedLinesBind | src/audit.c:622-786 | when the lines are whole and their leading fields unquoted, it is enough that they agree beyond the buffer and behind a NUL |
| AuditLines.FittingLinesBind | src/audit.c:622-786 | when besides every line is free of NULs and every suffix fits the buffer, the record lines are the same, or there is such a coincidence |
| AuditLines.UnchainedJunk | src/audit.c:729-731 | any text added to an honest record of the greatest quoted length, within the read buffer, leaves a whole line that is read as that record |
| AuditLines.HiddenJunk | src/audit.c:662-737 | so does a NUL and any text behind it, added to any honest record |
| AuditLines.LastLineSwaps | src/audit.c:653-768 | exchanging the last line of a log for one with the same reading changes no report |
| AuditLines.JunkLogAccepted | src/audit.c:622-786 | after any honest sessions that end in a command of the greatest length, the log and the log with text added to its last line are different, both accepted, and have one report |
| AuditLines.HiddenLogAccepted | src/audit.c:622-786 | the same after any last command, with text behind a NUL |
| AuditLines.QuotedFieldShifts | src/audit.c:662-737 | on a line with text after a quoted field, the field cut out is not the one read as the hash, and two lines with one reading can differ in it |
| AuditProofs.BodyFits | src/audit.c:558-572 | the text of a record is never truncated |
| AuditProofs.StripRecord | src/audit.c:708-737 | cutting the hash field out of a written record restores the chained text, even at the greatest quoted length |
| AuditProofs.ReadsRecord | src/audit.c:653-737 | the verifier reads a written record as its chained text and its hash |
| AuditProofs.CommandRoundTrip | src/audit.c:662-682 | reading the command field back gives the command if and only if it is within the 1023-character field and fits the quoting buffer (section 2 of RFC 4180) |
| AuditProofs.SeedFieldIs | src/audit.c:376-402 | a new session finds the hash of a written record |
| AuditProofs.VerifyByLines | src/audit.c:653-768 | reading the log through the line buffer is reading its lines |
| AuditProofs.SeedByLines | src/audit.c:376-402 | the same for the seeding scan |
| AuditProofs.RunIsHonest | src/audit.c:469-612 | after any sessions and commands the log is a list of whole lines whose verified chain is the hash in memory |
| AuditProofs.HonestLogAccepted | src/audit.c:622-786 | every log written by any number of single-writer sessions is accepted in full, reads back as the chained texts, and seeds the next session with the hash in memory |
| AuditReport.ReportCounts | src/audit.c:648-768 | the report counts each record line once, as malformed, good or broken; good when it continues the hash stored in the nearest earlier line that is not malformed |
| AuditReport.LongLineIsCut | src/audit.c:651-655 | a line over 4095 characters is cut there, by the verifier and by the seeding |
| AuditReport.RecordFields | src/audit.c:662-690 | time, user, process, exit status and both hashes are read back out of a written record |
| AuditReport.MalformedIff | src/audit.c:684-702 | a line with six plain fields is malformed if and only if its output hash or its chain hash is no hash |
| AuditReport.BlankLeavesLog | src/audit.c:468-476 | a command leaves the log as it is if and only if it is blank |
| AuditReport.BodyIsCut | src/audit.c:566-569 | the chained text is the whole record text, or its first 4095 characters |
| AuditReport.HashAtEnd | src/audit.c:586-605 | a text with fewer than five commas gets the chain hash at its end |
| AuditReport.HexBytesDigits | src/audit.c:259-263 | each byte of a digest is printed as its two hexadecimal digits |
| CivilDate.NextDayNumber | src/calendar.c:566-579 | the next date has the next day number, over month and year ends |
| CivilDate.DayNumberOfDate | src/calendar.c:546-557 | the date of a day number has that day number (section 4.16 of POSIX.1-2017 Base Definitions) |
| CivilDate.DateOfDayNumber | src/calendar.c:546-557 | and the other way round, so dates and day numbers correspond one to one |
| CivilDate.EarlierIsBefore | src/calendar.c:238-240 | calendar order is the order of day numbers |
| CivilDate.AddDaysNumber | src/calendar.c:566-579 | add_days moves the day number by exactly that many days, either way |
| CivilDate.AddDaysSteps | src/calendar.c:566-579 | stepping one day n times is adding n days |
| CivilDate.LessTotal | src/calendar.c:238-240 | string comparison is a strict total order |
| CivilDate.LessTransitive | src/calendar.c:238-240 | and transitive, which the sort and the binary search rely on |
| CivilDate.FormatOrder | src/calendar.c:559-561 | string order of formatted dates is calendar order, and a formatted date determines the date |
| Weekdays.Anchor | src/calendar.c:546-557 | 2000-01-01 is a Saturday |
| Weekdays.NextWeekday | src/calendar.c:546-557 | the day after a date has the next weekday |
| Weekdays.WeekdayIsZeller | src/calendar.c:546-557 | in every year the weekday by day numbers is the one by Zeller's congruence on year, month and day |
| Weekdays.TradesIff | src/calendar.c:602-618 | an exchange trades exactly on the days from Monday to Friday by that congruence that its table does not close |
| Weekdays.ClosesAt | src/calendar.c:611-621 | on such a day the close is the early close of the table, if there is one, and else the regular one |
| Weekdays.StatusIs | src/calendar.c:630-663 | each status holds in exactly its own minutes, by the hours of the exchange and the entry of the day |
| Calendar.NextOfIs | src/calendar.c:697-702 | the scan of the boundaries gives the least one after the minute, or -1 when there is none |
| Calendar.NextTradingIs | src/calendar.c:705-721 | the look-ahead finds the first trading day of its range, or there is none |
| CalendarProofs.StatusConstant | src/calendar.c:630-664 | between two boundaries of a day the status stays |
| CalendarProofs.StatusChanges | src/calendar.c:630-664 | at the next boundary it changes, if and only if that is not an early close during lunch |
| CalendarProofs.ClosedUntil | src/calendar.c:705-721 | over any number of holidays and weekends every minute is closed up to the first session of the next trading day, and that minute is not |
| CalendarProofs.MinutesUntilChangeIsLeast | src/calendar.c:671-722 | the result is -1 exactly when nothing is left today and none of 30 days trades; otherwise every minute before it has the status of now, and that minute differs if and only if no early close falls inside the present lunch |
| CalendarProofs.EarlyCloseInLunch | src/calendar.c:671-722 | the instance, on any weekday: lunch from 12:00 to 13:00 and an early close at 12:30 |
| CalendarProofs.PastRangeStays | src/calendar.c:759-785 | once past the generation range, always past it |
| CalendarProofs.NextBoundaryIsEarliest | src/calendar.c:759-797 | the next open or close is the earliest one on a trading day strictly later than now; nothing is returned only when none lies within 400 days and the range |
| CalendarCode.LastEntryWins | src/calendar.c:248-274 | within capacity the merged table is the map in which the last entry for a date wins, for every date |
| CalendarCode.ParsesTime | src/calendar.c:230-236 | a printed hour and minute are read as the minute of the day if and only if they are a time |
| CalendarCode.ParsesNoTime | src/calendar.c:230-236 | a number without a second one behind a colon is no time |
| CalendarCode.EntryMeans | src/calendar.c:262-273 | an entry closes its day, ends it early, or does neither, as its status says |
| CalendarCode.ExplicitDecidesIff | src/calendar.c:242-247 | within capacity a date is read as the comment says if and only if an ad hoc entry decides it or the explicit and generated entries do not both exist and differ |
| CalendarCode.GeneratedOverridesExplicit | src/calendar.c:353-364 | the instance, for any date: explicitly closed, generated as an early close |
| CalendarCode.HolidayTable.ParseArray | src/calendar.c:248-274 | loading an array changes the table as merging its entries changes the map |
| CalendarCode.HolidayTable.PutEntry | src/calendar.c:258-272 | one entry replaces the one with its date, is appended, or is dropped when the table is full |
| CalendarCode.HolidayTable.SortByDate | src/calendar.c:367-367 | the table is strictly sorted by date and holds the same entries |
| CalendarCode.HolidayTable.Find | src/calendar.c:585-594 | the binary search agrees with the map for every date string |
| CalendarCode.UpdateRepresents | src/calendar.c:260-272 | overwriting an entry in place is updating the map |
| CalendarCode.AppendRepresents | src/calendar.c:260-272 | appending an entry is extending the map |
| CalendarCode.MovedRepresents | src/calendar.c:367-367 | moving an entry loses and doubles nothing |
| CalendarCode.MovedSorted | src/calendar.c:367-367 | moving an entry to its position extends the sorted part |
| CalendarCode.LoadedExchange.constructor | src/calendar.c:353-367 | loading the three arrays in order gives the exchange whose holidays are their merge |
| CalendarCode.LoadedExchange.ComputeDaySchedule | src/calendar.c:602-620 | the schedule found through the sorted table is the schedule of the map |
| CalendarCode.LoadedExchange.MinutesUntil | src/calendar.c:671-722 | the scanning loops compute MinutesUntilChange |
| CalendarCode.LoadedExchange.LeastAfter | src/calendar.c:697-701 | the best-so-far loop computes the least later boundary |
| CalendarCode.LoadedExchange.FindNextBoundary | src/calendar.c:759-785 | the day loop computes NextBoundary |
| OperatorProofs.ListFromAgrees | src/operators.c:581-594 | from any node on the loop computes the rest of the AND-OR list, when the lists that & ends are single commands |
| OperatorProofs.SequenceIsAndOrList | src/operators.c:573-868 | on chains of AND, OR, sequence and background operators and groups in which & ends single commands, the prev/node loop computes the left-associative AND-OR lists of section 2.9.3 of the POSIX Shell Command Language, for every machine and every way to launch a list |
| OperatorProofs.SequenceIsPosixIff | src/operators.c:573-868 | it computes them for all machines and launchers if and only if no & ends a list of several commands |
| OperatorProofs.AmpTakesLastOnly | src/operators.c:701-772 | the instance: of two commands joined by AND and ended by & the first runs in the foreground |
| OperatorProofs.OperandStep | src/operators.c:581-594 | one node of such a chain is skipped or run as the operator before it and the last status say |
| OperatorTraces.ValidRangeIff | src/operators.c:437-475 | a date range is accepted if and only if it is two years or two full dates around a colon |
| OperatorTraces.TraceFits | src/operators.c:573-868 | in every run a command or group starts in the background only when marked so and runs to its end only when not, groups are run as groups, and every operator acts on its own neighbours |
| OperatorTraces.OwnNode | src/operators.c:701-864 | a node that no operator takes or skips runs or starts exactly once, as marked, and is stepped over when it is empty or its own operator takes it |
| OperatorTraces.SkippedNode | src/operators.c:589-595 | a node that its guard skips is stepped over |
| OperatorTraces.TakenNode | src/operators.c:599-699 | a node behind a log, pipe or backtest operator is what that operator acts with, once, and fails a backtest when it is no date range |
| OperatorTraces.CheckerNode | src/operators.c:603-636 | a node behind a gate is its checker, and takes a command piped behind it and a log file behind that along |
| OperatorProofs.NextStopIsNext | src/operators.c:603-636 | which nodes a turn consumes does not depend on any status |
| OperatorProofs.TurnTimes | src/redirection.c:259-396 | a turn runs each command at most once; which ones it can run, and that it runs a captured right operand when its gates pass |
| OperatorProofs.TimesBefore | src/operators.c:598-699 | from a node on, the node before it runs exactly if the operator between them captures it, and no earlier one runs at all |
| OperatorProofs.RunsAtMostOnce | src/operators.c:573-868 | every run of every machine runs each command at most once if and only if the chain is clean: no right operand of a pipe, or of a gate with a left command, is captured in turn, but for the absorbed form |
| OperatorProofs.CleanRunsOnce | src/operators.c:573-868 | in a clean chain, from any node, state and status, every command runs at most once |
| OperatorProofs.UncleanRunsTwice | src/operators.c:573-868 | in any other chain some command runs twice in every run whose gates pass |
| OperatorProofs.SeparatedIsClean | src/operators.c:740-748 | chains without two adjacent capturing operators are clean |
| OperatorProofs.AbsorbedIsClean | src/operators.c:609-631 | so are chains whose adjacent capturing operators all lie inside absorbed forms of a gate followed by a pipe, with or without a log, wherever these stand |
| OperatorProofs.TidyRunsOnce | src/operators.c:573-868 | every command of such a chain runs at most once |
| OperatorProofs.SkippedOperandRuns | src/operators.c:588-594 | an operand that AND or OR skips runs after all exactly when a capturing operator with an operand of its own follows it |
| OperatorProofs.GuardDoesNotStopCapture | src/operators.c:588-600 | the instance: logging the second command after the first has failed |
| OperatorProofs.AdjacentCapturesRunTwice | src/redirection.c:403-635 | the instance: the checker of a gate runs a second time for its log, unless the configured limits refuse the lines before it starts |
| OperatorProofs.GroupBeforeGateIsClean | src/redirection.c:403-405 | with a group on the left the gate returns at once and the checker runs only for the log |
| OperatorCode.SplitOnOperators | src/operators.c:242-350 | the character loop with its quote and brace state computes SplitFrom |
| OperatorCode.NodesAreWellFormed | src/operators.c:380-393 | groups have no arguments |
| OperatorCode.SetLastOperator | src/operators.c:361-369 | an operator goes into the last node of the list and changes nothing else |
| OperatorCode.AppendNode | src/operators.c:409-416 | a node is linked at the end of the list |
| OperatorCode.TakePart | src/operators.c:360-417 | one part changes the list as AddPart changes the sequence |
| OperatorCode.ParseOperators | src/operators.c:352-426 | the linked list built in place holds exactly the nodes of the parts, in order |
| OperatorCode.GateNode | src/operators.c:603-636 | the gate handler performs GateTurn and steps to the right node |
| OperatorCode.OneNode | src/operators.c:581-864 | one turn of the loop over the linked list performs TurnAt |
| OperatorCode.ExecuteSequence | src/operators.c:573-868 | walking the list gives the state and status of RunFrom |
| OperatorText.PassesSplit | src/operators.c:266-336 | the splitter reads over a text without operators in any quote and brace state |
| OperatorText.SplitOfJoin | src/operators.c:242-350 | commands joined by operators are split into exactly those commands and operators |
| OperatorText.LineToChain | src/operators.c:352-426 | and parsed into one node each, with its own operator |
| OperatorText.QuotesHideOperators | src/operators.c:268-281 | whatever stands between two quotes never splits |
| OperatorText.BracesHideOperators | src/operators.c:283-286 | nor does what stands between braces, at any depth |
| Words.ReadSingle | src/input_parser.c:82-103 | the nested loops over a single-quoted part compute Single, embedded quotes included |
| Words.ReadName | src/input_parser.c:119-136 | the longest run of name characters, up to 255 |
| Words.ReadVariable | src/input_parser.c:116-144 | the expansion and the end of a variable in double quotes |
| Words.ReadDouble | src/input_parser.c:106-150 | the loop over a double-quoted part computes Double |
| Words.ParseInput | src/input_parser.c:76-209 | the tokenizer loop computes Tokens |
| Words.AppendShellQuoted | src/redirection.c:142-167 | the buffer afterwards is Appended, truncation included |
| Words.AppendedFits | src/redirection.c:142-167 | the buffer never overflows, and holds the whole quoted argument if and only if it fits |
| Words.JoinArgs | src/redirection.c:187-195 | the joined line stays within its buffer and is the whole line when that fits |
| WordProofs.SingleOfEscaped | src/redirection.c:148-163 | reading an escaped text up to its closing quote gives the text, consecutive quotes included |
| WordProofs.PlainWord | src/input_parser.c:159-206 | an unquoted word of plain characters is one token |
| WordProofs.WordRoundTrip | src/redirection.c:142-167 | a quoted argument followed by anything is read back as that one token |
| WordProofs.JoinRoundTrip | src/redirection.c:187-195 | quoting, joining with spaces and tokenizing gives back the argument list |
| WordProofs.NoReturnChar | src/input_parser.c:152-157 | no token of unquoted text holds a carriage return |
| WordProofs.FirstTokenKeeps | src/input_parser.c:76-209 | what has been read of a word stays at its start |
| WordProofs.SurvivesIff | src/redirection.c:142-167 | an argument survives quoting and tokenizing if and only if it is not empty and is quoted, plain, or a redirection operator of its own |
| WordProofs.UnquotedSplit | src/input_parser.c:152-157 | after any unquoted text, whatever it expands to, a space starts a new word |
| WordProofs.NoEmptyToken | src/input_parser.c:62-74 | no token is empty |
| WordProofs.JoinedWords | src/redirection.c:187-195 | the tokens of a joined line are those of its arguments one after the other |
| WordProofs.JoinSurvivesIff | src/redirection.c:142-195 | an argument list survives quoting, joining and tokenizing if and only if every argument does: no loss is made up for elsewhere |
| WordProofs.WrittenAsIsIff | src/redirection.c:142-145 | an argument is written without quotes if and only if it holds no blank, newline, backslash or quote |
| WordVariables.DoubleMeans | src/input_parser.c:106-150 | a double-quoted text is read as its parts: variables, with or without braces, and $? become their values and everything else stays |
| WordVariables.QuotedWordMeans | src/input_parser.c:76-150 | as a word it is one token, whatever the values hold, and none when it is empty |
| WordVariables.SingleMeans | src/input_parser.c:82-103 | a single-quoted text is read as it stands, with both forms of an embedded quote |
| WordDispatch.PiecesOfSplit | src/operators.c:242-350 | a line in one piece, each operator in what the splitter takes for quotes or braces, is one part; any other line has an operator among its parts |
| WordDispatch.NodeIsArgs | src/operators.c:380-407 | a part becomes a node with given arguments if and only if it is no brace group, its words are these, and the last is not a lone & |
| WordDispatch.JoinedEnd | src/redirection.c:187-195 | a joined line whose last argument is not empty does not end in a blank, so the splitter trims nothing |
| WordDispatch.RunsAgainIff | src/script.c:374-412 | a joined argument list, taken as it stands, is read as that one command again if and only if every argument survives quoting and the line passes the operator and pipe tests: without operator and pipe, or with all operators hidden from the splitter, no brace group and no last & |
| WordDispatch.SemicolonSplits | src/redirection.c:136-146 | the instance: the argument a;b is not quoted, survives the tokenizer, and its line runs as two commands |
| WordDispatch.QuoteUncoversOperator | src/operators.c:266-281 | an instance that is quoted: the splitter takes the end of an escaped quote for the end of the quoting and splits inside the argument |
| StreamReader.StreamSub.Fill | src/streaming_sub.c:199-213 | a refill of the buffer changes nothing about the bytes still to come |
| StreamReader.StreamSub.NextByte | src/streaming_sub.c:199-215 | the next byte of the stream, or its end |
| StreamReader.StreamSub.ReadLine | src/streaming_sub.c:190-241 | the line returned, a C string, and the bytes left depend only on the bytes that were left; after the end nothing is returned any more |
| StreamReader.StreamSub.Drain | src/streaming_sub.c:190-241 | reading to the end returns exactly the lines of the stream |
| StreamReader.LinesStep | src/streaming_sub.c:190-241 | one call returns the first of the remaining lines and leaves the others |
| StreamReader.LinesOfUnlines | src/streaming_sub.c:190-241 | the lines are the newline-separated ones without carriage returns, cut to 4095 characters and at the first NUL; an overlong line does not shift later ones, and a non-empty unterminated last line counts |
| StreamReader.DeliveredIsConcat | src/streaming_sub.c:199-213 | how the bytes are cut into reads does not matter |
| StreamReader.Registry.Add | src/streaming_sub.c:52-55 | a handle is registered while there is room |
| StreamReader.Registry.Remove | src/streaming_sub.c:57-64 | the last handle takes the removed one's place |
| StreamReader.Registry.Close | src/streaming_sub.c:248-278 | closing also removes from the registry |
| StreamReader.Registry.CloseAll | src/streaming_sub.c:285-291 | every registered stream is closed exactly once and the registry is empty |
| StreamReader.SwappedRemoves | src/streaming_sub.c:57-64 | the swap removes that handle and no other |
| JsonArray.ReadString | src/calendar.c:177-181 | the string loop ends just past the closing quote |
| JsonArray.ReadBlock | src/calendar.c:173-182 | the depth loop ends where the depth is back at zero |
| JsonArray.NextArrayObject | src/calendar.c:168-190 | the walker returns the next object text and moves the cursor past it, as Next says |
| JsonArray.ReadObjects | src/currency.c:204-206 | the loading loop reads exactly the objects that repeated calls return |
| JsonArray.OverString | src/currency.c:135-140 | brackets inside a string, escaped quotes included, never move the depth |
| JsonArray.OverValue | src/currency.c:122-150 | inside a block the walker reads over any well-formed value (sections 2 to 7 of RFC 8259) and is at the same depth after it |
| JsonArray.OverItems | src/currency.c:122-150 | the same over the items of an array |
| JsonArray.OverMembers | src/currency.c:122-150 | the same over the members of an object |
| JsonArray.ExtentIsBlock | src/currency.c:122-150 | a block is read exactly to its own closing bracket, whatever it nests |
| JsonArray.BlockIsValue | src/calendar.c:198-227 | so it is when only the block's own kind of bracket is counted |
| JsonArray.ObjectsOfArray | src/currency.c:122-150 | repeated calls return exactly the array's object texts, in order, and then nothing |
| JsonArray.ArrayRoundTrip | src/currency.c:199-206 | the same for a whole array from just past its opening bracket |
| Ledger.BuyKeepsSound | src/broker.c:410-454 | a buy, filled or rejected, keeps the books balanced, cash and quantities non-negative and tickers unique |
| Ledger.SellKeepsSound | src/broker.c:456-494 | so does a sell |
| Ledger.OrdersKeepSound | src/broker.c:410-494 | after every sequence of orders cash plus cost minus realized gains is the starting cash, nothing is negative, tickers are unique, and order numbers count exactly the fills |
| LedgerOrders.BuyFillsIff | src/broker.c:410-454 | a buy fills if and only if the cash covers it and the ticker is known or fewer than 256 are; then it pays exactly that, adds the shares and takes the next order number, and otherwise nothing changes |
| LedgerOrders.SellFillsIff | src/broker.c:456-494 | a sell fills if and only if the shares are held; the same for what it changes |
| LedgerOrders.GainIs | src/broker.c:410-494 | only a sell realizes a gain, of the price less the average cost for each share, and it leaves the average cost alone |
| LedgerOrders.FillsAccount | src/broker.c:410-494 | after every sequence of orders the shares of each ticker are those the filled orders bought less those they sold, the cash is the capital less what they paid, neither is negative, and the order number counts them |
| Ledger.ValueIsCostPlusGain | src/broker.c:496-615 | market value is cost plus unrealized gain, at any prices |
| Ledger.ProfitSplits | src/broker.c:1556-1568 | total profit is realized plus unrealized profit |
| Ledger.LiveSums | src/broker.c:383-385 | dropping flat positions changes neither cost nor market value, and realized gains by what they held |
| Ledger.LiveIsOnePerTicker | src/broker.c:383-385 | nor does it double a ticker |
| Ledger.ReloadKeepsEquity | src/broker.c:329-391 | a save and a load keep the equity at every price, for values of four decimals |
| Ledger.ReloadConservesIff | src/broker.c:383-385 | they keep the account sound if and only if the gains of the flat positions add up to zero |
| Ledger.ReloadForgetsGain | src/broker.c:383-385 | the instance: one share bought and sold at a profit |
| Ledger.EventsKeepSound | src/broker.c:329-494 | over every run of orders and restarts the account is sound but for exactly the gains the restarts have dropped |
| LedgerCode.Paper.FindSlot | src/broker.c:398-400 | the first slot with the ticker |
| LedgerCode.Paper.FindOrCreate | src/broker.c:397-408 | an existing slot, a new empty one at the end, or none when the ledger is full |
| LedgerCode.Paper.ExecuteBuy | src/broker.c:410-454 | the record changes as Buy says, and not at all on a rejection |
| LedgerCode.Paper.FillBuy | src/broker.c:440-446 | the average cost of the slot absorbs the notional |
| LedgerCode.Paper.ExecuteSell | src/broker.c:456-494 | the record changes as Sell says |
| LedgerCode.Paper.Profit | src/broker.c:1556-1568 | equity over the open positions minus the starting cash |
| LedgerCode.Paper.SaveAndLoad | src/broker.c:329-391 | a new record loaded from a save is Reloaded |
| LedgerCode.Paper.CloseAll | src/broker.c:1446-1457 | every position whose sale passes the pre-trade rules at its turn is flat and the others are as they were; the number sold, the order numbers, the balance of the books and the unchanged equity |
| LedgerCode.FlattenOne | src/broker.c:1292-1321 | one round of that loop |
| LedgerCode.FlatIff | src/broker.c:1292-1321 | no position is left over if and only if each one passes the size and symbol rules and the day has room for all of them |
| LedgerCode.PermitsIff | src/broker.c:1292-1321 | the sale of a position passes the rules if and only if it is within the configured size and its symbol on the configured list, where these are set |
| LedgerCode.CloseAllFlattensIff | src/broker.c:1446-1457 | the same for the account the loop leaves |

## Left out

- Forking, pipes, FIFOs, signals, readline, prompts, the network adapters and file opening:
  only the bytes and statuses they deliver appear, as uninterpreted functions or inputs.
- Running a command, alias and variable expansion and substitutions: uninterpreted functions
  of the shell state.
- Floating point: the ledger uses exact reals. Printing doubles is a rounding that keeps
  values of four decimals.
- Ledger.OrdersKeepSound: quantities and order numbers are unbounded, because the 32-bit
  overflow of a position is not modelled.
- LedgerCode.Paper.SaveAndLoad: the text of the account file is not modelled, only the values
  written and read.
- LedgerCode.Paper.CloseAll: assumes positive quotes, unique tickers and no change of date
  during the loop; the command line each sale is passed through is not modelled.
- CheckpointSave.CrashSafe: covers runs in which saves do not overlap and no saved body has an
  early mark, because without either it is false; see CheckpointSave.OverlapRestoresUnsaved and
  CheckpointSave.NewlineBreaksCrashSafety.
- CheckpointSave.RunKeepsInv: covers the same runs, for the same reason.
- CheckpointJobs.JobTable.Reenter: whether a process runs is an uninterpreted predicate, and
  process ids do not wrap.
- AuditLines.AcceptedLinesBind: characters are bytes, as in every file.
- AuditProofs.HonestLogAccepted: commands, user names and times are C strings and hold no NUL.
- CalendarCode.ExplicitDecidesIff: assumes a table with room for all dates, because a full
  table drops entries.
- CheckpointRoundTrip.RestoreOfWrite: needs fields in which newlines stand in environment entries
  only; for other fields see CheckpointRoundTrip.RestoreOfClean and
  CheckpointRoundTrip.WrittenIntactIff.
- WordDispatch.RunsAgainIff: the line as it stands; aliases, substitutions and the expansion of
  variables, before the tests and in the words after them, are not modelled.
- Calendar.NextTradingIs: days are those whose year has four digits; time zones and daylight
  saving are not part of this model, which uses a local day and minute.
- CalendarCode.HolidayTable.SortByDate: qsort is an insertion sort with the same order.
- CalendarCode.HolidayTable.ParseArray: the fields of an entry are given; their extraction by
  key from the object text is not part of this model.
- OperatorCode.OneNode: the background mark is a local value, because the one written into the
  node is only read in the same turn; a failing pipe() is not modelled.
- OperatorCode.ParseOperators: the number of parts is unbounded where the code allocates room
  for 1024.
- JsonArray.ReadString: an unterminated string ends with the text.
- StreamReader.StreamSub.ReadLine: bytes are characters; a read error ends the stream, as in
  the code.
- Audit: comment lines are not chained by the code either, so the results are about records.
  Usernames are free of commas, quotes and newlines, and commands of newlines. One writer at a
  time, because the chain hash lives in memory.
- Helpers without a loop in C of their own (strchr, strstr, strncpy, printf of numbers,
  trimming) are recursive functions in Text.dfy.
- The currency table, alias storage, risk limits, synthetic prices, the pipeline stages and the
  formatting of reports: they would only add easy members.
