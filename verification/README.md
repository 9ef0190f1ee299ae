# wsh: a Dafny model of the toy shell's bookkeeping

`wsh` is a toy Unix shell kept as a series of iterations (`wsh1.c` to
`wsh7.c`, `wshX.c`). Each is one large `main` built around `fork`,
`execvp`, `pipe` and `waitpid`. This project models the sequential
bookkeeping inside that plumbing and proves properties about it:

- **Tokenizing and parsing** (`text.dfy`, `parser.dfy`).
  - A line is split on `|` with `strsep`, which keeps empty fields.
  - Each segment is tokenized on spaces with `strtok`, which skips runs of spaces.
  - The first token of each segment is the command.
  - `&` tokens are dropped and set the background flag.
  - Arguments are capped at `MAX_INPUT_SIZE - 2`.
  - Stages are capped at `MAX_PROCESSES`. The cap is 15, or 10 in wsh4 and wsh7.
  - `piping_flag` is set when there is more than one stage.
  - `job_string` joins the stages with `" | "`.
  - The differences between iterations are a `Dialect` parameter:
    - wsh4 leaves the command out of `args`;
    - wsh4 and wsh7 do not handle `&`;
    - wsh2 and wsh3 split the whole line on single spaces.
- **Job ids** (`job_ids.dfy`).
  - wsh6 uses a flag array indexed by id, with allocate and release in `main`.
  - wsh5 and wshX instead scan for the smallest value absent from the array.
  - wshX also tracks `largest_job_id`.
- **The background table** (`job_table.dfy`).
  - wsh6 keeps a packed table with append and with remove-by-identity that shifts later entries left.
  - wsh5 and wshX put a job into the first NULL slot among indices 0..99.
  - The `jobs` listing is included, and its text parses back to the listed job.
- **Builtin dispatch** (`builtins.dfy`).
  - This is the decision each iteration takes for a line: `exit`, `cd`, `jobs`, `fg`, `bg`, a usage error, running `/bin/<command>`, or a pipeline.
  - The iterations disagree on how many operands `cd` accepts.
- **Pipe descriptors** (`pipes.dfy`).
  - Descriptors are abstract numbers. `pipe()` adds two fresh ones and `close` removes one.
  - The rolling `prev_pipe_read` loop of wsh5, wsh6 and wshX is modelled.
  - So is wsh7's array of `n - 1` pipes created before any fork.
- **wsh6 across lines** (`shell.dfy`).
  - This covers reaping finished background jobs, allocating an id, and dispatching.
  - The id is then either released or kept by a background job.
  - The invariant `Good` says a flag is set exactly for the ids of the listed jobs.

Where the shell's documented behaviour and its code disagree, the model
follows the code:

- wsh6 hands out ids 1..255, not 1..256.
- `cd`'s operand count differs between iterations instead of being
  "exactly one".
- wsh6 does not release the id of a `cd`/`fg` usage error. This is under
  Findings.

Nothing here runs the shell. Which background jobs have finished is an
input to the reap, standing in for what `waitpid(..., WNOHANG)` would report.

## Model

| member | source | states |
|---|---|---|
| Text.JoinFields | wsh2.c:40-43 | `strsep` loses nothing: joining the fields with the delimiter gives the line back |
| Text.FieldsCount | wsh2.c:40-43 | `strsep` yields one field per delimiter plus one, empty fields included |
| Text.FieldsSplit | wsh6.c:184 | splitting `a + "|" + b` gives the fields of `a` followed by those of `b` |
| Text.TokensOfJoin | wsh6.c:216-222 | `strtok` on words joined by single spaces gives the words back |
| Text.TokensIgnorePadding | wsh6.c:216-222 | a leading or trailing delimiter does not change the `strtok` tokens |
| Text.NonEmptyAppend | wsh6.c:216-222 | dropping empty fields commutes with concatenation, which is how `strtok` tokens relate to `strsep` fields |
| Text.DigitsRoundTrip | wsh6.c:112 | the `%d` text of a non-negative id reads back as the same id |
| Parser.DropAmp | wsh5.c:136-140 | no `&` survives among the kept tokens |
| Parser.ScanArgsSpec | wsh1.c:79-93 | the argument loop keeps the first `room` non-`&` tokens in order, and sets the background flag only if an `&` was read; with room to spare, exactly when the segment has one |
| Parser.ParseStageSpec | wsh6.c:216-235 | the first token is the command and `args[0]` (wsh4: not in `args`); `arg_count` stays within `MAX_INPUT_SIZE - 2`; no `&` among the arguments; the arguments are the later tokens in order |
| Parser.ScanArgs | wsh6.c:220-235 | the argument loop keeps at most `room` tokens, each one of the segment's later tokens; in the iterations that drop `&` none is kept, and the background flag is set only when an `&` was read |
| Parser.ParseStage | wsh6.c:216-235 | the first token is the command and, except in wsh4, `args[0]`; there are at most `MAX_INPUT_SIZE - 2` arguments, each a token of the segment; the background flag comes only from an `&` after the command |
| Parser.Segments | wsh6.c:184-222 | one token list per `|` in the line plus one; every token is non-empty and holds neither a space nor a `|` |
| Parser.StoreConsistent | wsh1.c:95-118 | storing a stage keeps `piping_flag` equivalent to more than one stage and `job_string` equal to the `" | "` join of the stage texts |
| Parser.ParseSegmentsOk | wsh7.c:103-111 | the loop fails exactly when there are more segments than `MAX_PROCESSES` |
| Parser.ParseSegmentsConsistent | wshX.c:149-172 | every job the loop returns has at most `MAX_PROCESSES` stages, id -1, the piping flag and the job string as intended |
| Parser.ParseSegmentsStages | wsh5.c:145-153 | the stored stages are the segments' parses, in order |
| Parser.ParseSegmentsBackground | wsh1.c:85-89 | the background flag is set exactly when some stage read an `&` |
| Parser.ParseSegments | wsh6.c:184-261 | on success the stages stored before stay first, the stage count stays within `MAX_PROCESSES`, and a background flag once set stays set |
| Parser.ParseLine | wsh6.c:175-261 | a line parses exactly when it has fewer than `MAX_PROCESSES` `|` characters, into at most `MAX_PROCESSES` stages |
| Parser.ParseLineSpec | wsh6.c:184-261 | a whole line parses exactly when it has at most `MAX_PROCESSES` segments, into one stage per segment with the piping flag iff more than one, background iff an `&`, id -1, and the `" | "` job string (empty in wsh4 and wsh7) |
| Parser.SimpleArgs | wsh2.c:34-45 | the space-split arguments number the spaces plus one, contain no space, and rejoin to the line |
| JobIds.SmallestFreeFrom | wsh6.c:72-77 | the first index from `from` up to 255 whose flag is 0, or -1 when there is none |
| JobIds.GetSmallestAvailableJobId | wsh6.c:71-78 | returns the smallest id in 1..255 whose flag is 0, never 0, and -1 exactly when ids 1..255 are all in use |
| JobIds.Allocate | wsh6.c:264-272 | the allocated id is the smallest free one and its flag becomes 1, nothing else changes; with none free the shell exits with status 1 |
| JobIds.Release | wsh6.c:349 | clearing the flag of an id sets that slot to 0 and changes no other slot; for an id of at least 1 the next allocation returns an id no larger than it |
| JobIds.ForegroundRoundTrip | wsh6.c:349 | allocating and then clearing `used_job_ids[id]` restores the pool, so the next allocation returns the same id |
| JobIds.AllocateTwiceDistinct | wsh6.c:264-267 | two allocations without a release hand out different ids, the second larger |
| JobIds.SmallestAbsentFrom | wsh5.c:73-87 | the smallest value from `from` up to `MAX_JOBS` that occurs nowhere in the array, or -1 |
| JobIds.SmallestAbsentValue | wshX.c:74-88 | the nested scan returns the smallest of 1..256 absent from `used_job_ids`, -1 only when all are present |
| JobIds.ExhaustedOnlyWhenFull | wshX.c:86-87 | the scan fails only when the 256 slots hold exactly the values 1..256 |
| JobIds.AssignJobId | wshX.c:175-187 | the job gets the smallest absent value (exit status 1 when none), and `largest_job_id` becomes the maximum of itself and that id |
| JobIds.UnwrittenPool | wshX.c:72 | the never-written `used_job_ids` array has 256 slots, every one 0, so none of the values 1..256 occurs in it |
| JobIds.EveryJobGetsOne | wshX.c:176-183 | since `used_job_ids` is never written, every line's job gets id 1 |
| JobIds.LargestBoundsIds | wshX.c:184-187 | `largest_job_id` never decreases and bounds every id assigned |
| JobTable.IndexOf | wsh6.c:90-95 | the position of the first slot holding the target |
| JobTable.RemoveBackgroundJob | wsh6.c:87-106 | a present target's first occurrence is removed, later entries shift left in order, size drops by one, slots from the new size on are untouched; an absent target changes nothing |
| JobTable.RemoveFromTable | wsh6.c:97-105 | the table the removal leaves drops exactly the first occurrence of the target from the live slots, shrinks size by one and leaves the slots from the new size on as they were; an absent target changes nothing |
| JobTable.AddToBackgroundJobs | wsh6.c:134-146 | below capacity the copy goes into slot `size`, size grows by one and other slots are untouched; at capacity the table is reported full and unchanged |
| JobTable.FirstNull | wsh5.c:181-187 | the first NULL slot among 0..99 from `from`, or none when all are taken |
| JobTable.AddToFirstFreeSlot | wshX.c:201-208 | the job takes the first NULL slot among 0..99 and size grows by one; with none, nothing changes; slots from 100 on are never touched |
| JobTable.DisplayStages | wsh6.c:114-119 | one listing text per stage; when `args[0]` is the command, as in every iteration but wsh4, the text is the argument vector joined by single spaces |
| JobTable.PrintBackgroundJobs | wsh6.c:109-132 | the listing of an empty table is empty; when no listed job's text holds a newline, the listing holds exactly one newline per live slot |
| JobTable.ListingAfterAdd | wsh6.c:142 | a job appended to the table is listed last, after the unchanged earlier lines |
| JobTable.ListingAfterRemove | wsh6.c:97-105 | removing an entry from the table removes exactly its line from the listing; the other lines keep their order |
| JobTable.JobLineShape | wsh6.c:112 | a `jobs` line starts with the id's digits, which read back as the id, then `": "`, and ends with a newline |
| JobTable.JobStringRepeatsCommand | wshX.c:163-169 | a stage's `job_string` text is the command, a space, and then its listing text, so the command appears twice |
| JobTable.DisplayRoundTrip | wsh6.c:113-130 | the text a `jobs` line shows after `"<id>: "` parses back (as wsh6) to the same job with id -1 |
| Builtins.ExecPath | wsh5.c:262-264 | `"/bin/" + command`, cut to `MAX_INPUT_SIZE - 1` characters; the source cuts bytes, see Left out |
| Builtins.Dispatch | wsh6.c:284-409 | wsh1 takes no action; only a single stage exits, always with status 0; `cd` and usage errors occur only for a single stage naming a builtin of the iteration; a non-builtin single stage runs `/bin/<command>` with its own argument vector; a pipeline forks one child per stage and waits at most once per stage |
| Builtins.DispatchWords | wsh2.c:47-91 | wsh2 and wsh3 exit with status 0 exactly when the first field is `exit`; `cd` changes to the second field only with exactly two fields and is a usage error only otherwise; `jobs` does nothing exactly in wsh2; a run is of `/bin/<first field>` with all the fields, waited for |
| Builtins.CdUsage | wsh7.c:204-211 | `cd` is a usage error exactly when the operand count is outside what the iteration accepts (wsh6 at least one, the others at most one); otherwise `chdir` gets the first operand or NULL |
| Builtins.WordsCdUsage | wsh2.c:51-58 | wsh2 and wsh3 `cd` is a usage error exactly when `arg_count != 2`; otherwise it changes to `args[1]` |
| Builtins.CdOneOperandAgrees | wsh4.c:124-131 | every iteration changes to the directory when `cd` has exactly one operand |
| Builtins.WordsDoubleSpaceCd | wsh3.c:58-65 | `cd x` decides a change to `x` but `cd  x` (two spaces) decides a usage error, because `strsep` keeps the empty field; in wsh3 the decision runs in the forked child, which does not exit afterwards and goes on reading lines as a nested shell in the new directory while the parent waits for it |
| Builtins.ExitStatusZero | wsh2.c:48-50 | a single-stage `exit` decides an exit with status 0 in every iteration that acts on a line; in wsh3 that decision runs in the forked child, so only the child exits |
| Builtins.ExternalCommand | wsh6.c:376-407 | a non-builtin single stage runs `/bin/<command>` with its arguments, waited for except in wsh4 and for a wsh6 background job |
| Builtins.PipedJob | wshX.c:294-297 | a piped job forks one child per stage and is waited on once per stage, except a wsh6 background job |
| Builtins.FgBgUsage | wshX.c:312-315 | wshX `bg` is a usage error exactly with two or more operands; wsh6 `fg` exactly with none |
| Pipes.OpenPipe | wsh6.c:289 | `pipe()` adds two distinct descriptors not held before |
| Pipes.RollingPipeline | wsh6.c:284-337 | the parent ends holding exactly the descriptors it started with; stage i reads pipe i-1 iff i > 0 and writes pipe i iff i < n-1; no child keeps a created descriptor except the last stage's unused pipe |
| Pipes.RollingChild | wsh6.c:299-315 | a stage reads the previous pipe's read end, if any, and writes the current pipe unless it is last; the descriptors it keeps were created for the pipeline and never include those it redirected; when it is not last and only those pipes are open it keeps none |
| Pipes.RollingConnected | wsh5.c:209-221 | stage i's output pipe is stage i+1's input pipe; the first stage keeps the shell's standard input and the last its standard output |
| Pipes.UpFrontPipes | wsh7.c:130-180 | exactly n-1 fresh pipes are created before the forks, every child inherits all of them, and the parent then closes both ends of each, ending with what it started with |
| Pipes.Wsh7Child | wsh7.c:148-170 | stage i reads `pipes[i-1]` iff i > 0 and writes `pipes[i]` iff i < n-1; it closes both ends of its adjacent pipes and keeps every other descriptor created for the job |
| Pipes.Wsh7ChildWiring | wsh7.c:150-165 | stage i reads `pipes[i-1]` iff i > 0 and writes `pipes[i]` iff i < n-1, and keeps both ends of every non-adjacent pipe |
| Pipes.Wsh7ThirdStageHoldsFirstWriter | wsh7.c:148-170 | with three stages, stage 2 still holds the write end of stage 1's input pipe |
| Pipes.Wsh7ChildClosingAll | wsh7.c:150-165 | the child as intended keeps the same redirections and no pipe descriptor at all |
| Pipes.Wsh7ClosingAllSoleEnds | wsh7.c:150-165 | with every child closing all pipe descriptors, the write end of pipe k is held by stage k alone, as its standard output, and the read end by stage k+1 alone, as its standard input, so stage k+1 sees end of input once stage k exits |
| Shell.Init | wsh6.c:153-156 | the initial state (all flags 0, empty table) satisfies the invariant |
| Shell.Reap | wsh6.c:189-215 | the reap as intended: the unfinished jobs stay listed in order |
| Shell.ReapKeepsGood | wsh6.c:189-215 | the intended reap keeps the flags equal to the ids of the listed jobs |
| Shell.ReapIdempotent | wsh6.c:184-193 | reaping again with the same finished jobs changes nothing, so reaping before every segment equals reaping once |
| Shell.ReapAsWritten | wsh6.c:189-215 | the loop as written: remove by identity, clear the flag of `job_id - 1` read after the shift, advance i |
| Shell.ReapAsWrittenKeepsId | wsh6.c:203 | a finished job with id 1 is removed, yet its flag stays set and the invariant breaks |
| Shell.ReapAsWrittenSkipsNext | wsh6.c:209-213 | of two adjacent finished jobs, the second stays listed after the loop |
| Shell.RoomForAllocated | wsh6.c:134-146 | while an id is free, fewer than 255 jobs are listed, so the 256-slot table never reports full |
| Shell.ToBackground | wsh6.c:134-146 | a job added in the background is listed last under the next address; at capacity the table stays as it was; no output, and the pool is the one given |
| Shell.Settle | wsh6.c:339-409 | apart from a failing `pipe()` or `fork()` (see Left out), the shell ends exactly on `exit`, with status 0; otherwise the pool is the allocated one with the id kept or released and nothing else changed; the table changes only by listing the job last, and then the id stays kept; only `jobs` prints |
| Shell.RunLine | wsh6.c:263-409 | with usage errors releasing their id, and apart from a failing `pipe()` or `fork()` (see Left out): the shell ends with status 1 only when no id is free and otherwise only with status 0; a line that goes on had an id allocated, and the table changes only by listing the job last under that id |
| Shell.RunLineAsWritten | wsh6.c:263-409 | the same promises hold for the code as written, where usage errors keep their id, again apart from a failing `pipe()` or `fork()` |
| Shell.ProcessLine | wsh6.c:159-410 | the corrected line (the intended reap, and usage errors releasing their id), apart from a failing `pipe()` or `fork()`: a line with at least `MAX_PROCESSES` `|` characters only reaps; the shell ends only with status 0 or 1; the table stays well formed |
| Shell.ToBackgroundKeepsGood | wsh6.c:401-405 | a background job under a free id is appended to the table and the invariant holds |
| Shell.RunLineKeepsGood | wsh6.c:263-409 | the corrected line, where usage errors release their id, keeps the invariant; the code as written breaks it (see Findings) |
| Shell.ProcessLineKeepsGood | wsh6.c:159-410 | the corrected reap, parse and corrected run together keep the invariant from line to line; the reap and usage branches as written break it (see Findings) |
| Shell.RunLineEffect | wsh6.c:339-409 | for the corrected line, where usage errors release their id, and apart from a failing `pipe()` or `fork()`: only `exit` ends the shell; a job that does not go to the background leaves the state unchanged (as written, a `cd` or `fg` usage error keeps its id, see UsageKeepsId); a background job is listed last under the smallest free id; `jobs` prints the table |
| Shell.UsageKeepsId | wsh6.c:357-365 | as written, `cd` without a directory keeps id 1 and the next job gets id 2; with the release, the state is unchanged |

## Left out

- Process creation and waiting are not modelled. That covers `fork`, `execvp`, `waitpid`, `wait`, `setpgid`, `getpgid` and process groups. Only the decision, the number of waits and the descriptor bookkeeping are modelled.
- The actual `chdir`, `getline`, the prompt, and every `printf`/`perror` message are left out, except the `jobs` listing text.
- `malloc`/`free`/`strdup`/`memcpy` are left out. Strings and jobs are values, and an Entry's `addr` stands for the pointer.
- Descriptor numbers are fresh counters. The kernel's reuse of the lowest closed number is not modelled.
- Parser.ParseLine: a line with a segment that has no token is excluded by `Parsable`, because the source calls `strdup(NULL)` there.
- Shell.ProcessLine: after "Maximum number of processes in a job exceeded" the source frees the job, allocates an id for it (wsh6.c:264-272), exiting with status 1 when none is free, and then reads `processes[0]` of the freed job. That read is undefined behaviour, so the model abandons the line right after the reap: it neither allocates an id nor models that status-1 exit for such a line.
- wsh5 uses an undefined `MAX_JOBS`. The model fixes it at 256, the size of wshX's array.
- wsh4 uses a commented-out `path`. The model uses `/bin` like the other iterations.
- wsh1 calls `initJob`, `initProcess`, `freeJob` and `freeProcess` without defining them. The model takes wsh6's definitions.
- wsh5 and wshX store the address of the stack-local `job`. Slot contents are modelled as the value passed in.
- wshX's background branch starts `processes[0]` and then runs the line again through the ordinary branch. Only the ordinary branch is modelled by Builtins.Dispatch.
- wsh3 runs its builtins in the forked child (wsh3.c:53-74). After `cd`, or its usage message, that child does not exit: it loops back to read the next line (wsh3.c:18) as a nested shell, in the new directory, while the parent waits for it (wsh3.c:78). The model keeps only the decision, not this nesting of shells.
- wsh7 waits `n` times on the last child's pid. This is modelled only as `n` waits.
- Shell.Reap: the finished set is fixed for the whole line. The source asks `waitpid` again before each segment, and ReapIdempotent shows the repetition is harmless only when nothing finishes in between.
- Shell.ReapAsWritten: a stale id of 0 would make the source write `used_job_ids[-1]`. The model leaves the flags unchanged there; it cannot happen from a Good state.
- `job_string` is an array of `MAX_INPUT_SIZE * MAX_PROCESSES` = 15360 bytes (wsh6.c:25), but the `strcat` calls at wsh6.c:253-257 append without a bound and `getline` at wsh6.c:163 accepts any length. The model's `jobString` is unbounded, so the overflow of a long line is not modelled.
- Parser.SimpleArgs: requires fewer than 1023 spaces in the line. On a longer line wsh2.c:39-45 writes past the end of `args[MAX_INPUT_SIZE]`, which is undefined behaviour and not modelled.
- C strings are NUL-terminated byte arrays. Text.Fields, Text.Tokens and Builtins.ExecPath work on Dafny characters, so a NUL inside a line and the byte length of non-ASCII text are not modelled.
- Pipes.OpenPipe: never fails. In wsh5, wsh6, wsh7 and wshX a failing `pipe()` makes the shell exit with status 1 (wsh6.c:289-292, wsh7.c:133-136); that exit is not modelled.
- Shell.RunLine: a failing `pipe()` (wsh6.c:289-292) or `fork()` (wsh6.c:296-298, 383-385) makes the shell exit with status 1. Neither failure is modelled, so the promise that status 1 means no free id, and that otherwise only `exit` ends the shell, holds only when both calls succeed.
- Shell.RunLineAsWritten: the same failing `pipe()` and `fork()` exits with status 1 are not modelled.
- Shell.Settle: the same failing `pipe()` and `fork()` exits with status 1 are not modelled; the shell's ending exactly on `exit` holds only when both calls succeed.
- Shell.ProcessLine: the same failing `pipe()` and `fork()` exits are not modelled.
- Shell.RunLineEffect: stated for the corrected line and with `pipe()` and `fork()` succeeding.
- Shell.Settle: wshX's `bg` and wsh1's no-action cases do not occur in wsh6, so they fall into the release branch.

## Findings

| source | as written | input that shows it | evidently intended | confidence | as-written member | corrected member |
|---|---|---|---|---|---|---|
| wsh6.c:203 | after removing a finished job the reap clears `used_job_ids[job_id - 1]`, reading `background_jobs[i]` after the shift | one background job with id 1 that has finished: flag 0 is cleared, flag 1 stays set although the table is empty | clear the removed job's own flag, `used_job_ids[job_id]` | high; not executed | Shell.ReapAsWrittenKeepsId | Shell.Reap |
| wsh6.c:209-213 | after a removal the loop advances `i`, so the entry shifted into slot `i` is not examined in this pass | two adjacent finished background jobs: the second stays listed | examine slot `i` again after removing from it | medium; not executed | Shell.ReapAsWrittenSkipsNext | Shell.Reap |
| wsh6.c:363-375 | the usage errors of `cd` and `fg` keep the id allocated for the line | the line `cd` in the initial state: flag 1 stays set with no job listed, the next job gets id 2 | release the id as every other non-background branch does | medium; not executed | Shell.UsageKeepsId | Shell.RunLine |
| wsh7.c:150-165 | each child closes only the pipes adjacent to it and keeps both ends of every other pipe | the line `a \| b \| c`: stage 2 holds the write end of pipe 0, so stage 1 sees no end of input while stage 2 runs | each child closes every pipe descriptor after its `dup2` calls | medium; not executed | Pipes.Wsh7ThirdStageHoldsFirstWriter | Pipes.Wsh7ClosingAllSoleEnds |
