# ca$h job control and command line, in Dafny

ca$h is a small Unix shell written in C. This project models the bookkeeping
around its system calls and proves what that bookkeeping guarantees:

- **The job table** (`cash.c`): the global `job_list[MAX_JOBS]` array (32
  slots) and the `next_jid` counter. These are updated in place by
  `init_jobs`, `add_job`, `remove_job_by_pgid`, the SIGCHLD reaper,
  `check_jobs_status`, `wait_for_job`, `put_job_in_foreground` and
  `put_job_in_background`, and read by the `find_*`/`get_*` lookups and
  `list_jobs`.
  - Module `Jobs` (`jobs.dfy`) states each operation as a function on the
    slots (a `seq<Job>`) and on `next_jid`. Its lemmas state what those
    functions promise, including the table invariant `Jobs.Inv`: live slots
    have a handed-out id, a positive pgid and a command, and no two live
    slots share an id.
  - Class `JobControl.JobTable` (`job_table.dfy`) keeps the table as an
    `array<Job>` and a counter. Every method is proved to produce exactly the
    state the matching `Jobs` function describes. Every method that writes
    the table is also proved to keep `Jobs.Inv`.
  - The `jobs`, `fg` and `bg` built-ins and the recording of launched jobs
    are methods of the class too.
- **The command-line front end** (`cash.c`, module `CommandLine`):
  - stripping a trailing `&`;
  - the job title;
  - `parse_command`'s strtok loop with its `<`/`>` targets;
  - `execute_pipeline`'s routing of a line to one command or a two-stage
    pipeline;
  - the `%<id>` argument of `fg`/`bg`.

  Each loop in the C code is a Dafny method proved against a function. The
  lemmas state the accept and reject rules of those functions.
- **The prototype shell** (`cashold.c`, module `CashOld`):
  `execute_command` splits the line on `' '` and `'\n'` into a fixed argument
  array, takes a final lone `&` as the background flag, then dispatches
  `clear`, `exit` and `cd` before launching anything.
- **C string routines** (module `CStrings`): strspn, strcspn, strtok (one step
  `StrTok`, and all tokens `Tokens`), trimming a suffix drawn from a character
  set, and atoi with its round trip through `%d`.

The model takes outcomes of the operating system as inputs:
- the pgid of a reaped child;
- the status waitpid reports (`Exited`, `Signaled`, `Suspended`, or a failed
  wait);
- whether `kill(SIGCONT)` and `strdup` succeeded;
- whether the shell is interactive;
- the value of `HOME`.

Printed lines are returned as data: the notification list of
`check_jobs_status`, the job listing of `list_jobs`, and the outcome of
`fg`/`bg`.

Job ids are never reused. `next_jid` only grows (`cash.c:118`), and a removed
or reaped job frees its slot but not its id. Only `init_jobs` sets the counter
back to 1. The model follows this code.

## Model

| member | source | states |
|---|---|---|
| CStrings.SpanIn | cash.c:568 | strspn: the length of a prefix made of characters of the set, maximal (the next character, if any, is outside the set) |
| CStrings.SpanNotIn | cash.c:572 | strcspn: the length of a prefix avoiding the set, maximal (the next character, if any, is in the set) |
| CStrings.StrTok | cash.c:572 | one strtok step: no token exactly when only delimiters remain; a token is non-empty and free of delimiters, and the text left is strictly shorter |
| CStrings.StrTokSplits | cash.c:766 | the token strtok returns sits after a run of delimiters and is followed by the end of the string or a delimiter |
| CStrings.Tokens | cash.c:572-590 | the strtok loop yields no token exactly when the string is all delimiters |
| CStrings.TokensSkipDelimiter | cashold.c:31-35 | a leading delimiter does not change the tokens |
| CStrings.TokensWordFirst | cashold.c:31-35 | a word followed by the end or by a delimiter is the first token |
| CStrings.TokensOfJoin | cashold.c:31-35 | words joined by a delimiter tokenize back to exactly those words |
| CStrings.TrimRight | cash.c:758 | the trimmed string is a prefix, does not end in a trimmed character, and only trimmed characters were removed |
| CStrings.TrimRightAppend | cash.c:758 | appending trimmed characters does not change the trimmed result |
| CStrings.Decimal | cash.c:211-212 | %d of a non-negative number is a non-empty string of decimal digits |
| CStrings.DecimalValue | cash.c:211-212 | the digits %d writes denote the number written |
| CStrings.Atoi | cash.c:675 | atoi of a string made only of decimal digits is the number the digits denote |
| CStrings.AtoiDecimal | cash.c:675 | atoi reads back the number %d wrote |
| Jobs.FirstMatch | cash.c:138-159 | a slot search returns the lowest matching index, and -1 exactly when no slot matches |
| Jobs.LiveJobs | cash.c:207-216 | the live slots in index order, never more than there are slots; a job is listed exactly when a live slot holds it |
| Jobs.LiveJobsMembers | cash.c:207-216 | a job is listed exactly when a live slot holds it |
| Jobs.LiveJobsAgree | cash.c:207-216 | tables whose live slots agree index by index list the same jobs |
| Jobs.JidLookupUnique | cash.c:138-145 | under the invariant a live job's id leads the jid lookup to that very slot |
| Jobs.Init | cash.c:81-87 | init_jobs keeps the number of slots, leaves no slot live and every command NULL, and sets next_jid to 1 |
| Jobs.InitEmpties | cash.c:81-87 | after init_jobs the invariant holds, nothing is listed, and slot 0 is the first free slot |
| Jobs.Add | cash.c:109-131 | add_job keeps the number of slots; a returned id is the old next_jid and next_jid moves past it; any change to the table consumes an id; a failed strdup always returns -1 |
| Jobs.AddRejects | cash.c:110-116 | add_job returns -1 and changes neither the slots nor next_jid when pgid <= 0 or no slot is INVALID |
| Jobs.AddWhenFull | cash.c:112-116 | with all MAX_JOBS slots live, registering one more job fails and changes nothing |
| Jobs.AddFillsLowestFree | cash.c:112-130 | a successful add_job writes the lowest INVALID slot with the pgid, state and command, notified iff RUNNING; it returns the old next_jid, increments it, and leaves every other slot unchanged |
| Jobs.AddNeverReusesIds | cash.c:118 | next_jid never decreases, and a returned id is the old next_jid, which next_jid then moves past |
| Jobs.AddKeepsInv | cash.c:109-131 | add_job keeps the table invariant |
| Jobs.AddOverwritesPendingDone | cash.c:93-100 | a reaped job still waiting for its "Done" line counts as free, and add_job can overwrite it so the line is never printed |
| Jobs.Remove | cash.c:166-180 | remove_job_by_pgid keeps the number of slots; a failure changes nothing; a success empties a live slot that had the pgid |
| Jobs.RemoveClearsFirstMatch | cash.c:166-180 | remove_job_by_pgid reports success iff a live slot has the pgid; the lowest such slot becomes INVALID with jid 0, pgid 0, no command and notified 0, and all other slots are unchanged |
| Jobs.RemoveKeepsInv | cash.c:166-180 | removal keeps the table invariant |
| Jobs.Reap | cash.c:358-377 | the reaper keeps the number of slots and writes only state and notified: every slot keeps its jid, pgid and command |
| Jobs.ReapAll | cash.c:356-380 | the whole reaper loop keeps the number of slots, and every slot keeps its jid, pgid and command |
| Jobs.ReapUntracked | cash.c:358-365 | a child whose pgid is unknown or names no live job changes nothing |
| Jobs.ReapTerminated | cash.c:366-369 | an exited or killed job becomes INVALID and unnotified but keeps jid, pgid and command: no lookup finds it, it counts as free, and it is staged for a "Done" line; other slots are unchanged |
| Jobs.ReapStopped | cash.c:370-375 | a stopped job becomes STOPPED and unnotified, unless it already was STOPPED and reported, in which case nothing changes |
| Jobs.ReapKeepsInv | cash.c:365-377 | one reaper update keeps the table invariant |
| Jobs.ReapAllKeepsInv | cash.c:356-380 | the reaper's whole drain loop keeps the table invariant |
| Jobs.DrainSlot | cash.c:231-247 | one iteration leaves nothing pending, prints at most one line and one exactly when the slot was pending, and does not change whether the slot is live |
| Jobs.Drain | cash.c:227-249 | check_jobs_status keeps the number of slots and rewrites each slot independently of the others |
| Jobs.DrainOneLinePerPending | cash.c:229-248 | exactly one line is printed per slot with a pending "Done" or "Stopped" |
| Jobs.DrainReportsPending | cash.c:231-247 | a pending "Done" slot yields its Done line and is cleared to jid 0, pgid 0, no command, notified; an unreported STOPPED slot yields its Stopped line and is marked notified; any other slot is untouched |
| Jobs.DrainInOrder | cash.c:229-248 | the lines come in slot order: those of the slots before i, then slot i's, then those of the slots after it |
| Jobs.DrainKeepsReportedJob | cash.c:229-248 | a live, RUNNING, already reported job is left in its slot by check_jobs_status, is still found by its id and listed, and adds no line |
| Jobs.DrainQuiet | cash.c:229-248 | a table with nothing pending is unchanged and nothing is printed |
| Jobs.DrainTwice | cash.c:227-249 | a second check_jobs_status straight after the first prints nothing and changes nothing |
| Jobs.DrainKeepsInv | cash.c:227-249 | the drain keeps the table invariant |
| Jobs.WaitForJob | cash.c:256-288 | wait_for_job keeps the number of slots and leaves each slot unchanged, emptied, or marked STOPPED and unreported |
| Jobs.Foreground | cash.c:295-315 | put_job_in_foreground keeps the number of slots and sends SIGCONT only when asked to on an interactive shell |
| Jobs.Background | cash.c:322-340 | put_job_in_background can change only the job's own slot, and changes the table only when it resumes the job |
| Jobs.DeadJobIgnored | cash.c:322-323 | a NULL or INVALID job is a no-op for put_job_in_background, put_job_in_foreground and wait_for_job; foreground does nothing without job control, and wait_for_job nothing for a pgid <= 0 |
| Jobs.BackgroundCases | cash.c:325-339 | bg on a RUNNING job changes nothing and says it is already running; on a STOPPED job it sets notified, and the job stays STOPPED iff SIGCONT was asked for and failed, otherwise it becomes RUNNING; no other slot changes |
| Jobs.ForegroundOutcome | cash.c:295-314 | fg marks the job RUNNING and reported and sends SIGCONT iff asked; if the group stops the job becomes STOPPED and unreported, otherwise the first live slot with its pgid is emptied, and when no other job shares the pgid its id no longer resolves and the listing shrinks |
| Jobs.WaitForJobKeepsInv | cash.c:277-287 | wait_for_job's bookkeeping keeps the table invariant |
| Jobs.ForegroundKeepsInv | cash.c:298-314 | put_job_in_foreground keeps the table invariant |
| Jobs.BackgroundKeepsInv | cash.c:330-338 | put_job_in_background keeps the table invariant |
| Jobs.BackgroundJobLifeCycle | cash.c:717-722 | a background job that is added, reaped as exited and drained is reported as Done with its id and command; its id no longer resolves, the listing equals that of the drained original table, and next_jid has moved past the id |
| Jobs.ExitedJobNeverReported | cash.c:356-369 | as written, an exited background job whose reaper event carries the failed getpgid result stays live and RUNNING in its slot, is still found by its id and listed, and gets no line from the drain |
| JobControl.ResolveJob | cash.c:673-676 | the slot fg/bg resolve to is an index of the table |
| JobControl.ResolveJobCases | cash.c:673-676 | fg/bg act iff the shell is interactive, the argument is `%` and a positive id, and a live job has that id, in which case they act on the lowest such slot; otherwise the first failing check is reported |
| JobControl.ResolveJobById | cash.c:675-676 | on a well-formed table, `%n` with n written by %d resolves to the live job with id n |
| JobControl.JobTable.constructor | cash.c:45-46 | the zero-initialised globals: every slot empty and INVALID, next_jid 1, the invariant holds |
| JobControl.JobTable.InitJobs | cash.c:81-87 | every slot becomes INVALID with no command, next_jid becomes 1, nothing is listed |
| JobControl.JobTable.FindSlot | cash.c:93-100 | the shared search loop returns the lowest matching slot, or -1 |
| JobControl.JobTable.FindFreeJobSlot | cash.c:93-100 | the lowest INVALID slot, and -1 exactly when every slot is live |
| JobControl.JobTable.FindJobSlotByJid | cash.c:138-145 | the lowest live slot with the jid, and -1 exactly when there is none |
| JobControl.JobTable.FindJobSlotByPgid | cash.c:152-159 | the lowest live slot with the pgid, and -1 exactly when there is none |
| JobControl.JobTable.GetJobByJid | cash.c:187-190 | a pointer to the slot the jid lookup finds, NULL exactly when no live job has the jid |
| JobControl.JobTable.GetJobByPgid | cash.c:197-200 | a pointer to the slot the pgid lookup finds, NULL exactly when no live job has the pgid |
| JobControl.JobTable.AddJob | cash.c:109-131 | the new table and the returned id are those of Jobs.Add, and the invariant is kept |
| JobControl.JobTable.RemoveJobByPgid | cash.c:166-180 | the new slots and the result are those of Jobs.Remove, and the invariant is kept |
| JobControl.JobTable.ListJobs | cash.c:205-221 | the live slots in index order, and "No active jobs." iff there are none and the shell is interactive |
| JobControl.JobTable.CheckJobsStatus | cash.c:227-249 | the new slots and the lines printed are those of Jobs.Drain, and the invariant is kept |
| JobControl.JobTable.ReapChild | cash.c:358-377 | the reaper's update for one child is Jobs.Reap |
| JobControl.JobTable.HandleSigchld | cash.c:356-380 | the reaper applies every reported child in order, and the invariant is kept |
| JobControl.JobTable.WaitForJob | cash.c:276-287 | the bookkeeping after waitpid is Jobs.WaitForJob, and the invariant is kept |
| JobControl.JobTable.PutJobInForeground | cash.c:295-315 | the state writes and the SIGCONT decision are those of Jobs.Foreground, and the invariant is kept |
| JobControl.JobTable.PutJobInBackground | cash.c:322-340 | the state writes and the outcome are those of Jobs.Background, and the invariant is kept |
| JobControl.JobTable.JobsBuiltin | cash.c:671 | `jobs` drains pending notifications on an interactive shell only, then lists the live slots |
| JobControl.JobTable.Fg | cash.c:672-680 | a failed check leaves the table alone and names the failure; otherwise the job resolved is printed and brought to the foreground, with SIGCONT iff it was STOPPED |
| JobControl.JobTable.Bg | cash.c:681-689 | a failed check leaves the table alone and names the failure; otherwise the job resolved is printed and resumed in the background with SIGCONT |
| JobControl.JobTable.LaunchBackground | cash.c:717-722 | an interactive shell records the child's group as a RUNNING job, as Jobs.Add does; otherwise nothing changes |
| JobControl.JobTable.LaunchForeground | cash.c:724-731 | waiting on the temporary job removes the first live slot with the child's pgid unless the group stopped; otherwise the table is unchanged |
| CommandLine.TrimTrailing | cash.c:758 | the backwards walk of the end pointer leaves exactly the TrimRight of the string |
| CommandLine.SplitBackground | cash.c:757-762 | the command left is a prefix of the line; when an `&` was found it lies in the part removed |
| CommandLine.StripBackground | cash.c:757-761 | trailing white space is removed; a final `&` sets the background flag and is removed together with the spaces and tabs before it |
| CommandLine.SplitBackgroundOf | cash.c:757-762 | a command followed by blanks, `&` and white space runs in the background with exactly the command left; without the `&` only the white space goes |
| CommandLine.Truncate | cash.c:497-498 | strncpy into the buffer keeps a prefix of fewer than MAX_INPUT characters, and the whole line when it fits |
| CommandLine.JobTitle | cash.c:497-500 | the job title is the copied line without its trailing blanks and `&`s: a prefix of the line that ends in none of them |
| CommandLine.Scan | cash.c:573-591 | the scan never collects more than MAX_ARGS - 1 words and only appends to the words already collected |
| CommandLine.NextToken | cash.c:590 | one strtok call returns the next token and leaves the remaining ones to follow |
| CommandLine.ScanWordStep | cash.c:587-590 | a plain word is appended before the scan continues |
| CommandLine.ScanRedirectStep | cash.c:575-586 | `<` or `>` with no next token or a bad one fails with that operator's error; otherwise the target is recorded and the scan continues after it |
| CommandLine.ScanLine | cash.c:572-591 | the strtok loop computes the scan of the line's tokens |
| CommandLine.Parse | cash.c:561-600 | a line of delimiters only is refused as blank; a success holds between 1 and MAX_ARGS - 1 words |
| CommandLine.ParseCommand | cash.c:561-600 | parse_command computes Parse: blank input, the scan's errors and redirections without a command word are refused |
| CommandLine.ScanUncapped | cash.c:573-591 | below the cap, the scan accepts exactly the token lists whose every `<`/`>` has a good target, collecting all words in order and the last `<` and `>` targets |
| CommandLine.ParseUncapped | cash.c:561-600 | below the cap, parse_command refuses blank input, bad redirections and redirections without a command word, and otherwise returns the words in order with the last targets |
| CommandLine.RedirectTarget | cash.c:595-597 | a valid token list that starts with a redirection sets a target |
| CommandLine.ScanErrors | cash.c:577-585 | the scan fails only with one of the two redirection errors |
| CommandLine.ParseShape | cash.c:595-599 | the final `args[0] != NULL` test never fails, and a success holds between 1 and MAX_ARGS - 1 words |
| CommandLine.ScanNonEmptyProgress | cash.c:573-591 | a successful scan of a non-empty token list yields a word or a target |
| CommandLine.KeepsTargets | cash.c:580-586 | a target once set stays set for the rest of the scan |
| CommandLine.ParseCapsWords | cash.c:573 | after MAX_ARGS - 1 plain words the loop stops and everything after them is ignored |
| CommandLine.ScanPlainWords | cash.c:587-588 | plain words are appended one by one up to the cap |
| CommandLine.ScanWordsPrefix | cash.c:573-591 | for any tokens, a successful scan has appended the words that are not a redirection or its target, in order, as many as fit below MAX_ARGS - 1 |
| CommandLine.ParseWords | cash.c:561-600 | for any line, a successful parse_command holds the line's non-redirection words in order, cut at MAX_ARGS - 1 |
| CommandLine.IndexOf | cash.c:777 | strchr: the first index of the character, and -1 exactly when it does not occur |
| CommandLine.BuiltinWord | cash.c:765-774 | a built-in word is one of jobs, fg, bg, exit, cd and clear, and is found only in a line that is not all delimiters |
| CommandLine.RoutePipe | cash.c:797-814 | a pipeline is run or refused, never ignored; a pipeline keeps the background flag, and the pipe overrides the first side's `>` and the second side's `<` |
| CommandLine.RouteLine | cash.c:777-810 | a non-blank line is never ignored, and it becomes a pipeline only when it holds a `|` |
| CommandLine.Route | cash.c:757-810 | a line is ignored exactly when it is blank once the trailing `&` is stripped |
| CommandLine.RunPipe | cash.c:799-814 | the pipeline half of execute_pipeline computes RoutePipe |
| CommandLine.ExecutePipeline | cash.c:757-810 | execute_pipeline up to the fork computes Route |
| CommandLine.RunLine | cash.c:764-810 | the part of execute_pipeline after the blank-line test computes RouteLine |
| CommandLine.RoutePipeRunsCommands | cash.c:808-814 | both sides of a pipeline have a command word; the first has no `>` and the second no `<` |
| CommandLine.RouteRunsCommands | cash.c:757-810 | whatever runs has a command word; the background flag is the stripped `&`; a pipeline comes from a line with `|`, and its first command has no `>` and its second no `<` |
| CommandLine.RouteRefusesPipedBuiltin | cash.c:764-797 | a line with `|` whose first word is a built-in is refused, naming the built-in |
| CommandLine.RouteRefusesEmptySide | cash.c:799-805 | with `|` and no built-in, a blank side of the pipe is refused: a blank left side as missing before the pipe, and otherwise a blank right side as missing after it |
| CommandLine.HandleLine | cash.c:484-507 | a blank line is skipped; otherwise the job title is the trimmed copy and the buffer copy is routed |
| CommandLine.JobArg | cash.c:674-675 | an accepted fg/bg argument exists and names a positive id |
| CommandLine.JobArgAccepts | cash.c:674-675 | `%n` for a positive n written by %d is accepted as job n |
| CommandLine.JobArgRejects | cash.c:674-675 | an accepted argument starts with `%` and names a positive id; a missing one or one without `%` is a usage error, and a non-positive atoi value an invalid id |
| CashOld.Dispatch | cashold.c:37-81 | nothing is done exactly when there are no tokens; a launch runs a non-empty prefix of the tokens whose first word is not clear, exit or cd |
| CashOld.StoreNextArg | cashold.c:31-34 | one store of strtok's result puts the next token, or NULL when none is left, in slot i; every other slot of the array is unchanged |
| CashOld.SplitArgs | cashold.c:31-35 | `args` holds the tokens of the line in order, followed by NULL |
| CashOld.DispatchArgs | cashold.c:37-81 | the dispatch on the filled array computes Dispatch on the token list; afterwards the array holds the trailing `&` overwritten by NULL, when there is one, and every other slot as before |
| CashOld.ExecuteCommand | cashold.c:25-81 | execute_command up to the fork computes Dispatch on the line's tokens |
| CashOld.BackgroundIffTrailingAmpersand | cashold.c:39-43 | the background flag is set iff the last token is `&`, which alone is dropped; an `&` anywhere else stays an argument |
| CashOld.EmptyLineDoesNothing | cashold.c:37 | a line without tokens returns before any built-in check or fork |
| CashOld.BuiltinsDoNotLaunch | cashold.c:45-81 | `clear`, `exit` and `cd` never fork; `clear` clears the screen and `exit` exits |
| CashOld.CdTarget | cashold.c:57-70 | `cd` goes to its first argument; without one it goes to HOME, and with HOME unset it only reports the error |
| CashOld.ArgsOfJoinedWords | cashold.c:31-35 | words joined by single spaces come back as the argument vector |

## Left out

- Process and I/O plumbing is not modelled: fork, execvp, pipe, dup2, open, close, setpgid and getpgid race handling, tcsetpgrp, and the child-side setup (`cash.c:610-639`, `693-715`, `817-867`). Their outcomes are inputs instead: the child's pgid, the wait result, and the kill and strdup results.
- JobControl.JobTable.HandleSigchld: the handler's asynchronous delivery, its interleaving with the main loop, and its errno save and restore are not modelled. Each reported child is one atomic update, and its pgid is an input. getpgid runs after waitpid has already reaped the child. For an exited or killed child it therefore fails (ESRCH) unless the pid was already reused, so the terminated branch of `cash.c:366-369` is in practice never reached. Such an event arrives with pgid <= 0 and changes nothing (`Jobs.ReapUntracked`). A background job that exits stays live and RUNNING, stays listed, and never gets its "Done" line (`Jobs.ExitedJobNeverReported`). `Jobs.BackgroundJobLifeCycle` proves the life cycle the code intends, with the event carrying the job's own pgid; see Findings.
- JobControl.JobTable.WaitForJob: the blocking waitpid and its EINTR retry loop are not modelled; its result is an input. A return of 0 cannot occur for a blocking wait and is not modelled.
- Printing is not modelled as text. Notifications, the job listing and the fg/bg outcome are returned as data; the leading newline before the first notification and the message texts are left out.
- The `cd`, `clear` and `exit` built-ins of `cash.c` (`cash.c:655-669`) are not modelled: they wrap chdir, system and exit and touch no state of the model. In `cashold.c` they are modelled as `CashOld.Action` values.
- JobControl.JobTable.LaunchForeground: a failed strdup of the temporary job's command (`cash.c:727-728`, `878-879`) is not modelled; the copy is assumed to succeed. In add_job, strdup failure is modelled by the `dupOk` input.
- The non-interactive plain waitpid calls (`cash.c:734`, `884-885`) are not modelled; they change no state of the model.
- Integers are unbounded: the overflow of `next_jid` past INT_MAX and atoi's undefined result on overflow are not modelled.
- CommandLine.ScanLine: builds the argument vector as a sequence value instead of writing pointers into the caller's `char *args[]` array, so the aliasing of arguments with the input buffer is not captured.
- The pipeline's process-group and file-descriptor wiring is not modelled: `CommandLine.Plan` records the two commands and which redirections the pipe overrides. It does not run them.
- readline, history, the history file path, the terminal-grab loop at startup, and the welcome banners are not modelled. `CommandLine.HandleLine` models one iteration of the main loop, without the check_jobs_status call before the prompt (`JobControl.JobTable.CheckJobsStatus` models that call on its own).
- CommandLine.Truncate: the length is counted in characters, not bytes. strncpy counts bytes, so on a line with multi-byte UTF-8 characters the source keeps fewer characters than the model, and it can cut a character in half. All strings of the model are sequences of characters assumed free of NUL. C stops every string at its first NUL, while the model treats an embedded NUL as an ordinary character (for example, `CStrings.Tokens` keeps "a\0b" as one token).
- CashOld.ExecuteCommand: requires fewer than MAX_ARGS tokens and a line that is not a lone `&`. The source checks neither: more tokens overrun `args`, and a lone `&` leaves `args[0]` NULL before strcmp.

## Findings

| source | as written | input that shows it | evidently intended | confidence | as-written member | corrected member |
|---|---|---|---|---|---|---|
| cash.c:356-369 | handle_sigchld calls getpgid(pid) after waitpid has reaped pid. For an exited or killed child the call fails, so no job is found and the job is never marked INVALID | a background job `sleep 1 &`: when it exits, waitpid returns its pid with WIFEXITED, getpgid(pid) returns -1, and `jobs` still lists it as Running with no "Done" line ever printed | the reaped child's job is found by its group, which is the child's own pid (`cash.c:699`, `706`). It becomes INVALID, is reported Done, and no longer resolves | not executed; high (the pid is no longer a process once waitpid has reaped it) | Jobs.ExitedJobNeverReported | Jobs.BackgroundJobLifeCycle |
