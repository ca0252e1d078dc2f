# mysh: a verified model

mysh is a small job-control shell in C. This project models the parts of it that keep state
across steps, processes or buffers, and proves what they guarantee. `dafny verify dfyconfig.toml`
checks everything.

## What is modelled

**Job control** (`src/signals.c`, `src/jobs.c`, `src/executor.c`, `src/builtins.c`, `src/main.c`).
`JobControl.dfy` is a transition system of three parties: a kernel (unreaped children with their
group and life, one coalescing SIGCHLD bit, the shell's mask, the terminal's group), the SIGCHLD
handler and the shell. Every indivisible step is an action, a run is any sequence of enabled
actions, so the theorems range over every interleaving. `JobControlInvariant.dfy` and
`JobControlShell.dfy` hold the invariant and its preservation, `JobControlTheorems.dfy` and
`JobControlRuns.dfy` the results. `JobControlResult.dfy` and `JobControlStops.dfy` say exactly when two
claims that are false of the code do hold, and `JobControlWitnesses.dfy` has runs in which they fail.
`Jobs.dfy` is the 64-slot table, as a value and as the array the program scans.
`ShellCode.dfy` is the program text itself: its loops and calls in the source's order over a mutable
table and kernel, with interference between any two steps. Its `Valid` says that the present state
is reached by the machine from the state in which the current command was read, so the code
refines the machine step by step; and each command's own contract says what it does to the table,
the log, the signals sent and `$?`.

**Pipelines** (`PipelineFds.dfy`): descriptor tables as maps, lowest-free allocation, `fork` as a
copy, the spawn loop for any number of stages, redirection and `execvp`.

**The parser and the label printer** (`Strings.dfy`, `Parser.dfy`, `Label.dfy`, `Grammar.dfy`): two `strtok_r`
cursors in one `array<char>`, pointers as offsets, proved against a parser that never touches
memory; `format_pipeline_label` into a bounded buffer; and the two undoing each other.
`Grammar.dfy` is the command language itself, from characters up and without the parser: items, their
spelling and meaning, blanks and bars; the parser is proved to agree with it on every line.

**Expansion, ownership, history, here-documents** (`Expand.dfy`, `Heap.dfy`, `Ownership.dfy`,
`History.dfy`, `Heredoc.dfy`), and `Turn.dfy`, one pass of the read-eval-print loop put together
from all of them, from the line to the tables and arguments the stages start with. `Limits.dfy` holds
the fixed sizes, `Options.dfy` the option type.

## Where the natural claim is false

The code is modelled as it is. Each of these has an input or a run on which the claim fails, and the
exact condition under which it holds.

- The result of a foreground pipeline is the status of the member reaped last
  (`src/executor.c:289-295`), not of the last stage as `src/executor.h:37-39` says.
  `JobControlWitnesses.ResultIsNotAlwaysTheLastStages` gives the run. For every pipeline about to be
  waited for, `JobControlResult.ResultIsLastStagesExactly`: it is the last stage's in every wait if and
  only if there is one stage, or all stages are dead already with one code.
- A background pipeline is Done as soon as its first stage is reaped, and `fg` can then turn the
  Done entry into a Stopped one: `JobControlWitnesses.DonePipelineCanTurnStopped`. For every Done job at
  the prompt, `JobControlStops.DoneCanStopExactly`: some run does so if and only if its group has a
  member that is not dead; if not, it stays Done until it is freed.
- A Running job left in the background is marked Done if and only if its leader is still to be
  reaped: `JobControlRuns.WhichBackgroundJobsComplete`; a pipeline stopped after its leader was
  collected and resumed by `bg` is not: `JobControlWitnesses.ResumedPipelineCanStayRunningForEver`.
- A spawn that fails midway leaves pipe ends open in the shell (`src/executor.c:177-186`);
  `PipelineFds.SpawnPipeline` says exactly which, and when none. Every program started later holds
  them too: `PipelineFds.LeakIsInherited`.
- Printing and parsing undo each other exactly for printable pipelines:
  `Label.PrintThenParseExactly`; for the label buffer, exactly if the rendering fits:
  `Label.LabelParsesExactly`.
- Words after the 63rd argument and segments after the 16th command are dropped without an error
  (`src/parser.c:46`, `src/parser.c:116`). What follows a prefix is ignored whatever it is if and only
  if the prefix holds 63 arguments (`Parser.WordsDroppedExactly`), or 16 commands
  (`Parser.PiecesDroppedExactly`). So the background mark at the end of a plain command is lost
  exactly when 63 arguments precede it: `Label.BackgroundMarkKeptExactly`, `Label.BackgroundMarkCanBeLost`.

## Assumptions

- Kernel: POSIX.1-2017 XSH section 2.4.1 for signals (pending SIGCHLDs merge), `waitpid`, `setpgid`
  and `tcsetpgrp`, which succeeds for the shell's own group and for a group that has a process, and
  otherwise changes nothing; `waitpid` in the blocked foreground wait
  is not interrupted. A member that was continued and stops again is reported again.
- `fork` returns a pid that is no unreaped child, no existing group, not the shell's own group and
  not the group of a job in the table. Other reuse of pids is allowed.
- A program does not change its process group after `execvp` and its own children are not the
  shell's. A child calls `execvp` only after its `setpgid`, as the code does.
- Memory allocation succeeds; counters do not overflow; `$?` fits 32 bits; environment values and
  words hold no NUL; `glob` returns at least one path on success (GLOB_NOCHECK).
- Descriptors 0, 1 and 2 are open in the shell; what a stage starts with is stated for a shell that has
  not marked them close-on-exec. Nothing is assumed of its other descriptors.
- A `write` to a temporary file either fails or writes everything.

## Model

| member | source | states |
|---|---|---|
| JobControlTheorems.NoDeathLost | src/signals.c:28-44 | in every reachable state an unreaped dead child has SIGCHLD pending or the handler running; with SIGCHLD open and nothing pending there is none |
| JobControlTheorems.DrainEnds | src/signals.c:33-41 | the drain loop takes exactly two steps per dead child and one to return, and returns with none left |
| JobControlTheorems.CompletionsExact | src/executor.c:317-332 | a never-foregrounded entry is Running exactly while its leader is unreaped or about to be marked, and Done exactly from the mark on |
| JobControlTheorems.PipelineFormsOneGroup | src/executor.c:188-220 | however the two setpgid calls interleave, after the spawn loop the unreaped members of group pids[0] are exactly the stages |
| JobControlTheorems.HandlerHeldOff | src/signals.c:96-107 | inside a blocked region the handler neither starts nor runs |
| JobControlTheorems.WaitAccumulates | src/executor.c:265-296 | during a wait the group and the members it started with stay, and what it has collected only grows |
| JobControlTheorems.WaitCompletes | src/executor.c:260-308 | at ECHILD the wait has itself collected every member, each once, and no entry has the group; the result is the last one's status |
| JobControlTheorems.ForegroundResult | src/executor.c:342-370 | from spawn to ECHILD, with any kernel activity between: exactly the stages are collected and the result is the status of the one collected last |
| JobControlTheorems.StopIsRecorded | src/executor.c:274-287 | a stop leaves a Stopped entry for the group, the same entry if it was tracked, provided it was tracked or a slot was free |
| JobControlTheorems.StateChanges | src/jobs.c:40-52 | in any step a live entry goes to Done only from Running by the handler's mark of its leader, to Stopped only by the wait on its group, to Running only from Stopped by fg or bg; Done to Stopped needs another unreaped member |
| JobControlTheorems.DoneIsFinalForOneProcess | src/jobs.c:40-52 | for a job of one process Done is final until its slot is freed |
| JobControlInvariant.InstalledInv | src/signals.c:57-94 | the state the installation leaves satisfies the invariant |
| JobControlInvariant.SetpgidPlaces | src/executor.c:188-220 | the child's and the parent's setpgid have the same effect, whichever comes first |
| JobControlShell.RunKeepsInv | src/main.c:51-116 | every state of every run satisfies the invariant |
| JobControlRuns.PromptDiscipline | src/main.c:51-116 | at the prompt the mask is the original one and an interactive shell owns the terminal |
| JobControlRuns.JobHasTerminal | src/executor.c:359-363 | while the shell waits for a group, the group has the terminal, unless no process was left in it to give it to |
| JobControlRuns.TableAccessIsExclusive | src/jobs.c:4-9 | the shell touches the table only with SIGCHLD blocked and the handler idle, and only at the listed steps |
| JobControlRuns.RankFalls | src/executor.c:265-296 | each shell step lowers a measure, in the wait the number of unreaped members, and nothing else raises it |
| JobControlRuns.CommandsEnd | src/main.c:51-116 | between two reads the shell takes at most that many steps, whatever interrupts it |
| JobControlRuns.ShellIsNeverStuck | src/main.c:51-116 | away from the read the shell has a step to take, unless it waits for members that all run or are known to be stopped |
| JobControlRuns.IdsAreNeverReused | src/jobs.c:22-38 | an id given out names, ever after, the same entry or none |
| JobControlRuns.DoneReportedOnce | src/main.c:56-59 | in a whole run no id is reported Done twice, a reported one names no live entry afterwards, and every id given out and never foregrounded is in the table or has been reported |
| JobControlRuns.TruthfulStays | src/jobs.c:40-52 | in every run without fg of it, an entry that tells the truth about its leader goes on doing so |
| JobControlRuns.OrphanStays | src/jobs.c:44-46 | an entry that is Running with its leader gone stays so in every run without fg of it |
| JobControlRuns.WhichBackgroundJobsComplete | src/jobs.c:40-52 | a Running background entry becomes Done, exactly when its leader is marked, if the leader was still to be reaped, and stays Running for ever if not |
| JobControlRuns.ForegroundedOnlyByFg | src/builtins.c:119-157 | in every run in which fg of it is not asked for, a background job never comes to be waited for in the foreground |
| JobControlRuns.EnteredJobCompletes | src/executor.c:317-332 | a pipeline put into the background has a Running entry, and in every run without fg of it the entry is Running exactly while its leader is still to be marked and Done from then on |
| JobControlRuns.ResultBecomesStatus | src/executor.c:356-370 | whatever the kernel and the handler do after the wait, its code is $? until the next command is read |
| JobControlRuns.ForegroundStatus | src/executor.c:145-155 | after a foreground pipeline has run to its end, and whatever happens up to the next prompt, $? is the exit code of the stage collected last, or 128 plus the signal that killed it |
| JobControlRuns.StopStatus | src/executor.c:274-287 | after a stop it is 128 plus the signal that stopped the member the wait was told of |
| JobControlRuns.ResumedGroupContinues | src/builtins.c:143-147 | after a Running mark by fg or bg the next step of the shell, whatever comes between, continues every stopped member of that group and touches nobody else |
| JobControlResult.ResultIsLastStagesExactly | src/executor.c:289-295 | for every pipeline about to be waited for, every wait to ECHILD gives the last stage's status if and only if there is one stage or all are dead already with one code; with all stages alive, if and only if there is one stage |
| JobControlStops.DoneCanStopExactly | src/executor.c:277-281 | a job that is Done at the prompt is Stopped in some run if and only if its group has a member that is not dead; otherwise it is Done in every run until it is freed |
| JobControlWitnesses.ResultIsNotAlwaysTheLastStages | src/executor.c:289-295 | a run from the launch of two stages whose result is the first one's 1 and not the last one's 0 |
| JobControlWitnesses.DonePipelineCanTurnStopped | src/executor.c:277-281 | a run in which a Done pipeline turns Stopped |
| JobControlWitnesses.ResumedPipelineCanStayRunningForEver | src/builtins.c:181-184 | a run that leaves a Running entry nothing will complete |
| Jobs.AddFillsOneFreeSlot | src/jobs.c:22-38 | adding fails exactly when all 64 slots are in use and then changes nothing; otherwise the first free slot gets a fresh id and at most 255 characters of the label |
| Jobs.First | src/jobs.c:54-72 | a scan yields the first slot that matches, and none when no slot does |
| Jobs.ListedExact | src/jobs.c:101-110 | the listing names exactly the slots in use with their states, each once |
| Jobs.NoticesExact | src/jobs.c:112-121 | the notices name exactly the finished jobs, each once |
| Jobs.ReportsInOrder | src/jobs.c:101-121 | listing and notices come in the order of the slots |
| Jobs.JobTable.constructor | src/jobs.c:16-20 | an empty table whose first id is 1 |
| Jobs.JobTable.Find | src/jobs.c:54-72 | the scanning loop finds the first match |
| Jobs.JobTable.Add | src/jobs.c:22-38 | the loop computes the table AddFillsOneFreeSlot describes, and returns the id or -1 |
| Jobs.JobTable.MarkDone | src/jobs.c:40-52 | only the first Running entry with that pid changes, to Done with the status |
| Jobs.JobTable.SetState | src/executor.c:279-281 | one entry's state is overwritten whatever it was |
| Jobs.JobTable.Remove | src/jobs.c:74-88 | only the first match is freed |
| Jobs.JobTable.Print | src/jobs.c:101-110 | the loop prints the listing ListedExact describes |
| Jobs.JobTable.NotifyCompleted | src/jobs.c:112-121 | the loop prints the notices NoticesExact describes and frees just those slots |
| Jobs.JobTable.ClearDone | src/jobs.c:123-130 | exactly the finished jobs are freed |
| ShellCode.Shell.constructor | src/signals.c:57-94 | initialisation yields a start state of the machine |
| ShellCode.Shell.SigchldHandler | src/signals.c:28-44 | the loop ends with no zombie left although children go on dying, and leaves the shell's own state alone |
| ShellCode.Shell.BlockSigchld | src/signals.c:96-102 | blocks SIGCHLD and returns the mask there was |
| ShellCode.Shell.UnblockSigchld | src/signals.c:104-107 | restores the mask that was saved |
| ShellCode.Shell.Prompt | src/main.c:51-65 | in one blocked region the jobs found finished are reported, exactly these and each once, and exactly their slots are freed; before and after it jobs can only have been marked |
| ShellCode.Shell.SpawnPipeline | src/executor.c:163-231 | on success the unreaped members of the group are exactly the n stages |
| ShellCode.Shell.WaitpidGroup | src/executor.c:269-272 | what waitpid on the group can report, each report a step of the machine |
| ShellCode.Shell.WaitForegroundGroup | src/executor.c:260-308 | the loop ends, on a stop, with the group Stopped in the table, under its old id or a new one, this id announced, and 128 plus the signal; or with every member collected once, its entry removed and the exit code of the last one, or 128 plus the signal that killed it; all other entries stay |
| ShellCode.Shell.ExecutePipeline | src/executor.c:310-371 | foreground: all n stages collected, and the exit code of the last collected or 128 plus the signal that killed it, the table as it was; or stopped, with just a Stopped entry more; background: 0 with just a Running entry more; either entry is there unless the table is full; failure: -1 and the table as it was; mask and terminal restored on every path |
| ShellCode.Shell.BuiltinJobs | src/builtins.c:87-97 | the listing found in the blocked region is printed, of it exactly the finished jobs are freed, and the result is 0 |
| ShellCode.Shell.BuiltinFg | src/builtins.c:119-157 | an unknown id gives 1 and changes nothing; otherwise exactly a stopped job gets SIGCONT, and then either its entry is Stopped again, or it is gone and the code is what the member collected last ended with; no other entry changes; mask and terminal restored on every path |
| ShellCode.Shell.BuiltinBg | src/builtins.c:163-191 | an unknown id gives 1 and changes nothing; otherwise 0, and exactly a stopped job is marked Running and its group sent SIGCONT |
| ShellCode.Shell.BuiltinKill | src/builtins.c:198-227 | an unknown id gives 1 and signals nobody; otherwise SIGTERM goes once to that job's group, after the region, and the code is 0 exactly if anyone was left in it |
| ShellCode.Shell.RunCommand | src/main.c:95-105 | from the state a command was read in to the loop's top the code is a run of the machine in which nothing else is read |
| ShellCode.Shell.Repl | src/main.c:51-116 | whatever is read and whatever the children do, every command ends with the original mask and the terminal |
| PipelineFds.SpawnPipeline | src/executor.c:163-231 | for any n, success exactly if every pipe and fork succeeds: it leaves the shell's table as it was and child i with exactly its two pipe ends; failure, at the first stage that does not work, leaves exactly the listed ends open; the table is conserved if and only if spawning succeeded or nothing had been opened |
| PipelineFds.OneReaderOneWriter | src/executor.c:203-227 | each pipe has one reader copy and one writer copy as long as its stages live, and the shell has none |
| PipelineFds.ExitGivesEof | src/executor.c:215-227 | stage p+1 is at end of file exactly when stage p has exited |
| PipelineFds.ApplyRedirection | src/executor.c:50-80 | a here-document wins over an input file; the child gives up exactly when a file it needs cannot be opened |
| PipelineFds.ExecChild | src/executor.c:107-138 | redirection comes last, and then execvp keeps just what is not close-on-exec; a built-in stage keeps all |
| PipelineFds.StageStartsClean | src/executor.c:107-138 | over any shell table, a stage's program starts with its input, its output, standard error and exactly what the shell itself holds without close-on-exec: no pipe end of its pipeline, no here-document |
| PipelineFds.OutputFileEndsPipe | src/executor.c:67-79 | over any shell table, a stage still writes to its pipe after exec exactly when it has no output file |
| PipelineFds.LeakIsInherited | src/executor.c:177-186 | every pipe end a failed spawn leaves open is held by every program started afterwards |
| Strings.StrtokR | src/parser.c:43-44 | strtok_r of ISO C11 section 7.24.5.8, in place and for every state of its two pointers, equal to the function StrtokCuts is about |
| Strings.StrtokCuts | src/parser.c:43-44 | the first piece is yielded, the rest left for the next call, and at most the one delimiter after the piece overwritten |
| Parser.ParseCommand | src/parser.c:34-105 | in place it gives the count, fields and errors that the pure parser gives for the segment's words, writing over blanks only |
| Parser.ParsePipeline | src/parser.c:107-140 | for every line, result, commands and background flag are the pure parser's although both cursors share one buffer; only delimiters are overwritten and no two strings overlap |
| Parser.ParseSplit | src/parser.c:46-98 | the word loop can be cut between any two words it has finished with |
| Parser.WordsMean | src/parser.c:46-98 | before the 63rd argument: "<", ">", ">>" and "<<" take the next word as input, output, output to append to and here-document delimiter, and are errors without one; "&" marks the background; any other word is an argument |
| Parser.LastTargetWins | src/parser.c:62-91 | of several redirections of one kind, here-documents included, the last is used, with the word right after its operator |
| Parser.WordsDroppedExactly | src/parser.c:46 | after words that parse, whatever follows is ignored if and only if they hold 63 arguments |
| Parser.PiecesDroppedExactly | src/parser.c:116 | after segments that parse, whatever follows is ignored if and only if they hold 16 commands |
| Parser.CommandsHaveArguments | src/parser.c:116-130 | every command of a parsed line has between 1 and 63 arguments |
| Grammar.SpacedWords | src/parser.c:29-44 | words with runs of spaces, tabs, carriage returns and newlines between and around them are exactly the tokens |
| Grammar.BarredPieces | src/parser.c:32 | texts joined by bars are exactly the segments |
| Grammar.CommandMeans | src/parser.c:46-98 | items written as words parse to what the items mean: the arguments in order and the last target of each kind |
| Grammar.CommandFails | src/parser.c:62-84 | with an operator at the end that lacks its word they do not parse |
| Grammar.AnyWordsAreItems | src/parser.c:46-98 | any words at all are such items, but for one operator that may be left over |
| Grammar.LineMeans | src/parser.c:107-140 | every line of 1 to 16 commands, however spaced, parses to the commands as written, in the background exactly if the last has an "&" |
| Grammar.LineFails | src/parser.c:121-124 | a line is an error if one of its first 16 commands lacks a word after an operator, whatever follows |
| Grammar.EmptyPieceVanishes | src/parser.c:125-129 | a segment without arguments changes nothing, redirections and all |
| Label.FormatLabel | src/executor.c:238-258 | the buffer holds the longest prefix of the rendering that leaves room for the NUL, for every size from 1 on |
| Label.RenderSpelled | src/executor.c:238-258 | one more argument adds one space and the argument, one more command adds a bar between two spaces and the command, and nothing else is ever added |
| Label.PrintThenParse | src/executor.c:238-258 | parsing a printed pipeline returns its commands and arguments, with no redirection and no background flag |
| Label.PrintThenParseExactly | src/parser.c:34-140 | and only pipelines within the limits whose arguments are non-empty, delimiter-free and no operators come back |
| Label.LabelParsesExactly | src/executor.c:314-315 | for printable pipelines the label buffer parses back to the pipeline if and only if the rendering is shorter than the buffer |
| Label.BackgroundMarkKeptExactly | src/parser.c:46-58 | a command with a mark at its end parses as background if and only if it has fewer than 63 arguments |
| Label.BackgroundMarkCanBeLost | src/parser.c:46-58 | a line that ends in a mark and runs in the foreground |
| Label.ParseThenPrint | src/parser.c:107-140 | for every line that parses, printing and parsing again gives the same commands and arguments |
| Expand.StrBuf.Put | src/expand.c:36-49 | one character more, room for a NUL, and all reallocations together copied at most twice what is held |
| Expand.StrBuf.PutString | src/expand.c:51-59 | the string is appended |
| Expand.StepAt | src/expand.c:83-124 | every step of the scan consumes at least one character and no more than there are |
| Expand.CopyName | src/expand.c:88-114 | the copying loops take the name up to its end or 255 characters |
| Expand.ExpandVariables | src/expand.c:66-128 | for every word, status and environment the returned string is the recursive expansion |
| Expand.StepIsLocal | src/expand.c:73-124 | a step that ends within a prefix does not depend on what follows |
| Expand.ExpandSplits | src/expand.c:66-128 | expansion distributes over concatenation at every step boundary |
| Expand.StatusExpands | src/expand.c:80-85 | $? becomes the last status as a decimal numeral, without leading zeros, with a minus sign exactly if it is negative |
| Expand.DollarStays | src/expand.c:120-123 | a dollar at the end, or before a character that begins no expansion, stays |
| Expand.CharacterStays | src/expand.c:74-77 | any other character stands for itself |
| Expand.BracesExpand | src/expand.c:86-104 | ${NAME} is the value of the variable, never rescanned, or nothing if it is not set, exactly for names up to 255 characters; otherwise the dollar stays |
| Expand.BracesUnclosed | src/expand.c:101-104 | with no closing brace after at most 255 characters the dollar stays |
| Expand.NameExpands | src/expand.c:105-119 | $NAME takes the longest name of letters, digits and underscores, up to 255 characters, and is its value or nothing |
| Expand.LiteralWord | src/expand.c:73-77 | a word without a dollar is unchanged |
| Ownership.ArgumentMeans | src/expand.c:166-186 | an argument becomes its expansion, or all its matches in order exactly if the expansion holds *, ? or [ and glob succeeds |
| Ownership.TargetMeans | src/expand.c:141-159 | a target becomes its expansion, or the first match |
| Ownership.ArgvMeans | src/expand.c:161-196 | the argument vector is what the arguments become, one after the other, cut after 63 words |
| Ownership.ExpandArgs | src/expand.c:166-196 | the arguments become the first 63 of all words they expand to, in order, each in a block of its own, at least one |
| Ownership.ExpandTarget | src/expand.c:141-159 | a redirection target becomes a block holding its expansion or that one's first match; the intermediate block is freed |
| Ownership.ExpandPipeline | src/expand.c:161-207 | the heap grows by exactly the pipeline's blocks, none shared, nothing else changed; argc from 1 to 63 and NULL after the last argument |
| Ownership.FreeExpansions | src/expand.c:209-222 | each block is freed once and nothing else |
| Ownership.ExpandForRun | src/expand.c:161-207 | every command is there to be run with the first 63 words it expands to and the targets it expands to |
| Ownership.FreeAfterRun | src/main.c:107 | the heap is again what it was before the expansion |
| History.BlankIs | src/history.c:17-25 | a line is blank that holds only the six space characters |
| History.TrimmedIs | src/history.c:39-44 | the stored line is the one prefix that ends in no space and leaves only spaces behind |
| History.ShownIffRecent | src/history.c:58-68 | a non-blank line is listed under its position among such lines exactly if fewer than 1000 came after it, that number never shows another line, and the listing is in order |
| History.HistoryRing.Add | src/history.c:27-56 | a non-blank line is appended to the log, trimmed; the block that scrolls out is freed and no other block touched |
| History.HistoryRing.Print | src/history.c:58-68 | the ring lists exactly the tail of the log with its numbers, across wrap-around |
| History.HistoryRing.Free | src/history.c:70-79 | every stored copy is freed once |
| History.Session | src/history.c:27-79 | after any lines the listing is that of their log, and after freeing the heap is as before |
| Heredoc.SegmentIsTyped | src/heredoc.c:42-50 | in terms of the lines as typed: the delimiter may lack its newline, a last line without one gets it, and without a delimiter everything is taken |
| Heredoc.ReadBody | src/heredoc.c:31-53 | unless a write fails, exactly the lines up to the delimiter line, or all of them, leave the input, and the file holds those before it, each with a newline |
| Heredoc.ReadOne | src/heredoc.c:20-57 | a fresh close-on-exec descriptor with the body, or -1 and nothing read or opened |
| Heredoc.CollectHeredocs | src/heredoc.c:59-73 | the input is shared out between the commands in order, and each reads the lines typed for it; a failing temporary file stops it after the commands before; the shell holds exactly the descriptors the commands name |
| Heredoc.SplitTakesTurns | src/heredoc.c:59-73 | several here-documents take their lines one after the other, each what it would take alone |
| Heredoc.CloseHeredocs | src/heredoc.c:75-83 | the shell is left with the descriptors it had before collecting, complete or not |
| Heredoc.SplitIsUnique | src/heredoc.c:31-53 | there is only one way to share out an input between delimiters |
| Turn.Execute | src/main.c:100-105 | one command alone runs in the shell exactly if its name is a built-in's, and leaves the descriptors untouched; two or more never do, and become one stage each exactly if every pipe and fork works; each stage has the table its redirections give it |
| Turn.StageIsStarted | src/executor.c:107-138 | with any number of here-documents open, a stage reads exactly the lines its own took, or its input file, or its pipe; and its program holds nothing besides but what the shell had before the turn |
| Turn.LeakedStays | src/main.c:109 | closing the here-documents after a failed spawn leaves exactly the leaked pipe ends |
| Turn.Turn | src/main.c:76-109 | a line is recorded as read; it runs exactly if it holds a command and its temporary files can be made, in the shell exactly if it is one command and that a built-in, and else as one stage for each command exactly if every pipe and fork works; programs have exactly the arguments and files, replaced or appended to, that the line parses and expands to, here-documents exactly their lines; a blank or wrong line reads nothing; heap and descriptors end as they began, but for what a failed spawn leaks |

## Left out

- Programs after `execvp`, built-ins run in a pipeline child, real files, terminal output and `errno` texts: outside what the shell decides; output is a log of reports where "reported once" needs it.
- `cd`, `export`, `help`, `exit`, the built-in dispatch, `parse_job_id`, and `kill` of a raw pid: one-branch facts. A command that touches neither jobs nor children is `Other` in the machine, with any result.
- Signal dispositions across `execvp`, SIGPIPE, and stops by SIGTTIN or SIGTTOU as such; a stop by any signal is modelled.
- Out-of-memory branches, overflow of counters, short writes, and `setpgid` by programs: see Assumptions.
- ShellCode.Shell.ExecutePipeline: which pipe and fork calls fail is the kernel's choice, so the contract says what follows from a failure, not when there is one; PipelineFds.SpawnPipeline has it as a parameter.
- Turn.Turn: what a program or built-in does once it has started, the wait for it (ShellCode has that, without descriptors) and the exit test at `src/main.c:113` are not part of the turn.
- ShellCode.Shell.BuiltinKill: the group is signalled after the region is left, so the job may be gone by then; the model lets SIGTERM cause deaths but does not force them.
- PipelineFds.ApplyRedirection: which file a path names is a parameter, and so is whether it opens.
- Ownership.ExpandArgs: `glob` and its own storage are an abstract function.
- JobControl: one action covers a system call and the table accesses after it up to the next call; inside a blocked region nothing can observe the difference.
- JobControlRuns.ShellIsNeverStuck: that a running program ever ends is not claimed.
- Expand.ExpandVariables: characters are those of the C locale; `snprintf` and `getenv` are functions.
