# Autograder scoring rules and byte-stream comparator, in Dafny

This project models the sequential core of a C autograder. The autograder compiles a submission with `gcc -Wall` and runs the binary with arguments taken from a fixture, under a wall-clock deadline. A helper program, `diff`, compares the binary's output with a reference file. The autograder then reports four sub-scores and a total.

- `diff.dfy` (module `Diff`) models the comparator `src/diff.c`. The specification side is a pure positional comparison (`MatchCount`, `Matches`, `Percentage`) and a pure description of the chunked loop (`ChunkedMatches`). The key theorem `ChunkedIsPositional` says the chunked count equals a whole-stream comparison over the shorter length: positions are compared at fixed offsets, with no alignment. The implementation side is imperative. Class `Source` is an open descriptor. `Source.Read` may return short reads of any length, chosen nondeterministically. Errors are fixed by the environment: each `Source` fails every read issued at an offset of at least `failFrom`, and its `close` fails when `closeFails` holds. The comparator stops at its first failing read, so the offset of that read describes every failing run. `FillChunk` is an inner read loop filling a 64-byte `array`. `CountChunk` is the counting `for` loop. `Round` is one pass of the `while (1)` loop and `LockStep` the loop itself. `Compare` and `DiffMain` are the rest of `main`. Each method is proved against the specification functions.
- `waitstatus.dfy` (module `WaitStatus`) models `waitpid` statuses as 32-bit words. It defines glibc's `WEXITSTATUS`, `WTERMSIG`, `WIFSIGNALED` and `WIFEXITED`, and the statuses the kernel reports for `exit(code)` and for death by a signal.
- `autograder.dfy` (module `Autograder`) holds the rules in `main` of `src/autograder.c`:
  - name derivation;
  - diagnostic classification and counting, with `strstr` as `Contains`;
  - the compilation sub-score;
  - `strtok` tokenisation of the arguments fixture;
  - classification of how the program ended;
  - intake of the comparator's exit status;
  - the `max(0, sum)` score.
  
  Every Dafny `string` in this module stands for a C byte string: each `char` is one byte, with a value from 0 to 255. The byte limits of the source (the 1024-byte `exec_path`, the 10000-byte read of the fixture) are therefore counts of `char`s.

  `Grade` is the pure specification of the whole decision sequence. `Autograde` is `main` without its process plumbing. It uses the imperative pieces (`ScanDiagnostics`, `CompilationSubscore`, `SplitArguments`) and is proved equal to `Grade`.

Inputs that come from the operating system are parameters of the model. These are the wait statuses of the compiler, the program and the comparator, the lines of the diagnostic file, and the text of the arguments fixture. An `Option` that is `None` stands for a file that could not be opened, read or closed. `Step.Abort` stands for `main` returning 255, the infrastructure-failure status.

Two behaviours of the code are worth knowing, and the model keeps both:
- A tested program that itself exits with status 255 makes the autograder return 255 (src/autograder.c:279-282). The header comment at src/autograder.c:11 mentions deductions only for abnormal termination or a timeout.
- Any death by SIGKILL counts as the deadline kill, whoever sent the signal (src/autograder.c:290-293).

## Model

| member | source | states |
|---|---|---|
| Diff.MatchCount | src/diff.c:77-83 | the number of agreeing positions below n never exceeds n |
| Diff.Matches | src/diff.c:77-83 | fixed-offset matching over the shorter length counts at most as many positions as either stream has bytes |
| Diff.ChunkedMatches | src/diff.c:41-84 | what the lock-step loop counts, round by round over min(64, remaining) bytes of each stream until a round takes nothing from either; ChunkedIsPositional proves it equal to Matches |
| Diff.Percentage | src/diff.c:91-97 | the comparator's result (100 for two empty streams, otherwise truncated 100·matches/longer length) never exceeds 100 |
| Diff.MatchCountFull | src/diff.c:77-83 | all n positions agree if and only if the count below n is n |
| Diff.MatchCountSplit | src/diff.c:77-83 | counting over k+n positions is counting over k, then n more from offset k |
| Diff.MatchCountLocal | src/diff.c:77-83 | the count below n depends only on the first n bytes of each stream |
| Diff.ChunkedIsPositional | src/diff.c:41-84 | lock-step 64-byte chunking counts exactly the positions below the shorter length at which U and C agree (fixed-offset comparison) |
| Diff.PercentageFullIffIdentical | src/diff.c:77-97 | the result is 100 if and only if the two streams are identical (including both empty) |
| Diff.ShiftedMatchNothing | src/diff.c:77-83 | with a byte x inserted in front of u, where x differs from u[0] and no two neighbouring bytes of u are equal, no position below n agrees |
| Diff.InsertedByteShiftsEverything | src/diff.c:77-97 | for every such u and x, u against x+u scores 0 although u against itself scores 100: the comparison does not realign |
| Diff.Source.constructor | src/diff.c:32 | a freshly opened descriptor has delivered nothing and carries the environment's data and failure points |
| Diff.Source.Read | src/diff.c:46-53 | read(2) returns -1 exactly when issued at an offset of at least failFrom; otherwise it delivers 1..want bytes copied from the current offset, or 0 only at end of data; the rest of the buffer is untouched |
| Diff.Source.Close | src/diff.c:85-89 | close(2) reports an error exactly when the environment makes it fail |
| Diff.FillChunk | src/diff.c:45-55 | an inner read loop takes exactly min(64, remaining) bytes, in order, or returns -1 only if a full read-through of the source fails; when fewer than 64 bytes remain it fails exactly then; an empty chunk means end of data with no failure |
| Diff.CountChunk | src/diff.c:77-83 | the counting loop counts the agreeing positions over the overlap of the two chunks |
| Diff.Round | src/diff.c:42-83 | one round either fails, and only when a read-through of a source fails, or advances each source by its chunk; an empty round means both sources ended with no failure, and a non-empty one adds exactly its share of the chunked count |
| Diff.LockStep | src/diff.c:41-84 | the outer loop succeeds exactly when neither source fails on its read-through; on success it stopped after a round that read nothing from either side, both sources are exhausted, the running totals equal their lengths, and the count is the chunked count |
| Diff.Compare | src/diff.c:41-98 | exits 255 exactly when a read of either source or the close of the reference fails; otherwise both streams were read to the end and the exit status is Percentage(U, C) |
| Diff.DiffMain | src/diff.c:32-36 | failure to open the reference gives 255; otherwise 255 exactly on a read or close failure and Percentage(U, C) on success; every exit status is 255 or in [0, 100] |
| WaitStatus.Exited | src/autograder.c:105 | the status of exit(code) is a normal exit, not a signal, and WEXITSTATUS recovers the code |
| WaitStatus.KilledBy | src/autograder.c:283-284 | the status of a death by signal is WIFSIGNALED, WTERMSIG recovers the signal, WEXITSTATUS is 0 |
| Autograder.ProgramName | src/autograder.c:49-51 | the program name is the source name minus its last two characters |
| Autograder.ErrorFileName | src/autograder.c:54-56 | the diagnostics file is the program name followed by ".err" |
| Autograder.ExecPath | src/autograder.c:58-60 | the executable path is a prefix of "./" + name of length min(length of name + 2, 1023), the most snprintf can store in 1024 bytes; it is the whole of "./" + name when that fits |
| Autograder.DerivedNames | src/autograder.c:49-60 | for `stem.c` the program is `stem`, diagnostics go to `stem.err`, and it runs as `./stem` |
| Autograder.ContainsIffOccurs | src/autograder.c:121-125 | the strstr test holds exactly when the pattern occurs at some offset of the line |
| Autograder.ClassifyLine | src/autograder.c:121-128 | a line counts only if it mentions the program; it is a warning iff it also contains "warning:", and an error iff it contains "error:" but not "warning:" |
| Autograder.CountOf | src/autograder.c:120-130 | a diagnostic count never exceeds the number of lines |
| Autograder.ScanDiagnostics | src/autograder.c:117-130 | the fgets loop's warning and error counters equal the number of lines classified as warning and as error |
| Autograder.CountsPartitionLines | src/autograder.c:120-130 | every line counts as exactly one of warning, error or neither, never as both |
| Autograder.UnattributedLinesIgnored | src/autograder.c:121 | a file in which no line mentions the program name has no warnings and no errors |
| Autograder.UnattributedLineIgnored | src/autograder.c:121 | inserting a line that does not mention the program name at any position of any file changes neither the warning nor the error count |
| Autograder.WarningTakesPrecedence | src/autograder.c:122-128 | a line with the name, "warning:" and "error:" adds one warning and no error |
| Autograder.CompilationScore | src/autograder.c:136-143 | the compilation sub-score is never positive, is -100 with any error, and is exactly five points off per warning without errors |
| Autograder.CompilationSubscore | src/autograder.c:136-143 | the deduction loop and error override yield -5 per warning with no errors, and -100 with any error |
| Autograder.NoWarningFloor | src/autograder.c:136-143 | there is no floor on the warning deduction: more than 20 warnings cost more than an error |
| Autograder.CString | src/autograder.c:166 | strtok sees the buffer up to its first NUL |
| Autograder.RunLength | src/autograder.c:166-170 | the token at the front ends at the first delimiter or at the end |
| Autograder.RunLengthIs | src/autograder.c:166-170 | a run of non-delimiters ending at a delimiter or the end is the front token's length |
| Autograder.Tokens | src/autograder.c:166-171 | the tokens strtok yields, the maximal runs of non-delimiters in order, are never empty and never contain a space or newline |
| Autograder.TokenThenRest | src/autograder.c:166-170 | a token followed by a delimiter or the end is split off as one token |
| Autograder.TokensOfJoin | src/autograder.c:165-171 | splitting text made of tokens joined by single spaces gives back exactly those tokens |
| Autograder.TokenCountBound | src/autograder.c:145-172 | at most one token per two characters, so a 10000-byte buffer never overflows `arguments[10000]` |
| Autograder.SkipDelimiters | src/autograder.c:166 | a leading run of delimiters does not change the tokens |
| Autograder.TokenAt | src/autograder.c:166-170 | a maximal run of non-delimiters is the next token |
| Autograder.StrtokStep | src/autograder.c:166-170 | skipping delimiters, taking a run and resuming past its terminator splits off one token |
| Autograder.Strtok | src/autograder.c:166-170 | one strtok call returns the next token and resumes after it, or NULL when no token remains |
| Autograder.SplitArguments | src/autograder.c:145-172 | the argument vector is "./name" followed by the maximal runs of non-space, non-newline characters, in order |
| Autograder.ArgumentVectorShape | src/autograder.c:148-172 | argv[0] is the path, every later entry is a non-empty token, and the vector fits in `arguments` |
| Autograder.ClassifyRun | src/autograder.c:279-294 | exit status 255 aborts; otherwise memory is -15 exactly for SIGSEGV, SIGABRT or SIGBUS, termination is -100 exactly for SIGKILL, and never both |
| Autograder.RunEndings | src/autograder.c:279-294 | on kernel statuses: a normal exit other than 255 costs nothing, exit 255 or a failed wait aborts, SIGKILL gives (-100, 0), a fault gives (0, -15), any other signal costs nothing |
| Autograder.IntakeOutput | src/autograder.c:296-301 | the comparator's exit code is the output sub-score, and 255 aborts |
| Autograder.IntakeOfExit | src/autograder.c:298-301 | a comparator exit code other than 255 reaches the grade unchanged |
| Autograder.IntakeOfPercentage | src/autograder.c:298-301 | a comparator exiting with a percentage hands exactly that percentage to the grade |
| Autograder.Score | src/autograder.c:303-308 | the score is max(0, sum of the four sub-scores): never negative, at least the sum, and either 0 or the sum |
| Autograder.ScoreWithinRange | src/autograder.c:303-308 | with output in [0, 100] and the other sub-scores at most 0, the score is in [0, 100] |
| Autograder.Grade | src/autograder.c:100-308 | the decision sequence of main; every report it yields has score max(0, sum), compilation at most 0, termination 0 or -100, memory 0 or -15, output in [0, 254], and all but compilation 0 when the program is not launched |
| Autograder.Autograde | src/autograder.c:48-308 | main's decision sequence yields exactly Grade, and launches the program with the tokenised argument vector only when it compiled without errors |
| Autograder.CompileErrorsSkipExecution | src/autograder.c:140-143 | any compile error gives compilation -100, other sub-scores 0, score 0, no launch, and the run and compare inputs do not matter |
| Autograder.AbortsExactlyOnInfrastructureFailure | src/autograder.c:100-301 | over the modelled inputs, Grade aborts with 255 exactly when the compile step, the diagnostic file, the arguments fixture, the program's 255 exit or the comparator reports a failure |
| Autograder.GradeOfComparison | src/autograder.c:296-308 | when the comparator exits with Percentage(U, C), the report's output is that percentage and its score is in [0, 100] |
| Autograder.PerfectSubmission | src/autograder.c:136-308 | a build with no warnings or errors attributed to the program, a normal exit and identical output give 0, 0, 100, 0 and score 100 |
| Autograder.DeadlineKillScoresZero | src/autograder.c:283-308 | a program killed by SIGKILL scores 0, whatever its output |
| Autograder.MemoryFaultCostsFifteen | src/autograder.c:283-308 | a memory fault in a launched build with no attributed warnings gives memory -15, termination 0 and score max(0, output - 15) |

## Left out

- Process plumbing is not modelled: `fork`, `execlp`/`execvp`, `dup2`, `pipe`, `waitpid`, `open` and `close` in the autograder (src/autograder.c:72-104, 174-270). The wait statuses and the file contents they produce enter the model as `Request` fields.
- Autograder.AbortsExactlyOnInfrastructureFailure: covers only the 255 paths of the modelled inputs. A failed `fork` (src/autograder.c:73-76, 192-195, 236-239) and a failed parent-side `close` of a pipe end (src/autograder.c:262-264, 266-268) also make `main` return 255. `Request` has no field for them, so `Grade` never aborts on them.
- The SIGALRM timer, the signal mask and the busy-poll kill loop (src/autograder.c:177-189, 273-278) are left out. They concern timing and concurrency. The model takes the program's final wait status as given.
- The gcc invocation and its diagnostic format are left out. The diagnostic file enters as a sequence of lines.
- Report printing (src/autograder.c:310-314) and the argument-count checks (src/autograder.c:32-35, src/diff.c:24-27) are plain I/O and are left out.
- The process-level run of the comparator is not linked to the autograder. The autograder takes the comparator's wait status as an input. `GradeOfComparison` covers the case where that status is `Exited(Percentage(U, C))`.
- `kill(SIGKILL, pid3)` at src/autograder.c:280 has its arguments swapped. It belongs to the plumbing and is not modelled.
- Autograder.ScanDiagnostics: takes the diagnostic file as the lines `fgets` returns. A line longer than 1023 bytes, which `fgets` splits into pieces, and NUL bytes inside a line are not modelled.
- Autograder.SplitArguments: assumes the characters read into `args_buffer` are followed by a NUL. The source does not write one, so `strtok` may run into uninitialised memory; that is undefined behaviour and is not modelled. It also assumes one `read` returns min(10000, fixture length) characters.
- Autograder.ExecPath: counts the 1023-byte limit in `char`s. The type does not restrict a `char` to 0-255, so the limit matches the source only under the one-byte-per-`char` reading stated above. A name written with multi-byte characters is outside the model.
- Autograder.SplitArguments: counts the 10000-byte read in `char`s, under the same one-byte-per-`char` reading.
- Autograder.SplitArguments: represents the NULL terminator of `arguments` as the end of the sequence.
- Autograder.ProgramName: requires a source name of at least two characters. The source declares `char filename[strlen - 1]` and has undefined behaviour for shorter names. The `.c` suffix is not checked, by the source or the model.
- Diff.Percentage: uses unbounded integers. The source's `int` product `samebytes * 100` overflows for outputs of more than about 21 MB, and so do the `int` running totals for outputs of 2 GB or more. Neither overflow is modelled.
- Autograder.CompilationSubscore: uses unbounded integers. The source's `int` sub-score would overflow only with hundreds of millions of warnings.
- Signal numbers are the Linux values: SIGABRT 6, SIGBUS 7, SIGKILL 9 and SIGSEGV 11.
