# Verification of the MCP server's core

A Dafny model of the parts of the SQL Server MCP server whose behaviour is hardest to see from one function at a
time, with proofs over every input, every interleaving and every run. `dafny verify dfyconfig.toml` checks it all.

| file | what it models |
|---|---|
| `Text.dfy` | `trim`, `indexOf`, decimal printing, quote doubling, as JavaScript defines them |
| `WorkerModel.dfy`, `WorkerRuns.dfy`, `WorkerFraming.dfy`, `WorkerAnswers.dfy`, `WorkerStreams.dfy`, `WorkerSenders.dfy`, `Worker.dfy` | the PowerShell worker supervisor: the class, the state machine over its events that the class refines, and its byte stream over whole runs |
| `Lexer.dfy`, `LexerLaws.dfy` | the T-SQL noise lexer: a token grammar, and the one-pass scanner that refines it (literals and delimited identifiers: sections 5.2 and 5.3 of ISO/IEC 9075-2) |
| `Words.dfy`, `Patterns.dfy`, `PhraseOrigins.dfy`, `Guards.dfy` | whole words across stripping; the shapes of the guards' expressions, in a text and in the code of a batch; the read and write guards over their whole pattern tables |
| `Bounds.dfy`, `Verdicts.dfy`, `Entries.dfy`, `Forbidden.dfy`, `CaseBlind.dfy`, `WideChange.dfy` | what a verdict says of the code of a batch: how it begins, table-wide changes and configured names, what each kind of entry stands for, everything that is never let through and all a batch is refused for, that case never matters; a table-wide change that passes |
| `RowCap.dfy`, `Limits.dfy`, `Batches.dfy`, `CopyAndCount.dfy` | the row cap: wrapping, cutting and reporting; the ROWCOUNT in force at each place; statements run under the ROWCOUNT in force in the text sent; a batch it is wrong about |
| `Notices.dfy`, `ToolResults.dfy` | the per-call notice scopes, and what a call's banner says of its queries and writes, of the pools they ran on and of the batches |
| `PoolCache.dfy`, `PoolOrigins.dfy` | the keyed pool cache with catalog fallback, retirement timers and error eviction; why each pool of a run is on the catalog it is on |
| `PrimaryAlias.dfy`, `PrimarySearch.dfy` | `<region>-primary` resolution: its recursion, its caches, its interleavings; what it takes to find a primary and to give up |
| `SqlErrors.dfy` | collecting SQL error numbers from a possibly cyclic error graph |
| `RateLimiter.dfy` | the fixed-window rate limiter and its prune timer |
| `DumpPaths.dfy`, `Flags.dfy` | two printers and parsers: T-SQL literals against the lexer, and command-line flags |

Objects the program updates in place are classes. The methods of `PwshWorker`, `PoolManager`, `Resolver` and `Scopes`
that run from one await to the next are each proved equal to one step of the machine the theorems about runs speak of;
those of `Limiter` and `Walker` to the functions their theorems speak of. Anything may happen between two awaits.

## Where the code does less than it says

The model keeps the code as it is. Where a promise turned out to hold only sometimes, the exact condition is proved.

- The worker's buffer is one field for all processes and is never reset. What is handled when a process completes a
  line consists of the process's own bytes of that line iff nobody else is between its first and last visible character
  and nothing visible of it was ended by somebody else's newline (`LinesAreOwnExactly`). Two runs lose an answer: half a
  line left over by a killed process (`LeftoverLosesAnswer`), and half a line it emits after its replacement has started
  (`LateChunkLosesAnswer`). A third settles a call by a line that the process completing it never wrote
  (`SpliceAnswers`): even if nobody answers anybody else's call, rows are known to come from the process the call was
  sent to only where the line was undisturbed (`RowsComeFromSender`).
- A line that is the JSON value `null` throws out of the data handler, and nothing catches it: the host process ends iff
  such a line is received (`CrashesIffNull`), and the calls then pending are never settled (`CrashStrands`).
- Giving up is final only when no call is pending: a late answer resets the count (`GivesUpIffIdle`).
- A SELECT ... INTO a temporary table is let through by the read guard's entry about it iff one single blank stands in
  front of the table; with more, the entry takes the second blank for the name of a permanent table
  (`TempTableExactly`).
- The write guard promises that no table-wide UPDATE or DELETE passes without a WHERE or the opt-in. It looks for a target
  spelled in word characters, dots and brackets, so one in double quotes is not seen: `DELETE "T"` is accepted
  (`QuotedTargetPasses`). Where no delimited name has a blank, the opt-in decides exactly the batches whose code has such
  a change, with such a target, and no WHERE (`OptInsExactly`, `ChangeIsReal`); any WHERE in the batch is enough, also one
  of another statement or inside a delimited name (`WriteIsFiltered`).
- The row-cap wrapper's closing statement stays code iff the batch does not end in an unclosed token
  (`WrapSurvivesIffClosed`).
- The row cap limits every statement of a batch, not only the result. What the caller is told is right on all data iff
  the text is exempt or no statement that puts rows somewhere comes before the first that returns rows
  (`ExactTruncation`); the read guard accepts a batch that copies rows into a temporary table and counts them, and the
  count is then silently wrong (`AcceptedAndWrong`).
- A catalog fallback after a failure whose message is empty gets no probe, no retirement timer and no warning, because
  the reason is tested for truth (`RetiredInTime`, `EmptyMessageStays`, `WarningAgrees`).
- The pool key tells targets apart iff no instance name is another with `#rw` appended, and no key tail is another one
  behind a colon or ends in `::` and another one (`KeysTellApartExactly`, `CachedForItsKeyExactly`). The secret is no
  part of it: a pool found was always dialled with the caller's own credentials iff no two different calls in use share
  a key (`OwnCredentialsExactly`), so never with two secrets in use for one login (`SecondSecretIsServed`).
- Two different warnings can overwrite each other iff an instance is called what a cut or dropped result sets on
  another one are keyed by (`KeysTellApartExactly` in `Notices.dfy`).
- Invalidating the primary cache does not stop a resolution in flight from caching a report read earlier. Later answers
  rest on later reports iff no resolution of the region has asked before it and is still being answered, or holds an
  earlier report that it can still match (`InvalidationForgetsExactly`); so a refresh right after a failover can be
  followed by an entry from before it (`RefreshCachesOldReport`).
- Retrying exactly at Retry-After (section 10.2.3 of RFC 9110) is refused iff the time left was a whole number of
  seconds (`RetryAfterIsHonest`).
- With shared nodes, the depth limit and the seen set together can skip an error two links away (`SharingSkips`). The
  walk misses nothing when no simple path from the error has more than six links (`ShallowIsComplete`), and on trees it
  sees exactly what is within six links (`TreeExactlySixLinks`).
- A flag called `__proto__` is dropped by the parser; every other flag map reads back (`ParsesBack`).

## Model

| member | source | states |
|---|---|---|
| WorkerModel.RunKeeps | server/src/pwshWorker.ts:40-47 | Over every interleaving of calls, chunks, timers, exits, spawn errors and stops: each id given out is pending, armed and tagged with the process it was written to, or settled once; no call waits on a dead process; queue and restarts stay within bounds; the buffer holds no newline |
| WorkerModel.StepKeeps | server/src/pwshWorker.ts:224-358 | One event of any kind keeps that invariant |
| WorkerModel.DrainKeeps | server/src/pwshWorker.ts:227-249 | Consuming the complete lines keeps it, moves no process, and does nothing to pending but take calls off |
| WorkerRuns.ExactlyOnce | server/src/pwshWorker.ts:224-350 | In every reachable state each id below nextId is waiting with a timer armed for its process, or settled exactly once with no timer; never both; other ids are neither |
| WorkerRuns.OutcomeIsFinal | server/src/pwshWorker.ts:236-248 | Once a call is settled, no continuation of the run settles it again or changes its outcome |
| WorkerAnswers.AnswerReachesItsCall | server/src/pwshWorker.ts:232-248 | Whatever is left in the buffer, once that is completed harmlessly, a response line settles the call it names and touches no other: with all the rows of a list, with the one row that is no list, with none if there is no `rows`, or with exactly the error |
| WorkerAnswers.PrintedRowsArrive | server/src/pwshWorker.ts:224-250 | A round trip: after any run that left nothing visible in the buffer, whatever responses a process prints for any calls, cut into chunks anywhere, each call pending then has exactly the rows or the error of the first response for it |
| WorkerSenders.RowsComeFromSender | server/src/pwshWorker.ts:27-33 | If no process writes, in any line of its own output, an answer to a call that was sent to another one: every answered call was settled at a newline of some process by a line carrying exactly its outcome, and where that process's line was undisturbed, the call was sent to this very process and the line is one it wrote |
| WorkerSenders.SpliceAnswers | server/src/pwshWorker.ts:43 | The disturbed case: a run in which nobody writes an answer to anybody else's call, and a call sent to the killed process is resolved at a newline of its replacement, by a line the replacement did not write |
| WorkerSenders.SomeNewlineSettled | server/src/pwshWorker.ts:227-248 | Every answered call, in any run, was settled by a line carrying exactly its outcome, completed at a newline some process sent |
| WorkerRuns.EndRejectsExactly | server/src/pwshWorker.ts:275-296 | The end of a process rejects exactly the calls tagged with it, as given up if this loss takes the count past the ceiling, else as failed to launch or as exited, whichever happened; it leaves every other call, timer and outcome alone, and touches slot and restart count only if it was the active one |
| WorkerRuns.RejectsItsOwn | server/src/pwshWorker.ts:320-347 | A timeout and a failed write reject their own call, as timed out and as closed stdin, and touch no other |
| WorkerRuns.DeadStaysDeserted | server/src/pwshWorker.ts:275-296 | After a process has ended, in every continuation it is never active and no call waits on it, replacement or not |
| WorkerRuns.RestartsAreConsecutive | server/src/pwshWorker.ts:45-47 | `restarts` is the number of losses of the active process since a call last completed successfully |
| WorkerRuns.StepRestarts | server/src/pwshWorker.ts:244-284 | One event sets it to zero iff it completes a call, and adds one iff it loses the active process |
| WorkerRuns.LostOnce | server/src/pwshWorker.ts:281-333 | Each process ever spawned is active, or was stopped once, or was counted as one restart once, whichever of timeout and exit comes first and however often the exit is reported |
| WorkerRuns.GivingUpIsAbsorbing | server/src/pwshWorker.ts:65-67 | Past the restart ceiling with nothing pending, no event ever starts a process, accepts a call or settles one again |
| WorkerAnswers.GivesUpIffIdle | server/src/pwshWorker.ts:65-67 | At the ceiling, some continuation starts a process again iff a call is pending |
| WorkerAnswers.Revive | server/src/pwshWorker.ts:244 | A late answer to a pending call, from the very process it was sent to, brings the worker back |
| WorkerFraming.ChunkingInvisible | server/src/pwshWorker.ts:224-250 | A stream fed under any split leaves the same calls settled the same way, the same pending calls, restarts and buffer as fed whole |
| WorkerFraming.SplitsAgree | server/src/pwshWorker.ts:224-250 | Two splits of the same stream are indistinguishable |
| WorkerFraming.DrainDecodes | server/src/pwshWorker.ts:227-249 | The loop handles exactly the newline-terminated pieces, trimmed, in order, and leaves exactly the incomplete tail |
| WorkerFraming.WireDecodes | server/src/pwshWorker.ts:226-230 | What a process writes line by line is decoded line by line with nothing left over |
| WorkerStreams.LinesAreOwnExactly | server/src/pwshWorker.ts:43 | Over any run, whoever else emits and whatever is left over: the line a process completes is the next one handled, and what is handled consists of the process's own bytes of that line iff nobody else is between its first and last visible character and nothing visible of it was ended by somebody else's newline |
| WorkerStreams.ChunkHandlesItsLines | server/src/pwshWorker.ts:224-250 | Every line completed during a run reaches the handler, in order: one chunk handles just the lines it completes |
| WorkerStreams.AloneIsOwn | server/src/pwshWorker.ts:43 | In any run, a process started later that is the only one to emit from its start on: the line it is writing is its own iff it has completed one before or the buffer it found was blank |
| WorkerStreams.LeftoverLosesAnswer | server/src/pwshWorker.ts:43 | A run in which half a line left over by the killed process costs the replacement's answer: the call stays pending |
| WorkerStreams.LateChunkLosesAnswer | server/src/pwshWorker.ts:43 | The same with an empty buffer at the start of the replacement, and the killed process emitting half a line afterwards |
| WorkerStreams.ReplacementIsHeard | server/src/pwshWorker.ts:43 | Without the half line the same run settles the call |
| WorkerStreams.CrashesIffNull | server/src/pwshWorker.ts:231-233 | A run has ended the host process iff it received a line that is JSON null; before that its buffer is exactly the incomplete tail of all it received |
| WorkerStreams.FeedCrashes | server/src/pwshWorker.ts:231-233 | One chunk does so iff it completes such a line |
| WorkerStreams.NullCutsOff | server/src/pwshWorker.ts:227-249 | The lines before it in the chunk are handled, the ones after it are not |
| WorkerStreams.CrashStrands | server/src/pwshWorker.ts:227-249 | The calls pending at that moment are never settled in any continuation |
| WorkerStreams.NullStrandsFirstCall | server/src/pwshWorker.ts:231-233 | A concrete run that ends so |
| WorkerFraming.HandoverIffBlank | server/src/pwshWorker.ts:43 | As texts: what follows a leftover decodes as if alone iff the leftover is blank or no line is complete yet |
| WorkerFraming.StaleHalfLine | server/src/pwshWorker.ts:43 | As texts: a half line and an answer that decode to one spoilt line |
| Worker.PwshWorker.constructor | server/src/pwshWorker.ts:40-47 | A new worker is the initial state of the machine |
| Worker.PwshWorker.Start | server/src/pwshWorker.ts:63-67 | Starting takes the fields through one step: spawn, or refuse past the ceiling |
| Worker.PwshWorker.Submit | server/src/pwshWorker.ts:312-349 | The second half of a call takes the fields through one step, and returns the id it was given, if any |
| Worker.PwshWorker.OnData | server/src/pwshWorker.ts:224-250 | The in-place loop over the buffer equals the recursive decoder |
| Worker.PwshWorker.OnLine | server/src/pwshWorker.ts:230-248 | One line is ignored, crashes the handler, or settles exactly the call it answers |
| Worker.PwshWorker.Settle | server/src/pwshWorker.ts:275-296 | Exit and spawn error take the fields through one step |
| Worker.PwshWorker.RejectCallsOn | server/src/pwshWorker.ts:290-295 | The loop over the pending calls rejects exactly those of the dead process, in whatever order it visits them |
| Worker.PwshWorker.Fire | server/src/pwshWorker.ts:320-335 | A timeout kills and disowns in one step |
| Worker.PwshWorker.Stop | server/src/pwshWorker.ts:352-358 | Stopping gives up the slot and kills the process without counting a restart |
| Text.LeftoverVisible | server/src/pwshWorker.ts:228 | Text left over in front of a line is invisible to `trim` iff it is blank |
| Lexer.EndOf | server/src/safety.ts:146-153 | The scan for a closing delimiter finds the first undoubled one, or the end |
| Lexer.SkipBlock | server/src/safety.ts:164-170 | The nesting loop consumes exactly a block comment |
| Lexer.SkipLine | server/src/safety.ts:161 | A line comment is consumed up to, not including, the next CR or LF |
| Lexer.ScanToken | server/src/safety.ts:156-182 | One pass of the loop body consumes the first token and emits its rendering |
| Lexer.StripNoise | server/src/safety.ts:143-185 | The scanner computes the rendering of the token grammar on every input |
| Lexer.LexCovers | server/src/safety.ts:133-141 | The tokens' source texts concatenate to exactly the input, and each is sealed by what follows it |
| Lexer.LexUnique | server/src/safety.ts:133-141 | Any well-formed token sequence is what its text lexes to: tokens and texts determine each other |
| Lexer.FirstJoin | server/src/safety.ts:157-182 | A token followed by more text stays the first token iff it is sealed against that text; otherwise it grows |
| LexerLaws.LexComposes | server/src/safety.ts:143-185 | Two texts lex to their own tokens when joined iff the seam between them is closed |
| LexerLaws.StripComposes | server/src/safety.ts:143-185 | Stripping distributes over concatenation at a closed seam |
| LexerLaws.StripIdempotent | server/src/safety.ts:154-184 | Stripping stripped text changes nothing, also for unterminated strings, comments and identifiers |
| LexerLaws.StripLength | server/src/safety.ts:154-184 | The output is at most one character longer than the input, and no longer when the last token is closed |
| LexerLaws.BlockEndsAtFirstBalance | server/src/safety.ts:164-170 | A block comment ends where its nested opens and closes first balance, and is the rest of the text iff they never do |
| LexerLaws.DoubledCloses | server/src/safety.ts:146-153 | A delimiter-doubled text is consumed exactly to its closing delimiter iff no delimiter follows |
| LexerLaws.QuotedIsOneToken | server/src/tools.ts:179-181 | A quoted value is one literal token, and its content reads back as the value |
| LexerLaws.QuotedInPlace | server/src/tools.ts:179-181 | Quoted inside a batch, it is one literal between the batch's own tokens |
| LexerLaws.LiteralContentVanishes | server/src/safety.ts:172-174 | Whatever a literal contains, stripping leaves the same text |
| LexerLaws.BlockLeavesBlank | server/src/safety.ts:163-171 | A block comment whose opens and closes balance at its end and not before, nested or not and whatever is in it, leaves exactly one blank between what stands before and behind it |
| LexerLaws.LineLeavesBlank | server/src/safety.ts:158-162 | A line comment leaves exactly one blank, and the line end behind it stays |
| LexerLaws.NameStays | server/src/safety.ts:175-178 | A name in brackets or double quotes, its closing delimiter doubled, stays as it is whatever it contains |
| LexerLaws.CodeStays | server/src/safety.ts:179-182 | Every other character stays as it is |
| Words.NoHiding | server/src/safety.ts:128-141 | Every maximal word of code is a whole word of the output, at its own place |
| Words.NoGluing | server/src/safety.ts:128-141 | Every whole word of the output is a word of code or lies inside one delimited identifier |
| Words.WordsSurviveExactly | server/src/safety.ts:128-141 | A word with a given property is in the output iff it is in the code or in a delimited identifier |
| Guards.PiecesAreProper | server/src/safety.ts:154-184 | The tokens of any batch render to code, delimited names and noise as those word laws need them |
| Patterns.TrimInvisible | server/src/safety.ts:199 | Trimming changes no whole word |
| Guards.MatchesExactly | server/src/safety.ts:210-217 | A word-shaped entry matches iff such a word is in the code or in a delimited identifier of the batch |
| Guards.PhraseMatchesExactly | server/src/safety.ts:210-217 | A phrase entry matches iff its words stand in code with nothing between them but white space and, by kind of token, comments; or all in one delimited identifier |
| PhraseOrigins.PhraseComesFrom | server/src/safety.ts:128-141 | A phrase of the stripped text comes from code alone or from one delimited identifier alone: never from two of them, nor from code and an identifier |
| PhraseOrigins.PhrasesSurviveExactly | server/src/safety.ts:128-141 | So a phrase is in the stripped text iff it is in the code or in one delimited identifier |
| PhraseOrigins.AfterSurvivesExactly | server/src/safety.ts:104 | A semicolon with a word behind it is in the stripped text iff it is in code, comments between them or not, or in one delimited identifier |
| PhraseOrigins.BeforeSurvivesExactly | server/src/safety.ts:291 | Likewise a word with a parenthesis behind it |
| Guards.GuardsHideNothing | server/src/safety.ts:187-339 | A batch either guard accepts has nothing in its code that any entry of that guard's table names: no word, no phrase with comments of either kind between its words or not, no second statement behind a semicolon, no EXEC with a parenthesis, no SELECT ... INTO a permanent table |
| Guards.AcceptedHidesNothing | server/src/safety.ts:210-217 | For any table and any kind of entry: nothing of it in the code of an accepted batch, and, but for the entry with a gap, not in a delimited identifier either |
| Patterns.CodeShows | server/src/safety.ts:128-141 | Whatever an entry of any kind asks for, if it is in the code of a batch it shows in its stripped, trimmed text |
| Guards.TempTableExactly | server/src/safety.ts:49 | SELECT ... INTO a temporary table is let through by the entry about it iff one single blank stands before the table |
| Patterns.TrimInvisibleToPhrases | server/src/safety.ts:199 | Trimming changes no phrase |
| Guards.RefusalIsReal | server/src/safety.ts:210-217 | For any table: a refusal by an entry without a gap is for something really in code or in one delimited identifier |
| Guards.EntryMatchesExactly | server/src/safety.ts:37-123 | Every kind of entry but the one with a gap matches iff what it names is in code or in one delimited identifier |
| Entries.StemMeans | server/src/safety.ts:96-98 | A stem entry matches iff some word of code, or of a delimited identifier, begins with the stem and goes on |
| Entries.InfixMeans | server/src/safety.ts:286-287 | An infix entry matches iff some word begins with the stem and, behind letters and underscores alone, has the part |
| Entries.AnyPairMeans | server/src/safety.ts:45-47 | UPDATE, DELETE and MERGE entries match iff the word stands in code with any word behind it, white space or comments between them, or so in a delimited identifier |
| Entries.KillMeans | server/src/safety.ts:279 | The KILL entry matches iff a word that begins with a digit, or UOW, stands so behind KILL |
| Forbidden.ReadNeverSays | server/src/safety.ts:44-79 | What the read guard accepts has none of these words anywhere, in code or in a delimited identifier: INSERT, DDL and permission verbs, RECONFIGURE, sp_configure, SHUTDOWN, KILL, CHECKPOINT, RAISERROR |
| Forbidden.ReadNeverRuns | server/src/safety.ts:91-119 | Nor EXEC, sp_executesql, DBCC, WAITFOR, RESTORE, the OPEN functions, or a word that begins with XP_, SP_OA or SP_ADD |
| Forbidden.ReadNeverChanges | server/src/safety.ts:45-104 | Nor UPDATE, DELETE or MERGE with a word behind it, TRUNCATE TABLE, BULK INSERT, SELECT ... INTO a permanent table, or one of fifteen verbs behind a semicolon |
| Forbidden.ReadNeverControls | server/src/safety.ts:67-90 | Nor BACKUP, RESTORE, transaction control, Service Broker or SET phrases |
| Forbidden.WriteNeverSays | server/src/safety.ts:265-278 | What the write guard accepts has no DDL or permission verb, role, login or password procedure, RECONFIGURE, sp_configure or SHUTDOWN anywhere |
| Forbidden.WriteNeverRuns | server/src/safety.ts:280-297 | Nor DBCC, WAITFOR, RESTORE, msdb, sp_add_operator, sp_executesql or the OPEN functions |
| Forbidden.WriteNeverChanges | server/src/safety.ts:266-294 | Nor an extended, OLE, linked server, job or schedule procedure, TRUNCATE TABLE or ADD MEMBER |
| Forbidden.WriteNeverControls | server/src/safety.ts:279-299 | Nor KILL with a number, BACKUP, EXEC with a parenthesis, or one of twelve verbs behind a semicolon |
| Forbidden.RefusedOnlyFor | server/src/safety.ts:37-300 | No entry of either table refuses a batch none of whose words, in code or in a delimited identifier, begins with one of the listed beginnings |
| Verdicts.JudgeExactly | server/src/safety.ts:187-239 | Which test decides: too long, a bare carriage return, the beginning, the last test, or none, each exactly when it is the first one the batch fails |
| Verdicts.BlockedExactly | server/src/safety.ts:210-217 | A batch is blocked by an entry iff it passes the tests before the table and that entry is the first that matches |
| Verdicts.StartsExactly | server/src/safety.ts:17 | The allowed beginning is the first thing in code that is neither white space nor a comment, and a whole word of the list |
| Verdicts.ReadExactly | server/src/safety.ts:187-239 | The read guard accepts a batch iff it has at most 20000 characters and no bare carriage return, its code begins with SELECT, WITH or DECLARE, no entry matches, and, unless opted in, it does not mention a configured table without saying WHERE, TOP or OFFSET somewhere |
| Verdicts.WriteExactly | server/src/safety.ts:302-339 | Likewise the write guard, with its nine beginnings, and with a change of a table and WHERE |
| Verdicts.WriteIsFiltered | server/src/safety.ts:328-336 | Without the opt-in, an accepted batch whose code has DELETE with a target behind it, or UPDATE, a target and SET, says WHERE in code or in a delimited identifier; one refused for that says no WHERE, was not opted in, says DELETE or UPDATE and SET, and, where no delimited name has a blank, has such a change in its code |
| Verdicts.ReadIsBounded | server/src/safety.ts:219-235 | Without the opt-in, an accepted batch whose code or delimited identifiers have a configured name between word boundaries says WHERE, TOP or OFFSET; one refused for that says none of them, was not opted in and, names being spelled without blanks, quotes and delimiters, has such a name |
| Verdicts.OptInsExactly | server/src/safety.ts:219-336 | Under those conditions on names, a batch passes without the opt-ins iff it passes with them and is bounded where its code asks for it |
| Bounds.ChangeIsReal | server/src/safety.ts:329-335 | Where no delimited name has a blank, the guard sees a change of a table iff the code has one, with a target in word characters, dots and brackets |
| WideChange.QuotedTargetPasses | server/src/safety.ts:328-336 | DELETE with a name in double quotes behind it, and no WHERE, is accepted without the opt-in |
| CaseBlind.VerdictsIgnoreCase | server/src/safety.ts:187-339 | Two batches that differ only in the case of letters, wherever they stand, get the same verdict from either guard |
| Guards.VerdictDependsOn | server/src/safety.ts:187-199 | For any table: the verdict depends only on the length limit, on bare carriage returns and on the stripped text |
| Guards.LiteralCannotMoveVerdict | server/src/safety.ts:172-174 | For any table: replacing one literal's content by any other leaves the verdict unchanged, length and line ends permitting |
| Guards.AcceptedHasNoRowCount | server/src/safety.ts:90 | A batch the read guard accepts has no SET ROWCOUNT left once stripped |
| Batches.ExactTruncation | server/src/connectionManager.ts:1044-1096 | Running the text really sent, each statement under the ROWCOUNT in force where it stands: rows, truncated and notices are those of all the batch produces, on any data, iff the text is exempt or no statement that puts rows somewhere comes before the first that returns rows |
| Batches.UncutIsExact | server/src/connectionManager.ts:1044-1059 | On given data it is enough that nothing put somewhere before the first result is more than one row over the cap |
| Limits.LimitedWhenWrapped | server/src/connectionManager.ts:1053-1086 | In the code of the text sent, the ROWCOUNT in force anywhere in a wrapped batch is maxRows + 1 |
| Limits.UnlimitedByItself | server/src/connectionManager.ts:1086 | Unwrapped, a batch without a SET ROWCOUNT of its own runs under no limit |
| Limits.LimitBegins | server/src/connectionManager.ts:1053 | The wrapper's limit is in force from where its number has been read, and not a piece before |
| Limits.LimitIsLifted | server/src/connectionManager.ts:1053 | Behind a wrapped batch no limit is in force any more |
| RowCap.ExemptExactly | server/src/connectionManager.ts:1044-1053 | A batch is sent as it is iff it is built in and has TOP with a parenthesis behind it, or SET ROWCOUNT, in code or in one delimited identifier; every other one is sent between SET ROWCOUNT maxRows + 1 and SET ROWCOUNT 0 |
| RowCap.SentBehindHeader | server/src/connectionManager.ts:1086 | Whatever is sent is sent behind the READ UNCOMMITTED statement |
| Batches.CountIsWrongSilently | server/src/connectionManager.ts:1044-1077 | Rows copied into a temporary table and counted: the caller gets maxRows + 1 as the count, truncated false, nothing noted |
| CopyAndCount.BatchIsAccepted | server/src/safety.ts:187-239 | The verdict on a concrete such batch: accepted, unless it mentions a configured sensitive table and the caller did not opt in |
| CopyAndCount.DefaultAccepts | server/src/safety.ts:28-32 | With the default sensitive table it is accepted outright |
| CopyAndCount.AcceptedAndWrong | server/src/connectionManager.ts:1044-1096 | Accepted by default, sent, and told wrong, on any data with enough rows; that the text means these two statements is stated by hand |
| RowCap.FinishesExactly | server/src/connectionManager.ts:1056-1077 | Whether all rows or the first maxRows + 1 came back, the rows kept, `truncated` and the notices are those of the whole result |
| Limits.WrapperCounts | server/src/connectionManager.ts:1053 | The wrapper's first statement is read from the code that is sent, with the count maxRows + 1 |
| RowCap.WrappedHasNoRowCount | server/src/connectionManager.ts:1045-1052 | A user batch the read guard accepts, and a built-in batch that is wrapped, has no SET ROWCOUNT in its stripped text |
| RowCap.WrapSurvivesIffClosed | server/src/connectionManager.ts:1044-1054 | The wrapped batch lexes to prefix, batch and suffix iff the batch's last token is not left open, and then strips to their strippings |
| RowCap.WrappedRegions | server/src/connectionManager.ts:1053-1086 | The code of the text sent for a closed batch is the header's, the prefix's, the batch's own and the suffix's |
| RowCap.OnlyTheWrappers | server/src/connectionManager.ts:1044-1054 | In that code, for a batch without one of its own, SET ROWCOUNT occurs exactly at the wrapper's two places |
| Notices.Scopes.constructor | server/src/connectionManager.ts:253 | No scope exists at the start |
| Notices.Scopes.RunInScope | server/src/connectionManager.ts:256-258 | A handler runs as a new task in a fresh, empty scope: one step of the machine |
| Notices.Scopes.Start | server/src/connectionManager.ts:246-248 | Any other asynchronous work inherits the scope of whatever starts it: one step |
| Notices.Scopes.Record | server/src/connectionManager.ts:262-284 | A notice goes into the store of the scope the code runs in, keeping its key's place, and nowhere outside a scope: one step |
| Notices.Scopes.Attach | server/src/connectionManager.ts:291-298 | The banner of the current scope's store is put in front of a content-shaped result |
| Notices.ContextIsCall | server/src/connectionManager.ts:246-253 | The scope a task runs in is the tool call it descends from, told from who started whom alone |
| Notices.Isolated | server/src/connectionManager.ts:246-253 | Under any interleaving, a call's store is what it would be had the call run alone: the notices of its own tasks replayed |
| Notices.ReplayExactly | server/src/connectionManager.ts:246-284 | A store holds each key once, in order of first recording, with the last text recorded under it |
| Notices.BannerIsOwn | server/src/connectionManager.ts:286-298 | A result is changed iff its own call recorded something; then its first block is the banner, laid out as below, and the others are the result's own, and the banner's entries are exactly the call's keys in order of first recording, each with its latest text |
| Notices.BannerShows | server/src/connectionManager.ts:296 | The banner is every entry's text between asterisks, in the order of the store, an empty line between each two, and nothing else |
| ToolResults.BannerSaysExactly | server/src/connectionManager.ts:286-326 | Over any interleaving of calls, pool steps, queries and writes, a warning is in a call's banner iff one of the call's own queries or writes gave rise to it, for instance names that cannot pose as keys |
| ToolResults.WhatIsNoted | server/src/connectionManager.ts:1062-1126 | A query or write notes a fallback iff its pool has a reason, a query a cut iff rows exceed the cap and noteTruncation is not false, and dropped result sets iff user SQL returned more than one |
| ToolResults.FallbackIsTold | server/src/connectionManager.ts:300-326 | A call's banner warns of a fallback on an instance iff one of its own queries or writes there was given a pool that had dialled the fallback catalog after a failure with a message |
| ToolResults.CutIsTold | server/src/connectionManager.ts:1072 | And of a cut at a cap iff one of its own queries there was cut at that cap and does not report that itself |
| ToolResults.CutMeansMoreRows | server/src/connectionManager.ts:1056-1096 | For a batch the row cap tells the truth about, a query counts as cut iff the batch by itself produces more rows than the cap |
| Notices.KeysTellApart | server/src/connectionManager.ts:262-284 | Two notices share a key iff they are the same warning about the same instance and cap, or one is a fallback on an instance called what the other is keyed by |
| Notices.KeysTellApartExactly | server/src/connectionManager.ts:262-284 | Among instances of given names, different warnings never share a key iff no name is another one's rowcap or resultsets key |
| PoolCache.FallbackTtl | server/src/connectionManager.ts:892-895 | The retirement delay is the setting clamped to 1000 and 2^31-1, and 60000 when the setting is no number |
| PoolCache.PoolManager.constructor | server/src/connectionManager.ts:601 | The cache starts empty, with the clamped delay |
| PoolCache.PoolManager.GetPool | server/src/connectionManager.ts:716-718 | Up to the first await: the cached pool while connected and nothing else happens, or a dial of this call's own |
| PoolCache.PoolManager.OnFirstOk | server/src/connectionManager.ts:765-766 | A first connect that succeeds creates, registers and caches its pool in one step |
| PoolCache.PoolManager.OnFirstFailed | server/src/connectionManager.ts:767-771 | A first failure ends the dial or goes on to the fallback catalog |
| PoolCache.PoolManager.OnSecondOk | server/src/connectionManager.ts:777-824 | The fallback connect is probed first unless its reason is empty |
| PoolCache.PoolManager.OnProbed | server/src/connectionManager.ts:832-870 | The probe refuses a missing database only when this login could have seen it |
| PoolCache.PoolManager.OnQueryEnd | server/src/connectionManager.ts:1088-1095 | A query's warning is read off the pool it ran on |
| PoolCache.PoolManager.Adopt | server/src/connectionManager.ts:872-904 | Registering a pool updates map and catalog information, and arms the timer iff there is a reason |
| PoolCache.PoolManager.OnError | server/src/connectionManager.ts:795-799 | A pool's error removes the key's entry iff it is still that pool: one step |
| PoolCache.PoolManager.OnRetirement | server/src/connectionManager.ts:896-903 | A retirement does the same, and disarms its timer: one step |
| PoolCache.Reachable | server/src/connectionManager.ts:647-916 | Over all interleaved dials, errors, timers and queries, cache, timers and catalog information agree with how each pool was dialled |
| PoolCache.KeysTellApartExactly | server/src/connectionManager.ts:716-718 | For any fleet, keys tell all identities, instances and intents apart iff no name is another name with #rw and no key tail is another behind a colon or ends in :: and another |
| PoolCache.HiddenCollides | server/src/connectionManager.ts:716-718 | A tail hidden in another gives two identities one key |
| PoolCache.OwnCredentialsExactly | server/src/connectionManager.ts:716-758 | Every pool found under a key, in every run, was dialled for the finder's identity, instance and intent and with its own secret iff no two different calls in use share a key |
| PoolCache.CachedForItsKeyExactly | server/src/connectionManager.ts:716-720 | With one secret for each identity, that is so iff the fleet's names meet the condition above |
| PoolCache.SecondSecretIsServed | server/src/connectionManager.ts:716-718 | With two secrets in use for one identity it is not: the pool dialled with the first is handed to the second, and nothing is dialled |
| PoolCache.RemovesOnlyItsOwn | server/src/connectionManager.ts:795-799 | An error or retirement never removes or changes another pool's entry |
| PoolCache.RemovesItsOwn | server/src/connectionManager.ts:896-903 | It does remove the entry of its own pool, wherever that is cached |
| PoolCache.RetiredInTime | server/src/connectionManager.ts:886-904 | A cached pool has an unfired timer iff it fell back after a failure with a message, and then it is not cached past its time to live |
| PoolCache.BareFallsBack | server/src/connectionManager.ts:175-208 | An error object with a number and nothing else counts as catalog-unavailable iff the number is one of the eight, or its message says so |
| PoolCache.EmptyMessageStays | server/src/connectionManager.ts:886 | After such a failure with an empty message the fallback pool stays cached for any length of time, unannounced |
| PoolCache.WarningAgrees | server/src/connectionManager.ts:1079-1096 | A query result carries the warning iff the pool that ran it dialled the fallback catalog after a failure with a message, even if that pool is retired or replaced meanwhile |
| PoolOrigins.FallsBackExactly | server/src/connectionManager.ts:765-787 | Over every run, a pool is on the fallback catalog iff the first connect of its dial failed as catalog-unavailable, falling back is switched on and the configured database is another one, and it carries that failure's message; otherwise that first connect succeeded |
| PoolOrigins.FailureEndsDial | server/src/connectionManager.ts:767-771 | A first failure leads to a second connect iff it was so; otherwise the dial is over, and whatever happens later it never makes a pool |
| PoolOrigins.SecondFailureEndsDial | server/src/connectionManager.ts:778-785 | A second failure is final in the same way |
| PoolOrigins.HandedOutExactly | server/src/connectionManager.ts:833-873 | A pool whose dial is over was handed out iff the probe did not find, with a login that could see the catalog, that there is no such database |
| PoolOrigins.NoteSaysWhatWasFound | server/src/connectionManager.ts:852-869 | What is said of a fallback is what its probe found: no answer, no row to be seen, online there, or the state it is in |
| PoolOrigins.HandsOutIntoCache | server/src/connectionManager.ts:872-904 | A pool handed out is from then on the one its key is found under, whatever was there before, with a retirement timer iff it fell back after a failure with a message, and its dial is over |
| PrimaryAlias.CandidatesAreNodes | server/src/connectionManager.ts:978-983 | The candidates are exactly the region's nodes that are no witness and whose names end neither in -nlb nor in -primary |
| PrimaryAlias.AliasGoesToNode | server/src/connectionManager.ts:647-656 | The mutual recursion terminates, and a pool for an alias is a pool of a candidate node of that region |
| PrimarySearch.CandidatesInOrder | server/src/connectionManager.ts:978-983 | They come in fleet order |
| PrimarySearch.ResolvesExactly | server/src/connectionManager.ts:989-1024 | In a world that holds still, a region has a primary iff some candidate that answers reports a non-empty name that some candidate which answers gives as its own; it is then the first such candidate, in fleet order, of the first such reporter, and the alias is dialled as exactly that instance |
| PrimarySearch.OthersDialThemselves | server/src/connectionManager.ts:653-666 | Any other name is dialled as it is iff an instance has it that is no witness |
| PrimaryAlias.Resolver.constructor | server/src/connectionManager.ts:618-619 | Both caches start empty |
| PrimaryAlias.Resolver.Resolve | server/src/connectionManager.ts:971-992 | Up to the first await: the cached answer iff it has not expired, a refusal, or a new resolution: one step |
| PrimaryAlias.Resolver.OnConnected | server/src/connectionManager.ts:992-993 | Once the candidate's pool is there its availability group is asked: one step |
| PrimaryAlias.Resolver.OnAsked | server/src/connectionManager.ts:1004-1011 | The report is taken and the first server name looked up or asked for: one step |
| PrimaryAlias.Resolver.OnJudge | server/src/connectionManager.ts:1012-1020 | The name held decides: cached and answered, on to the next name, or on to the next candidate: one step |
| PrimaryAlias.Resolver.OnNamed | server/src/connectionManager.ts:949-956 | An awaited server name is written down whatever was known before, and held by the resolution that asked: one step |
| PrimaryAlias.Resolver.Invalidate | server/src/connectionManager.ts:621-624 | One region's entry, or every entry, is forgotten; server names are kept: one step |
| PrimaryAlias.Reachable | server/src/connectionManager.ts:946-1028 | Over all interleaved resolutions, server name queries, invalidations and clock steps, every entry rests on a report read during the resolution that wrote it, at any time between asking and being answered |
| PrimaryAlias.AnswersAreRecent | server/src/connectionManager.ts:971-1028 | Every answer names a candidate node whose own server name matches what an availability group reported, and that was read at most the time to live plus the duration of the resolution that wrote the entry ago |
| PrimarySearch.GivesUpOnlyExhausted | server/src/connectionManager.ts:989-1027 | In every run, a resolution ends with the candidate it has just matched as its answer, or without one, and then every candidate of the region was asked in order, each failing or reporting a name that every candidate's own name, taken in order, failed to match |
| PrimarySearch.ServedIffFresh | server/src/connectionManager.ts:971-986 | A call starts a resolution, with the first candidate, iff the region has no unexpired entry and some candidate; with an unexpired entry it is answered by that entry |
| PrimarySearch.ForgetsWhatIsNamed | server/src/connectionManager.ts:621-624 | An invalidation forgets the region named, or all when none or the empty one is named, and nothing else |
| PrimarySearch.AsksOnlyTheUnknown | server/src/connectionManager.ts:946-948 | A server name is asked for only while it is unknown |
| PrimaryAlias.InvalidationForgetsExactly | server/src/connectionManager.ts:621-624 | After an invalidation all later answers rest on reports read later iff no resolution in flight has asked before it and is still being answered, or holds an earlier report it can still match: by the name it awaits or holds, by an unknown or matching later name, or by one that somebody else awaits |
| PrimaryAlias.OpenCanAnswer | server/src/connectionManager.ts:993-1017 | Such a resolution can be answered so that it caches a report as old as that |
| PrimaryAlias.RefreshCachesOldReport | server/src/tools.ts:354-357 | A run in which a refresh after a failover is followed by an entry read before it, kept for a whole time to live |
| SqlErrors.SqlErrorNumbers | server/src/connectionManager.ts:187-201 | The walk terminates on every graph and returns the numbers of the nodes it sees, in the order it sees them |
| SqlErrors.Walker.constructor | server/src/connectionManager.ts:188-189 | Nothing is seen at the start |
| SqlErrors.Walker.Walk | server/src/connectionManager.ts:190-198 | Visiting a node in place appends exactly the specification's order |
| SqlErrors.Walker.See | server/src/connectionManager.ts:192-194 | A node is marked and its number taken in one go |
| SqlErrors.Walker.WalkAll | server/src/connectionManager.ts:195-197 | The links are followed in the order info, originalError, errors |
| SqlErrors.OnlyReachableOnce | server/src/connectionManager.ts:187-201 | On every graph, cyclic or not, each node counts at most once and only within six links |
| SqlErrors.TreeExactlySixLinks | server/src/connectionManager.ts:191 | On a tree, the nodes that count are exactly those within six links |
| SqlErrors.TreeNumbers | server/src/connectionManager.ts:187-201 | So the numbers returned are exactly the numbers of those nodes |
| SqlErrors.NumbersInOrder | server/src/connectionManager.ts:187-201 | The numbers come in the order in which their objects are first seen |
| SqlErrors.LinksInOrder | server/src/connectionManager.ts:195-197 | An error whose links lead to distinct errors of their own comes first, then info, originalError and the errors in order |
| SqlErrors.ShallowIsComplete | server/src/connectionManager.ts:187-201 | On every graph, cyclic or shared, in which no simple path from the error has more than six links, everything below the error is seen, however many links away |
| SqlErrors.ShallowNumbers | server/src/connectionManager.ts:187-201 | So exactly the numbers of the objects below the error are returned |
| SqlErrors.SevenObjectsAreShallow | server/src/connectionManager.ts:191 | Any error of at most seven objects is such a graph |
| SqlErrors.SharingSkips | server/src/connectionManager.ts:191-192 | Beyond that, with sharing, a node two links away can be missed |
| RateLimiter.Limiter.constructor | server/src/index.ts:196 | No hits are recorded at the start |
| RateLimiter.Limiter.OnRequest | server/src/index.ts:200-213 | A request is counted in its key's window and answered by that count |
| RateLimiter.Limiter.OnPruneTimer | server/src/index.ts:198 | The prune loop removes exactly the expired entries |
| RateLimiter.PruneInvisible | server/src/index.ts:198 | No verdict ever depends on which prunes happened before it |
| RateLimiter.AdmittedWithoutPrunes | server/src/index.ts:198 | Nor does the number of requests admitted in any interval |
| RateLimiter.ExactlyLimitPerWindow | server/src/index.ts:204-211 | Of the requests counted in a window of 60000 ms exactly min(count, limit) pass |
| RateLimiter.AtMostTwicePerMinute | server/src/index.ts:195-213 | At most twice the limit passes in any closed interval of 60000 ms |
| RateLimiter.NeverRefusesExactly | server/src/index.ts:200-211 | No request is ever refused iff the limit is no number or not above zero |
| RateLimiter.RetryWithinMinute | server/src/index.ts:205-208 | Nobody is told to wait for more than 60 seconds |
| RateLimiter.RetryIffAfterReset | server/src/index.ts:205 | A refused client that stays silent is admitted iff it retries strictly after the reset |
| RateLimiter.RetryAfterIsHonest | server/src/index.ts:208 | Later than Retry-After always succeeds; exactly then iff the time left was no whole number of seconds; a second earlier never |
| DumpPaths.SelectsReadBack | server/src/dumpPaths.ts:95 | Whatever the directories contain, the printed SELECTs lex to one literal per directory, reading back as the directory, with fixed code around them |
| DumpPaths.ConfiguredDirectoriesReadBack | server/src/dumpPaths.ts:37-43 | For any parts without semicolons, joined by semicolons: what is printed reads back as the directories of these very parts, in order |
| DumpPaths.SplitsExactly | server/src/dumpPaths.ts:39 | Splitting gives the one list of parts without semicolons that joins to the configured text |
| DumpPaths.CleansExactly | server/src/dumpPaths.ts:40 | Of a part exactly the white space at both ends and then the slashes at its end go |
| DumpPaths.DirectoriesInOrder | server/src/dumpPaths.ts:41 | Every part whose cleaned form has 1 to 400 characters is printed, in order, and no other |
| DumpPaths.DirectoriesClean | server/src/dumpPaths.ts:40-41 | Every directory kept is 1 to 400 characters, begins with no white space and ends in no slash |
| Flags.ParseFlags | server/src/reportCli.ts:15-27 | The index loop equals the recursive parser |
| Flags.ParsesFirst | server/src/reportCli.ts:17-25 | Each written flag or stray word is consumed exactly and contributes exactly itself |
| Flags.ParsesBack | server/src/reportCli.ts:15-27 | Flags written in any mixture of `--k=v`, `--k v` and bare `--k` are recovered iff none is called `__proto__` |

## Left out

- Worker: stderr tails, temporary directories, the boot script and process spawning; the texts of errors (their causes are kept).
- Worker: the order in which one settle rejects different calls; outcomes are kept per call.
- Worker: JSON parsing is an arbitrary function from lines to messages, and an id that is no whole number counts as none; `call` is two events, split at its await.
- Strings are sequences of Dafny characters, not UTF-16 code units; case folding is that of ASCII letters.
- Guards: case folding of the sensitive tables' names is that of ASCII letters; for the one entry with a gap, SELECT ... INTO, that a refusal is for something in code is not stated, only that nothing in code is let through.
- Bounds: where a delimited name has a blank in it, only that a change of a table in code is seen is stated, not that nothing else is; likewise for configured names with blanks, quotes or delimiters in them.
- Batches: the server is a sequence of statements, at any places of the batch's code, that return rows, put rows somewhere, or do neither, each as an arbitrary function of what was put before; how SQL text means these statements is not modelled, and a batch whose last token is left open does not run.
- Limits: a count that is not a literal number (a variable) is not read as a SET ROWCOUNT; only exempt built-in batches can contain one.
- Row cap: maxRows is a natural number; of executeWrite only the pool it is given and the fallback it notes are modelled.
- PoolCache: a timer fires no later than it is due; the message pattern of a catalog-unavailable error is an arbitrary test, and in the machine the classification is a parameter of the event.
- PoolCache: TLS and on-behalf-of tokens are left out; identities and secrets are any strings, the identity not empty, and which secrets are in use is a parameter.
- PrimaryAlias: name comparison is an arbitrary relation, reflexive where a lemma says so.
- PrimaryAlias: the recursion is proved to terminate in a world where instances answer the same throughout one resolution; the interleaved machine lets each answer be anything.
- ToolResults: the texts of the warnings are an arbitrary function of the notice and of the query or write; queries and writes run on pools that were handed out, which pool an alias is given is not tied to PrimaryAlias.
- RateLimiter: the rest of the HTTP server; the clock does not run backwards.
- DumpPaths: the fixed text of the candidate query around the extra directories.
- Tool bodies, authentication, the credential store, schema documents and the health-check engine: not part of this model.
