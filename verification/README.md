# A verified model of Ali OS

Ali OS is an assistant that runs projects over Telegram: it keeps its data in a SQL database (a local SQLite file or
Turso over HTTP), shows dates in the Jalali calendar, asks its owner to approve actions with side effects, and talks to
Google and to language models. This project models the parts of it where the arithmetic, the parsing or the protocol is
hard to get right, and proves what they promise. `dafny verify dfyconfig.toml` checks everything.

| Dafny files | what they model |
|---|---|
| `Arithmetic`, `Gregorian`, `JalaliYear`, `Jalali`, `JalaliLeapYears`, `DueDates` | the Jalali calendar of `app/utils/jalali.py`: truncating division, proleptic Gregorian day numbers, the walk over the leap-year breaks for any table of good gaps, both conversions; the leap years and days of the calendar in use, by literal years; the due dates computed with them |
| `Text`, `SqlLexer`, `SqlSplit`, `SqlTheorems`, `SqlSplitPoints`, `SqlScripts` | comment stripping and statement splitting of `app/turso.py`: loops with one character of lookahead, proved equal to a lexer with five modes, and that to a grammar of scripts on their characters |
| `Risk`, `RiskPolicy`, `Approvals`, `ApprovalRules`, `ApprovalTheorems`, `ApprovalSweeps`, `ApprovalButtons` | the policy and the approval gateway as an object whose calls are atomic, what each call does, its run invariants, the simulation that hides the expiry sweep, and the buttons that make the calls |
| `ApprovalThreads`, `ApprovalSerial`, `ApprovalOverlap`, `ApprovalClosed`, `ApprovalHistory` | the gateway as several threads run it, one database statement a step: what holds in every interleaving, what overlap on a row breaks and when exactly, and why rows without overlap behave as if calls were atomic |
| `Chunking`, `ChunkingTurns`, `ChunkingLoops`, `ChunkingPairs` | cutting long Telegram messages in `app/telegram/client.py`: the loop, where its turns end, when it ends, when its chunks are right, when bold pairs stay whole, and the texts on which each fails |
| `TtlCache`, `GoogleCaches`, `GoogleAnswers`, `GoogleThreads` | the bounded caches of `app/integrations/google.py` and what they serve, also when lookups, fetches and clears interleave |
| `Cannibalization`, `CannibalizationReport`, `Ranking`, `Sequences` | grouping Search Console rows by query and page, and the ranked report |
| `CredentialStore` | the table of integration credentials and its merge history |
| `LlmRetry`, `LlmReplies` | backoff, fallback and the three JSON attempts of `app/llm/openai_compatible.py` |

Loops, and methods that change fields, are Dafny methods proved equal to a function of their input or old state; the
theorems are about those functions. A result that holds for the calendar's own table is proved first for any good table,
one whose gaps are at least 29 and congruent to 4 or 29 modulo 33; results about Gregorian dates are proved for any
calendar table, a good one that starts in -621 or later and has every 1 Farvardin between 1 and 31 March. The Gregorian
half is the proleptic calendar of section 3.2.1 of ISO 8601:2004; quote doubling and `--` comments follow sections 5.3
and 5.2 of ISO/IEC 9075:1992.

Where the code does not do what its documentation, or a reader, would expect, the model follows the code:

- A calendar round trip fails at the end of the table: from 12 Dey 3177 (1 January 3799) on, the way back raises. The
  theorems give the exact dates.
- `_chunk` loops for ever on some texts with `**`, by standing still or by jumping back again and again, and on others
  sends a part that is too long and then repeats it. `ChunkingLoops` says exactly when the loop ends and exactly when
  its chunks are right, and gives a family of failing texts for every size from 3 (2 for the repeats) on.
- `store.upsert` says that an empty secret keeps the stored one; it is replaced. Only a field that is left out is kept,
  and it is `catalog.validate` that leaves blank fields out.
- `failed` is not a final status: a failed action can be approved again, rejected or expired.
- `_chunk` is meant never to break inside a `**` pair. It does: a marker across the end of a piece is itself cut in two
  and not seen by the count, and moving back to one line break need not leave an even count. `ChunkingPairs` says
  exactly when every slice holds an even number of markers, gives the failing texts, and proves the promise for texts
  whose lines are shorter than the size and hold whole pairs.
- A red action needs two approvals, but not the second button: both payloads call `approve`, and exchanging them in any
  run changes nothing.
- Two overlapping approvals can run an executor twice, two overlapping first approvals of a red action count as one, and an approval that overlaps a rejection can run a rejected
  action. At-most-once holds exactly as long as no two calls can come to approve the same row together; overlap with
  rejections, sweeps and other rows does no harm to it. A closed row stays closed, whatever the threads do, exactly when
  no call is about to write another status to it or to run its executor; without overlap on the row there is none.
- `cache_clear` does not stop a fetch under way: what it brings is stored after the clear and served. This is the only
  way in which an entry can be older than the last clear.
- The sweep and the lazy check of `_load_open` disagree on an `expires_at` of exactly 0.
- A cached key that is stored again keeps its old place in the eviction order, so it may be dropped much sooner than 31
  stores later; how many stores it lasts is stated exactly.
- Two pairs of Google properties can share a cache key if a property contains a bar.

## Model

| member | source | states |
|---|---|---|
| Gregorian.DateThenBack | app/utils/jalali.py:94-106 | every proleptic Gregorian date from 1 March -100100 on is recovered from its day number, with no upper limit |
| Gregorian.DayThenBack | app/utils/jalali.py:94-106 | every day number from -34839655 on gives a valid date with that number |
| Gregorian.ConsecutiveDates | app/utils/jalali.py:94-97 | the next date, by the calendar's own month lengths and leap rule, has the next day number |
| Gregorian.NextDayNextDate | app/utils/jalali.py:100-106 | the next day number belongs to the next date |
| Gregorian.DayNumbersOrderDates | app/utils/jalali.py:94-97 | a date is earlier exactly when its day number is smaller |
| JalaliYear.BreaksAreGood | app/utils/jalali.py:49-52 | all 19 gaps of the table, which runs from -61 to 3178, are at least 29 and congruent to 4 or 29 modulo 33, as Borkowski's method needs; what its years are is said by `JalaliLeapYears` |
| JalaliYear.WalkBreaks | app/utils/jalali.py:65-71 | the loop finds the gap that holds the year and has counted the leap years of all gaps before it |
| JalaliYear.JalCal | app/utils/jalali.py:55-87 | the method with the loop gives the year's leap code and Nowruz, or fails outside the table |
| JalaliYear.LeapCodeIsCycles | app/utils/jalali.py:81-85 | the leap code is 0 exactly in the leap years of an independent rule: each gap is 33-year cycles closed by one of 29 or 37 years, leap every fourth year from the first except for a five-year step |
| JalaliYear.LeapJGrows | app/utils/jalali.py:65-85 | for any good table, across gaps too, the running leap count grows by one exactly after a year with code 0, and code 1 marks exactly the year after one |
| JalaliYear.LeapTermsCancel | app/utils/jalali.py:78-97 | the Gregorian leap terms in `march` cancel those in `_g2d`, for every Gregorian year from 0 on |
| JalaliYear.LeapYearRule | app/utils/jalali.py:55-87 | for any good table that starts in -621 or later, first days of consecutive years are 366 apart exactly after leap code 0 and 365 otherwise; code 1 means the previous year was leap |
| JalaliYear.NowruzInMarch | app/utils/jalali.py:78-79 | over the whole table 1 Farvardin falls on 19 to 23 March |
| Jalali.DayToJalali | app/utils/jalali.py:114-134 | the method that reassigns k and jy computes the conversion the theorems are about, or the error of the table's end |
| Jalali.JDaysOrderDates | app/utils/jalali.py:109-111 | for any calendar table, a Jalali date is earlier exactly when its day number is smaller, and no two dates share one |
| Jalali.MonthsTile | app/utils/jalali.py:109-111 | for any calendar table, the day after the last day of a month, Esfand included, is the first of the next, one day number later |
| Jalali.DayToJalaliAndBack | app/utils/jalali.py:109-134 | every day number from the first 1 Farvardin of any calendar table to its last Gregorian year gives the valid Jalali date that has it |
| Jalali.JalaliRoundTrip | app/utils/jalali.py:109-144 | for any calendar table, Jalali to Gregorian and back is exact if and only if the day is before the table's last Gregorian new year; otherwise the way back raises |
| Jalali.GregorianRoundTrip | app/utils/jalali.py:109-144 | for any calendar table and every valid proleptic Gregorian date, Gregorian to Jalali and back is exact if and only if the date lies between the first 1 Farvardin and the last whole Gregorian year; which years raise |
| Jalali.BeforeTheTable | app/utils/jalali.py:114-134 | for any calendar table, in the days of the first Gregorian year before 1 Farvardin the result is a date of the year before the table, which does not convert back |
| Jalali.TooEarly | app/utils/jalali.py:100-120 | every valid date before 1 March -100100, the range in which the day-number formulas are not proved right, raises |
| Jalali.ConversionKeepsOrder | app/utils/jalali.py:139-144 | for any calendar table, the conversion keeps and reflects the order of dates |
| Jalali.ConversionStepsByDay | app/utils/jalali.py:143-144 | for any calendar table, the Gregorian date of the next Jalali day is the next Gregorian day |
| Jalali.CalendarEnds | app/utils/jalali.py:49-52 | 1 January 3799, the first day whose conversion raises, is 12 Dey 3177 |
| Jalali.JalaliToGregorianAndBack | app/utils/jalali.py:139-144 | with the source's table a valid Jalali date survives the round trip if and only if it is before 12 Dey 3177 |
| Jalali.GregorianToJalaliAndBack | app/utils/jalali.py:139-144 | with the source's table a Gregorian date, of any year, survives the round trip if and only if it is from 20 March 560 to 31 December 3798 |
| JalaliLeapYears.LeapYearsOfTheCalendar | app/utils/jalali.py:49-87 | the years from -61 to 3177 whose Esfand has 30 days, without the table: by periods with literal first years, every fourth year of each 33, and of a period's last five years the first |
| JalaliLeapYears.LeapYearsAroundThePresent | app/utils/jalali.py:147-156 | from 1181 to 1633 a year is leap if and only if its remainder modulo 33 is 1, 5, 9, 13, 17, 22, 26 or 30 |
| JalaliLeapYears.YearsAddUp | app/utils/jalali.py:55-87 | 1 Farvardin of every year is as many days after 20 March 560 as the years since -61 have, 366 or 365 by that rule |
| JalaliLeapYears.DateByDays | app/utils/jalali.py:109-144 | every date of the calendar converts to the Gregorian date found by counting those years, months of 31 and 30 days, and days |
| JalaliLeapYears.KnownDates | app/utils/jalali.py:139-144 | both conversions on 1 Farvardin and 30 Esfand 1403 and on 5 Shahrivar 1404, which are 20 March 2024, 20 March 2025 and 27 August 2025 |
| DueDates.DueAt | app/financial/repository.py:64-74 | for every month of the table an income is due at 23:59:59 on the Gregorian date of the month's last day; a month outside 1 to 12 is counted on by the same formula, if `datetime` accepts the result; otherwise, and for a year outside the table, five days from now |
| DueDates.DueDateIsMonthEnd | app/financial/repository.py:64-71 | the day after that day is the 1st of the next month, for every month but the last of the table, which has no next |
| DueDates.YearsOfTable | app/financial/repository.py:70-71 | every date of the table converts to a year from 560 to 3799, which `datetime` accepts |
| SqlLexer.LexAppend | app/turso.py:28-99 | reading goes on past a boundary that no lookahead can cross as if it had stopped there |
| SqlLexer.StripSqlComments | app/turso.py:28-99 | the loop with its flags, for every text, writes the lexemes outside comments, a blank for a block comment and the line break of a line comment |
| SqlLexer.SkipLine | app/turso.py:78-85 | the inner loop stops at the line break that ends a line comment, or at the end |
| SqlLexer.SkipBlock | app/turso.py:88-94 | the inner loop ends after the block comment, or past the text if it is not terminated |
| SqlLexer.CleanTextLexes | app/turso.py:28-99 | stripping never makes a new comment and never merges literals: the stripped text reads as exactly the lexemes kept, with or without comments recognised |
| SqlLexer.StripTwice | app/turso.py:28-99 | stripping comments is idempotent |
| SqlLexer.StripKeepsLiterals | app/turso.py:28-99 | the sequence of closed quoted literals outside comments is the same before and after stripping |
| SqlSplit.SplitStatements | app/turso.py:102-170 | the loop, for every script, gives the trimmed non-empty pieces between semicolons that are code |
| SqlTheorems.SplitGivesStatements | app/turso.py:102-170 | every statement is non-empty, trimmed, free of comments and has no semicolon outside quotes; all but the last end outside quotes |
| SqlTheorems.SplitComposes | app/turso.py:102-170 | if a script ends in code, splitting it with `;` and any second script gives the statements of one followed by those of the other |
| SqlSplitPoints.SplitsExactlyAfterCode | app/turso.py:102-170 | a script can be cut after a given part, whatever follows, if and only if that part ends in code, outside quotes and comments |
| SqlTheorems.SplitRoundTrip | app/turso.py:102-170 | joining the statements of any script with `;` and splitting again gives the same statements, even if the last literal is not terminated |
| SqlTheorems.SplitKeepsLiterals | app/turso.py:102-170 | the closed literals of a script are those of its statements, in order |
| SqlScripts.EveryTextIsAScript | app/turso.py:28-99 | every text is made of single characters, quoted literals with doubled quotes, and comments, each beginning where it can and ending where it first can, the last perhaps left open |
| SqlScripts.StripIsStripped | app/turso.py:28-99 | of such a script stripping leaves every part but the comments: for `--` up to a line break the line break, for `/*` up to the first `*/` a blank, and nothing for a `--` at the end |
| SqlScripts.SplitIsPieces | app/turso.py:102-170 | its statements are the trimmed texts, comments left out, between those semicolons that are in no literal and no comment, without the blank ones |
| SqlScripts.KeepIsTrimmed | app/turso.py:153-170 | a text between semicolons gives one statement, trimmed, or none if it is blank |
| SqlScripts.LiteralsAreQuoted | app/turso.py:28-99 | the closed literals that stripping and splitting keep are its quoted parts, character for character |
| SqlScripts.EndsInCodeExactlyWhenClosed | app/turso.py:102-170 | it ends in code if and only if its last part is not a literal or comment left open |
| SqlTheorems.ExecuteScript | app/turso.py:227-239 | one request with the statements that are not pragmas, in order, or none at all |
| SqlScripts.PragmaByCharacters | app/turso.py:227-239 | what is skipped: statements whose first six letters are those of pragma, each small or capital, with a blank after them |
| SqlScripts.BatchLeavesPragmasOut | app/turso.py:227-239 | what is sent are exactly the other statements, in order |
| SqlTheorems.BatchComposes | app/turso.py:227-239 | two scripts run as one send what they would send one after the other |
| Approvals.Gateway.RequestAction | app/approvals/gateway.py:125-174 | the state after a request is that of the atomic model: a green action is inserted as approved and run, another is inserted as pending |
| Approvals.Gateway.Execute | app/approvals/gateway.py:196-234 | one run of the executor, then executed with an event, or failed if it raised or is not registered |
| Approvals.Gateway.LoadOpen | app/approvals/gateway.py:250-269 | which rows may be decided, by whom and until when, in the order of the checks; a row found past due is written as expired |
| Approvals.Gateway.ApproveAction | app/approvals/gateway.py:272-294 | the state after an approval is that of the atomic model: one more count, then confirming or approved and run |
| Approvals.Gateway.RejectAction | app/approvals/gateway.py:297-308 | the state after a rejection is that of the atomic model |
| Approvals.Gateway.ExpireStale | app/repositories.py:386-399 | the loop expires exactly the pending and confirming rows past their deadline and counts them |
| Approvals.Gateway.Update | app/repositories.py:367-383 | an update writes the named columns of one row only |
| ApprovalRules.RefusalsInOrder | app/approvals/gateway.py:250-269 | in any state: which of the refusals a decision gets, by owner, status and deadline in this order, and that it is accepted if and only if none applies |
| ApprovalRules.RefusalsWriteNothing | app/approvals/gateway.py:250-269 | a refused decision changes nothing but to expire a row found past due |
| ApprovalRules.RejectionRejects | app/approvals/gateway.py:297-308 | an accepted rejection makes the row rejected, logs it and changes nothing else |
| ApprovalRules.ApprovalCounts | app/approvals/gateway.py:272-294 | an accepted approval adds one to the count and, if it is the last one needed, calls the executor once and writes how that went; otherwise it says which step it was |
| ApprovalRules.RequestWaits | app/approvals/gateway.py:125-174 | a type not listed as green becomes a pending row: two approvals within 7200 seconds for red, one within 86400 otherwise; nothing runs |
| ApprovalRules.GreenRunsAtOnce | app/approvals/gateway.py:125-147 | a type listed as green runs at once and ends as executed or failed |
| ApprovalRules.TakenUid | app/repositories.py:314-327 | a request with a uid in use changes nothing |
| ApprovalRules.SweepExpires | app/repositories.py:386-399 | a sweep expires exactly the open rows past their deadline and touches nothing else |
| ApprovalTheorems.ApplyKeepsInv | app/approvals/gateway.py:125-308 | every call keeps the invariant that ties counts, statuses, executor runs and events together |
| ApprovalTheorems.AttemptsFollowFromCounts | app/approvals/gateway.py:196-294 | in every reachable state an executor has run max(0, count - required + 1) times, 1 + count for a green action; confirming means 0 < count < required |
| ApprovalTheorems.SucceedsAtMostOnce | app/approvals/gateway.py:196-234 | over a whole run an executor succeeds at most once, exactly when its row is executed, with exactly one event |
| ApprovalTheorems.ClosedStaysClosed | app/approvals/gateway.py:250-308 | an executed, rejected or expired row is not written and not run by any call; after a run only a failed row is ever written again |
| ApprovalTheorems.ClosedForever | app/approvals/gateway.py:250-308 | the same over any continuation of a run |
| ApprovalTheorems.CountIsAccepted | app/approvals/gateway.py:272-289 | the stored count is the number of approvals accepted over the run |
| ApprovalTheorems.EnoughApprovalsFirst | app/approvals/gateway.py:272-294 | the executor of a yellow or red action is never called before 1 or 2 accepted approvals |
| ApprovalTheorems.RowWasRequested | app/repositories.py:297-327 | every row of a run comes from a request of that run, which fixed its type, owner, level and deadline for good |
| Risk.LevelsOfPolicy | app/approvals/risk.py:96-111 | no approval is needed exactly for the types listed as green, two exactly for those listed as red or, not listed at all, with a red hint in the name |
| RiskPolicy.LevelsByName | app/approvals/risk.py:24-85 | the twenty types that run unattended, and no others; the eleven that need two approvals by name; the six that have a red hint and still need only one |
| RiskPolicy.HintsByWord | app/approvals/risk.py:89-107 | a name has a red hint if and only if one of six words stands anywhere in it |
| RiskPolicy.NameInAnyCase | app/approvals/risk.py:96-98 | blanks around a type and capitals in it make no difference to its level |
| RiskPolicy.LowerByLetters | app/approvals/risk.py:98 | lowering exchanges each capital for its small letter and leaves every other character |
| ApprovalTheorems.UnlistedNeedsApproval | app/approvals/risk.py:96-107 | in any run the executor of a type that is not listed as green is never called before an accepted approval, and never before two if it is listed as red, or not listed and has a red hint |
| ApprovalTheorems.AcceptedInTime | app/approvals/gateway.py:250-269 | in any run a decision is accepted only from the owner named by the request, on an open or failed row, no later than the time to live of its level after the request, unless that deadline is exactly 0 |
| ApprovalSweeps.SweepsAreInvisible | app/repositories.py:386-399 | with a clock that never goes back from 0, leaving every sweep out of any run changes no verdict, no executor run and no event |
| ApprovalSweeps.ZeroDeadlineIsSeen | app/approvals/gateway.py:266-268 | for every pending or confirming row and every caller who may decide it, sweep and lazy check agree if and only if the deadline is not 0 or has not passed |
| ApprovalButtons.PayloadRoundTrip | app/approvals/gateway.py:51-59 | a payload is read back as it was made if and only if neither its kind nor its uid contains a colon |
| ApprovalButtons.HandleCallback | app/approvals/gateway.py:353-376 | a press has the effect of the decision in its payload, or none |
| ApprovalButtons.ButtonsAreInterchangeable | app/approvals/gateway.py:353-369 | exchanging the two approving buttons in every press of any run gives the same states, verdicts and executor runs |
| ApprovalButtons.OneButtonTwice | app/approvals/gateway.py:8-9 | pressing the first button twice is enough to run any pending red action that may be decided |
| ApprovalButtons.RejectButton | app/approvals/gateway.py:353-370 | in any state a press of reject runs nothing; by a caller who may decide it makes that row rejected, logs it and leaves all other rows as they are |
| ApprovalButtons.ApproveButtons | app/approvals/gateway.py:353-367 | a press of either of the other two buttons is an approval |
| ApprovalButtons.OtherPayloads | app/approvals/gateway.py:353-376 | a payload that is none of the three kinds with one uid leaves the state as it is |
| ApprovalThreads.StepKeepsInv | app/approvals/gateway.py:125-308 | every database step of any call, in any interleaving with others, keeps the invariant on counts, writes and runs |
| ApprovalThreads.EnoughApprovalsInEveryInterleaving | app/approvals/gateway.py:250-294 | whatever the interleaving, the stored count never exceeds the approvals written, no call writes two, and every executor run came after its 1 or 2 approvals |
| ApprovalSerial.SerialDecisionIsAtomic | app/approvals/gateway.py:272-308 | load, write, run, write without interruption have the effect of one atomic decision: the step model refines the atomic one |
| ApprovalSerial.SerialRequestIsAtomic | app/approvals/gateway.py:125-174 | insert, run, write without interruption have the effect of one atomic request |
| ApprovalSerial.SerialSweepIsAtomic | app/repositories.py:386-399 | the sweep's updates in any order, without interruption, have the effect of one atomic sweep |
| ApprovalSerial.AloneIsWalk | app/approvals/gateway.py:196-308 | the uninterrupted runs above are runs of the step model |
| ApprovalOverlap.AtMostOnceWithOneApprover | app/approvals/gateway.py:272-294 | in any interleaving in which no two calls are past the check of the same approval together, that action's executor succeeds at most once, whatever rejections, sweeps and calls on other rows overlap |
| ApprovalOverlap.TwoApproversRunTwice | app/approvals/gateway.py:196-294 | from every reachable world with two calls approving one registered action, at whatever steps, there is a way on to two successes: also when one read a first approval and reopens the row as confirming, or failed and reopens it for a retry |
| ApprovalOverlap.TwiceExactlyWhenTwoApprovers | app/approvals/gateway.py:196-294 | from any point of a run without two approvers so far, a registered executor can come to succeed twice if and only if two calls can come to approve it together |
| ApprovalOverlap.TwiceExactlyWhen | app/approvals/gateway.py:196-294 | from any such point it can come to succeed twice if and only if, in the present state, it has not succeeded yet and the row is open or being approved |
| ApprovalOverlap.OpenRowSucceeds | app/approvals/gateway.py:250-294 | from every open row, in any world, new approvals can bring its registered executor to succeed once more |
| ApprovalOverlap.ReturnedAreCounted | app/approvals/gateway.py:196-230 | in every interleaving there are at least as many successes as calls that have returned and not yet written so |
| ApprovalClosed.ClosedForeverExactlyWhen | app/approvals/gateway.py:196-308 | in any world a closed row stays as it is and its executor is not called again, over all futures, if and only if no call is about to write another status to it or to run its executor |
| ApprovalClosed.ClosedStaysClosedWithoutOverlap | app/approvals/gateway.py:250-308 | after any interleaving in which no two calls have been engaged with this row together, a closed row stays as it is over all futures, overlapping or not |
| ApprovalClosed.WalkKeepsSafe | app/approvals/gateway.py:196-308 | while no two calls are engaged with a row, an engaged call knows the row as it is, through any interleaving |
| ApprovalHistory.WalkIsTracked | app/approvals/gateway.py:125-308 | as long as no two calls are engaged with a row together, a run of atomic calls tracks it in every phase of the calls; its inputs are the calls of the interleaving that have had hold of the row, each once, with its own user and the clock of its first step |
| ApprovalHistory.RowHasAtomicHistory | app/approvals/gateway.py:125-308 | when no call is engaged with such a row any more, the row and the outcomes of its executor are those of a run of atomic calls, which are calls of the interleaving, each once, among them every call that ever had hold of the row, whatever happened on other rows |
| ApprovalHistory.CountsHoldWithoutOverlap | app/approvals/gateway.py:196-294 | so its count says how often its executor has run, as with atomic calls |
| ApprovalOverlap.OverlappingApprovalsRunTwice | app/approvals/gateway.py:272-294 | for every registered yellow action there is an interleaving of two approvals in which its executor succeeds twice |
| ApprovalOverlap.OverlappingFirstApprovalsCountOnce | app/approvals/gateway.py:272-286 | in any world two calls that have both read the same open row as not their last approval leave it with one approval counted |
| ApprovalOverlap.RejectedActionRuns | app/approvals/gateway.py:272-308 | for every registered yellow action there is an interleaving in which it is rejected first and executed afterwards |
| Chunking.Chunk | app/telegram/client.py:182-199 | the loop, watched for any number of turns, gives the chunks of the specification, or is still turning; Python's negative bounds included |
| ChunkingTurns.PieceEnds | app/telegram/client.py:187-191 | there is exactly one place where a piece ends by its line breaks: the last one after the start, or size further on, or the end of the text |
| ChunkingTurns.WhereATurnEnds | app/telegram/client.py:187-196 | for every text, size and start, the last piece included: the turn ends at that place if an even number of `**` comes before it; if not, at the last line break that is followed by more of the piece, unless that is the first character, and at the last character of the text if there is none |
| ChunkingTurns.StarsOfRuns | app/telegram/client.py:192 | the count takes half of each run of stars, rounded down |
| ChunkingTurns.ChunksOfSlices | app/telegram/client.py:197-199 | slices are trimmed and left out if blank, one by one and in order |
| ChunkingTurns.ShortTextIsOneChunk | app/telegram/client.py:183-184 | a text no longer than the size is one chunk as it is |
| Text.TrimCutsBlanks | app/telegram/client.py:197 | what is cut off a slice, at both ends, is whitespace only |
| Chunking.WhenATurnAdvances | app/telegram/client.py:187-196 | a turn moves forward if and only if its piece has an even count of `**`, or has a line break strictly inside, or is the first piece of a text that begins with a line break |
| Chunking.CoversExactlyWhenAdvancing | app/telegram/client.py:182-199 | the loop ends with slices that make up the text if and only if every turn moves forward |
| Chunking.AdvancingGivesChunks | app/telegram/client.py:182-199 | then it ends within as many turns as characters; chunks are non-empty, trimmed, at most size long and keep every visible character in order |
| Chunking.PlainTextGivesChunks | app/telegram/client.py:182-199 | all of this for every text without `**` and every size |
| Chunking.NeverEnds | app/telegram/client.py:186-198 | a turn that ends where it started is repeated for ever |
| ChunkingLoops.LoopEndsExactlyWhen | app/telegram/client.py:182-199 | the loop ends if and only if every turn moves forward, or the first that does not jumps to the last character and every turn from size - 1 on moves forward |
| ChunkingLoops.ProperExactlyWhen | app/telegram/client.py:182-199 | it ends with non-empty trimmed chunks within size that keep the visible text if and only if every turn moves forward, or it jumps once and the text from size - 1 to its last character is blank |
| ChunkingLoops.JumpingEnds | app/telegram/client.py:193-198 | after one jump the slices are the text without its last character, followed by the text from size - 1 on |
| ChunkingLoops.StuckAtALineBreak | app/telegram/client.py:193-196 | for every size from 3 on: a pair that opens right after the first line break and does not close within the piece stops the loop from ever ending, whatever follows |
| ChunkingLoops.JumpsForEver | app/telegram/client.py:193-196 | for every size from 3 on: a pair that opens just after the first piece and does not close in time makes the loop jump back for ever, with no turn that stands still |
| ChunkingLoops.JumpRepeatsText | app/telegram/client.py:193-196 | for every size from 2 on: a text that opens with a pair it never closes gives a first chunk of all but its last character, and chunks that repeat it from size - 1 on |
| ChunkingPairs.WhenASliceIsEven | app/telegram/client.py:190-196 | a turn moves forward by a slice with an even count of `**` if and only if its piece has an even count, or its last line break strictly inside cuts off a rest with an odd one |
| ChunkingPairs.PairsKeptExactlyWhen | app/telegram/client.py:182-199 | the loop ends with slices that make up the text and all have an even count if and only if that guard holds at every turn |
| ChunkingPairs.WholeLinesGiveWholePairs | app/telegram/client.py:58-59 | if every line is shorter than the size and has an even count, the loop ends with chunks that all have one and are all that chunks should be, for every such text and size |
| ChunkingPairs.MarkerIsCut | app/telegram/client.py:190-193 | for every size: a marker across the end of the first piece is itself cut in two, while the count stays even |
| ChunkingPairs.PairIsCutAtALineBreak | app/telegram/client.py:193-196 | for every size with room for it: a pair open at the last two line breaks of the piece is cut at the first of them |
| TtlCache.Cache.CachePut | app/integrations/google.py:62-66 | the dictionary after a store, as a sequence of distinct keys: the first key is dropped when 32 are held, a present key keeps its place |
| TtlCache.EntriesAreLastStored | app/integrations/google.py:62-78 | after any history of stores and clears there are at most 32 distinct keys and every entry is the last one stored for its key |
| TtlCache.HitIsLastStored | app/integrations/google.py:62-94 | every hit is the value most recently stored for its key since the last clear, less than its time to live ago |
| TtlCache.StaysExactlyWithinSlack | app/integrations/google.py:62-66 | an entry stays through every history of n stores of other keys if and only if n is at most its slack, the keys before it plus the room left |
| TtlCache.SlackAfterOwn | app/integrations/google.py:62-66 | storing a key again leaves its slack as it was, unless it has none or is absent: then it is 31 |
| TtlCache.ServedExactlyWithinSlack | app/integrations/google.py:62-66 | a value just stored, under a new key or an old one, is served through every n stores of other keys within its time to live if and only if n is at most that slack |
| TtlCache.StoredEntryIsServed | app/integrations/google.py:62-66 | until its time to live ends it is that value, afterwards nothing, within the slack |
| TtlCache.FreshEntryIsServed | app/integrations/google.py:62-66 | in particular through any 31 stores for a key that was absent |
| TtlCache.StoredAgainIsDroppedSoon | app/integrations/google.py:62-66 | in particular, a key stored again at place i > 0 of a full cache can be dropped by the next i + 1 stores |
| GoogleCaches.Google.CacheClear | app/integrations/google.py:74-78 | both caches are emptied |
| GoogleCaches.Google.GetAccessToken | app/integrations/google.py:81-123 | incomplete credentials fail, a live entry is served without a request, only an issued token is stored |
| GoogleCaches.Google.GetProjectGoogleData | app/integrations/google.py:520-612 | a live entry is served unless forced; a fetch is stored only if a source gave data |
| GoogleAnswers.TokenAnswers | app/integrations/google.py:81-123 | in any state: incomplete credentials are refused, a live token is answered whatever the endpoint would say and without a change, and otherwise the endpoint decides; an issued token is served until its time to live is over |
| GoogleAnswers.OverviewAnswers | app/integrations/google.py:520-612 | in any state: a live overview is answered without a change unless the call is forced; otherwise each source with a property is asked, and what they give is served until its time to live is over, unless it is nothing |
| GoogleCaches.CachesFollowEvents | app/integrations/google.py:62-123 | over any run of calls the caches are what the history of their stores and clears makes them |
| GoogleCaches.CachedOverviewIsFreshData | app/integrations/google.py:534-612 | in any run an overview served from the cache is the last one stored under its key, young enough, never a total failure, and never served to a forced call |
| GoogleThreads.HitsInEveryInterleaving | app/integrations/google.py:534-612 | however lookups, fetches and clears interleave: at most 32 keys, and a hit is the overview most recently stored under its key since the last clear, young enough and never a total failure |
| GoogleThreads.AloneIsAtomic | app/integrations/google.py:534-612 | a call whose fetch nothing interrupts has the effect of the atomic call, and fetches if and only if that is not served from the cache |
| GoogleThreads.FreshExactlyWhen | app/integrations/google.py:74-78 | after a clear, over all interleavings until the next, entries are fetched since that clear if and only if no fetch under way began before it |
| GoogleThreads.OldFetchIsServed | app/integrations/google.py:534-612 | for every key and overview with data: a fetch begun before a clear is stored after it and served |
| GoogleCaches.TokenIsIssued | app/integrations/google.py:81-123 | in any run a token is issued in this call or is the last one issued under its key, young enough and not cleared since |
| GoogleCaches.KeysTellPropertiesApart | app/integrations/google.py:534 | two pairs of properties share a cache key if and only if they are equal or one is the other with the bar shifted, which needs a bar in a Search Console property |
| GoogleCaches.KeysCollide | app/integrations/google.py:534 | such pairs, for any three texts |
| Cannibalization.GroupRows | app/integrations/google.py:397-411 | the loop builds, for each query, the sums over its rows and over the rows of each of its pages, with queries and pages in the order of their first rows |
| Cannibalization.GscCannibalization | app/integrations/google.py:397-425 | the loops give the ranked and cut report of what competes, ties in the order of first rows |
| Cannibalization.ReportIsTop | app/integrations/google.py:413-425 | a query is reported only if it has two or more distinct pages and enough impressions, with its sums, in descending order; one that competes is left out only if limit others with at least as many impressions are reported |
| CannibalizationReport.ReportOnRows | app/integrations/google.py:413-425 | told on the rows: a reported query has two rows with different pages and the sums of its rows, at least the minimum; a query with two such rows and that sum is reported, or limit others with at least as many impressions are; none twice, in descending order |
| CannibalizationReport.TiesInOrder | app/integrations/google.py:413-425 | queries with equally many impressions come in the order of their first rows |
| CannibalizationReport.PagesOnReport | app/integrations/google.py:416-421 | told on the rows: the pages of a finding with the sums of their rows, all of them or four that no other exceeds, in descending order and equal ones in the order of their first rows |
| Cannibalization.FindingHasTopPages | app/integrations/google.py:416-421 | it lists its pages with their sums in descending order: all, or the four that no other page exceeds |
| Ranking.RankedIsStable | app/integrations/google.py:416-424 | sorting by the negated number keeps the items, puts the highest first and leaves equal ones in their old order |
| Ranking.RankedKeepsOrder | app/integrations/google.py:416-424 | of two items that rank alike the first was first before, place by place |
| Cannibalization.PagesAddUp | app/integrations/google.py:397-411 | the totals of a query, the sum over its rows with two keys, and the sum over its pages are equal |
| Cannibalization.GroupsAreOrderFree | app/integrations/google.py:397-411 | the groups do not depend on the order of the rows |
| CredentialStore.IntegrationStore.UpsertRow | app/integrations/store.py:88-134 | the table after a save: the row of its service and project is updated, or one is added, and it is the row returned |
| CredentialStore.IntegrationStore.DeleteRow | app/integrations/store.py:144-149 | the table loses the row with the id; the result says whether there was one |
| CredentialStore.IntegrationStore.Credentials | app/integrations/store.py:78-85 | the project's row, or else the shared one, or else nothing |
| CredentialStore.FindAfter | app/integrations/store.py:30-39 | an operation changes what is found for its own service and project only, None being a project like any other |
| CredentialStore.FieldsAreLastWritten | app/integrations/store.py:88-149 | in any run of saves, status changes and deletes each stored field is the value last written since its row was created |
| CredentialStore.AgentsReadLastWritten | app/integrations/store.py:78-85 | in any run an agent reads the shared row exactly when the project has none, each field as last written |
| CredentialStore.OneRowEachAndNoSecrets | app/integrations/store.py:88-149 | in any run there is one row for each service and project, and its public part holds exactly the fields that are not secret, with their values |
| CredentialStore.StatusIsLastWritten | app/integrations/store.py:88-142 | in any run a row has the status last written, a save setting it back to pending, and keeps its id |
| CredentialStore.KeptExactlyWhenLeftOut | app/integrations/store.py:97-106 | a merging save keeps a stored value if and only if the field is left out or has that value; a blank one replaces it |
| CredentialStore.Validate | app/integrations/catalog.py:245-263 | what is entered properly, trimmed and never blank, and the keys of exactly the fields that are required and blank or are bad links, in the order of the form |
| CredentialStore.BadByCharacters | app/integrations/catalog.py:252-262 | a field is in error if it is blank and required, or is a link that begins with neither `http://` nor `https://`; it is entered if it is neither blank nor in error |
| CredentialStore.ErrorsOfAForm | app/integrations/catalog.py:251-263 | the errors of two forms joined are those of the first, then those of the second |
| LlmRetry.Provider.PostWithBackoff | app/llm/openai_compatible.py:111-141 | the posts, the seconds slept and the result or error of one ladder, for every sequence of replies |
| LlmRetry.Provider.PostChat | app/llm/openai_compatible.py:143-165 | the same for the primary and, if it fails and one is configured, the fallback |
| LlmRetry.Provider.StructuredOutput | app/llm/openai_compatible.py:219-265 | the same for two attempts in JSON mode and one without it, and which of the four endings it has |
| LlmRetry.LadderShape | app/llm/openai_compatible.py:111-141 | a ladder is 1 to 4 posts to one endpoint; it goes on exactly while replies are transient |
| LlmReplies.LadderStops | app/llm/openai_compatible.py:86-139 | on statuses and bodies: a ladder goes on until its fourth post or the first reply that is below 400 in a stream, or has a status other than 403, 404 and 429 and no challenge page |
| LlmReplies.SecondsSlept | app/llm/openai_compatible.py:118-123 | 0, 3, 11 and 26 seconds before the first to the fourth post |
| LlmReplies.StatusIsLast | app/llm/openai_compatible.py:132-141 | the status an error carries is that of the last post that was answered |
| LlmReplies.ChatResult | app/llm/openai_compatible.py:143-165 | a chat gives the good reply of its first ladder to end well, or the errors of the ladders it had |
| LlmReplies.ChatEnds | app/llm/openai_compatible.py:167-179 | an error of the ladders is the chat's error; a body that is no message raises something else; otherwise it is a message, with JSON or without |
| LlmReplies.FallbackIsConfigured | app/llm/openai_compatible.py:147 | either setting, the base or the model, is enough for a fallback |
| LlmRetry.ChatShape | app/llm/openai_compatible.py:143-165 | up to 4 primary posts then up to 4 fallback posts; the fallback is reached if and only if it is configured and the primary gave up; nothing follows the first acceptable reply, which is the result; at most 52 seconds of sleep |
| LlmRetry.StructuredOutputIsBounded | app/llm/openai_compatible.py:219-265 | at most 3 chats, 24 posts and 26 seconds of sleep a ladder; only an acceptable reply without JSON is followed by another post; an object is returned if and only if the last reply holds it |
| LlmReplies.ChatsOfAnAnswer | app/llm/openai_compatible.py:219-265 | which chats follow which outcomes, and the answer, for all outcomes of three chats |

## Left out

- Jalali.JalaliToGregorian: `int(a / b)` goes through a float in the source; the model truncates exactly, which is the same while operands stay below 2^53.
- Risk.Classify: `str.lower` is modelled on ASCII letters only; the yellow hints are not looked up, since every action type that reaches them is yellow with or without them; `force_risk` is None, as it is for all callers.
- SqlTheorems.ExecuteScript: `str.lower` is modelled on ASCII letters only; the request itself is not part of this model.
- Approvals.Gateway.RequestAction: the uid is a parameter, and a taken one is refused, as the UNIQUE column does; titles, payloads, cards and messages are not modelled, nor is writing the message id.
- Approvals.Gateway.LoadOpen: the user found for a Telegram id is a parameter; a row without a requester may be decided by anyone, as in the source.
- Approvals.Gateway.Execute: an executor is an oracle that succeeds or fails; what it does, and any call it makes to the gateway, is not modelled.
- ApprovalThreads.EnoughApprovalsInEveryInterleaving: events are not separate steps of the interleaving; one SQL statement is one step, and reading a row to show it to the user is not a step.
- ApprovalHistory.RowHasAtomicHistory: one row at a time; one order of atomic calls for all rows together is not constructed.
- CredentialStore.Validate: an unknown service, which has no fields and one error; the texts of the errors.
- DueDates.DueAt: the time zone in which the due moment becomes a time stamp is not modelled.
- Chunking.PlainTextGivesChunks: a text no longer than size is sent as it is, neither trimmed nor dropped when empty.
- TtlCache.Cache.CachePut: the lock is not modelled; each lookup, store or clear is one step.
- GoogleCaches.TokenIsIssued: a request for a token is one step; only overviews are modelled with fetches that interleave.
- ApprovalButtons.HandleCallback: the toasts, the rewritten card and the button for details, which changes nothing, are left out.
- ChunkingPairs.WholeLinesGiveWholePairs: a condition on lines that is sufficient; the exact one, turn by turn, is `PairsKeptExactlyWhen`.
- GoogleCaches.Google.GetAccessToken: the digest in the token key is a parameter, and what the requests return are parameters; the list of errors shown to the user is left out.
- Cannibalization.GscCannibalization: `best_position` depends on the order of rows through its rounding and is left out, as is the suggestion text.
- CredentialStore.IntegrationStore.UpsertRow: credentials are stored in the clear, on the assumption that decrypting undoes encrypting under a fixed key; labels, authors and times are left out.
- LlmRetry.Provider.PostWithBackoff: whether a body looks like a challenge page, and whether it holds JSON, are part of each reply; `stream` is modelled as far as its posts, not its chunks.
- Persian digits and date texts of `app/utils/jalali.py`, `month_range` and the like: formatting.
- The Turso cursor, its retries and row mapping: HTTP and JSON.
- Stripping `<think>` and code fences in the language model's answers: text clean-up.
- Content, CRM and SEO agents, the Mini App, the scheduler, dashboards and score arithmetic: thin wrappers or one-branch facts.
