# Verified model of the fund's backend

The backend runs a savings-and-loans fund: members request and refinance loans, a treasurer approves
them and uploads a monthly file, reminders and account closings are rows of a scheduler's table, and a
few HTTP details reproduce an older Django service byte for byte. This project models the parts where
that is hard and proves what they promise. `dafny verify dfyconfig.toml` checks all of it.

**Loans.** `LoanRules` holds the tables, the transition table and one transition run alone.
`LoanProtocol` is the interleaved machine: any number of transitions, monthly uploads, requests and
refinances, one SQL statement a step, under READ COMMITTED with row locks. A session keeps the row
versions it has written; a compare-and-set waits for the row and is decided on what is committed then.
The invariant is that from the compare-and-set to the commit, everything a session has written equals
what the transition would compute from the tables as they are now. `LoanRuns` and `LoanRaces` draw the
consequences over whole runs: one detail a loan, transitions and requests serialisable in commit order,
states that only rise, who loses a race and what it is told, and no cycle of waits for loan rows. An
upload and a refinance are not serialisable: `LoanUpload` and `LoanRefinance` say exactly when each is,
with runs in which it is not. `LoanWaits` counts waits for detail rows too. `LoanPayoffs` says what each
commit does row by row, and that a replaced loan is paid off. `LoanService` is the service itself as a
class over its tables, for one caller at a time, with the monthly file and its reminders; `LoanFigures`
is what an approval stores and a refinance takes over, in figures.

**Amortisation.** `Decimal28` is rounding to 28 significant digits, half to even, over exact reals.
`Amortization` is the table's loop, bounds on its accumulated error, and its interest;
`AmortizationTotals` is what a whole schedule pays, in closed form.

**Scheduler.** `SchedulerTasks` is the row table and its dates. `SchedulerProtocol` and `SchedulerRuns`
are any number of runners over it, with everything that can fail failing. `SchedulerRunner` is one pass
as a class, with its summary; `PassRows` is what a pass makes of each row, counter and account; `CatchUp`
is what failure-free passes achieve; `SavingAccounts` is the account service whose closings ride on the
scheduler.

**HTTP.** `DjangoHeader`, `Multipart` and `MultipartRoundTrip` are the header and multipart parsers
(fields as in section 4.2 of RFC 7578, delimiters as in section 5.1.1 of RFC 2046) and the printers they
invert. `ResponseHooks` and `VaryHeader` are the response phase.

**The rest.** `PythonLower` is a lowercasing function rebuilt from behaviour (Final_Sigma as in section
3.13 of The Unicode Standard); `QuickRatio`, `Csrf` and `Birthday` are three smaller algorithms.
`Calendar`, `Bytes` and `Options` are shared.

Where the code departs from the simple reading of its own table and comments, the model follows the
code. A loan can also move from DENIED to PAID_OUT, by the payoff of a refinanced loan, which does not
consult the transition table. And a loser of a compare-and-set is answered as sequential execution would
answer it with one exception, stated exactly in `LoanRaces.LostRaceHasAWinner` and shown reachable in
`LoanRaces.ApprovalBeatsDenial`. An upload can leave a loan approved that its file omits, and a
refinance can replace a loan already paid out, if another session commits in between.

## Model

| member | source | states |
|---|---|---|
| LoanRules.FirstDetail | src/loans/loan.service.ts:1142-1146 | the least-numbered detail of a loan, or none exactly when it has none |
| LoanRules.TransitionEvolves | src/loans/loan.service.ts:1203-1214 | a transition by the table, payoff of the replaced loan included, moves no state backwards, touches no fixed column, and keeps every refinance pointing at an older loan of the same owner that has left the waiting state |
| LoanRules.TransitionKeepsDbOk | src/loans/loan.service.ts:609-714 | a transition run alone keeps at most one detail a loan and one for each approved loan |
| LoanRules.TransitionOnRows | src/loans/loan.service.ts:654-705 | row by row: the loan takes the state asked for; an approval makes the replaced loan PAID_OUT, a denial unlinks it and leaves its state; no other loan changes, and no detail but an approved loan's one |
| LoanRules.FiguresOfDetail | src/loans/loan.service.ts:1013-1047 | after a file each detail has the figures of the last line that names its loan, and keeps its own when none does |
| LoanRules.NamesExactly | src/loans/loan.service.ts:915-918 | a line is of the loan whose id it holds, and of none if the id is outside Int32 |
| LoanRules.InsertKeepsDbOk | src/loans/loan.service.ts:287-306 | a new request, or a refinance of an older loan of its owner, keeps the tables sound |
| LoanRules.ChainsDescend | src/loans/loan.service.ts:299 | refinance chains are finite and acyclic, stay with one owner, descend by id and in listing order, and only the newest loan can be waiting |
| LoanProtocol.SessionStable | src/loans/loan.service.ts:623-654 | what a session knows and holds survives every change of the committed tables that respects its row locks: why one compare-and-set protects everything after it |
| LoanProtocol.ReadyIsTransition | src/loans/loan.service.ts:609-714 | the rows a session is about to commit are the transition computed from the tables as they are now, and it is legal now |
| LoanProtocol.UpdateMoves | src/loans/loan.service.ts:610-714 | every statement of a transition (read and guard, compare-and-set, payoff, detail lookup, detail write, rollback) keeps the invariant under any interleaving |
| LoanProtocol.BulkMoves | src/loans/loan.service.ts:891-996 | so does every statement of a monthly upload |
| LoanProtocol.CommitMoves | src/loans/loan.service.ts:583-607 | so does every commit, for the committing session and for everyone else |
| LoanProtocol.RefinanceMoves | src/loans/loan.service.ts:777-819 | so do the untransacted statements of a refinance: read, projection, insert, link |
| LoanProtocol.StepKeepsInv | src/loans/loan.service.ts:583-996 | so does every step of every session |
| LoanRuns.OneDetailPerLoan | src/loans/loan.service.ts:1116-1152 | over every run of any number of sessions: at most one detail a loan, and one for each approved loan, though find-then-create is unprotected and no unique index is assumed |
| LoanRuns.ReachableChainsDescend | src/loans/loan.service.ts:287-306 | over every run refinance chains stay finite, acyclic, single-owner and descending |
| LoanRuns.StepIsSequential | src/loans/loan.service.ts:583-714 | transitions and requests are serialisable in commit order: each of their steps leaves the committed tables alone or applies the whole of the operation, legal at that moment |
| LoanRuns.StepHasEffect | src/loans/loan.service.ts:583-996 | a step of an upload or a refinance changes no more than its operation could: some approved unlisted loans are closed and listed details get their last line's figures, or one waiting child is inserted, or the parent is linked |
| LoanRuns.StepMovesLoan | src/loans/loan.service.ts:674-680 | a loan's state changes only at a commit, and only by the table, by an upload closing an approved loan, or by the payoff to PAID_OUT when the waiting loan that refinances it is approved, from APPROVED or DENIED and never from waiting; that the payoff does happen is `LoanPayoffs.CommitOnRows` |
| LoanRuns.LoanOnlyMovesForward | src/loans/loan.service.ts:1203-1214 | over every run a loan is never lost, its state number never decreases, and it changes at most three times |
| LoanRuns.PaidOutIsAbsorbing | src/loans/loan.service.ts:1192-1206 | PAID_OUT is final over every run |
| LoanRuns.EveryChangeIsAccountedFor | src/loans/loan.service.ts:609-714 | each change of state along a run is one of those moves, made by one commit |
| LoanPayoffs.CommitOnRows | src/loans/loan.service.ts:654-705 | over every run, what the commit of a transition does to each loan as it is at that moment: an approval leaves the replaced loan PAID_OUT, a denial leaves its state and unlinks it, and nothing else of another loan changes |
| LoanPayoffs.ReplacedLoansArePaidOff | src/loans/loan.service.ts:667-681 | over every run from settled tables, empty ones included, a loan approved or paid out has paid off the loan it replaced: the two are never live together |
| LoanPayoffs.UnsettledBreaks | src/loans/loan.service.ts:667-681 | settled tables are exactly those from which that holds: from any others a run of at most one approval breaks it, by paying out a denied loan that never paid off its own predecessor |
| LoanRaces.LostRaceHasAWinner | src/loans/loan.service.ts:620-657 | a lost compare-and-set happens only if another session's commit moved the loan after the loser read it; its 409 is the answer the request would get now, except exactly when the loan was read waiting, is approved now and the request is a denial |
| LoanRaces.ApprovalBeatsDenial | src/loans/loan.service.ts:636-652 | the exception is reachable from every table with a waiting loan: an overlapping approval and denial give a 409 where the table allows the denial |
| LoanRaces.UpdateRunsAlone | src/loans/loan.service.ts:583-714 | with nobody else in a transaction the steps exist and give the answer and the tables of the transition run alone |
| LoanRaces.HeldRowsAreAbove | src/loans/loan.service.ts:654-705 | whatever a session holds is listed above the row it waits for: child before parent, and the upload from the top of its queue |
| LoanRaces.LocksWhatItWants | src/loans/loan.service.ts:654-705 | no lock is left out of the waits: a loan row newly held or linked by a step is the row the session wanted, and nobody else held it |
| LoanRaces.NoWaitCycle | src/loans/loan.service.ts:654-705 | over every run, loan-row waits among transitions, uploads and refinances never form a cycle |
| LoanRaces.UpdatesNeverWaitForDetails | src/loans/loan.service.ts:1142-1151 | transitions never wait for one another over a detail row, whatever details there were at first |
| LoanUpload.StaysCovered | src/loans/loan.service.ts:938-983 | between listing and commit each listed-for-closing loan is closed, still to come, or no longer approved |
| LoanUpload.UploadClosesWhatIsStillApproved | src/loans/loan.service.ts:938-986 | an upload among other sessions closes exactly the loans that were approved and unlisted when it listed them and still are at its commit; afterwards none of them is approved |
| LoanUpload.UploadIsSequentialExactly | src/loans/loan.service.ts:891-986 | an upload's commit is the upload run alone at that moment if and only if every loan approved and unlisted by then was in the queue it listed, and every detail whose line found nothing to update carries the file's figures anyway |
| LoanUpload.LastLineDecides | src/loans/loan.service.ts:1013-1047 | which details an upload writes is decided when a loan's last line is applied: exactly those that existed then |
| LoanUpload.UploadMissesApproval | src/loans/loan.service.ts:938-986 | the first half can fail: a loan approved between the listing and the commit survives the upload that, run alone at its commit, would close it |
| LoanUpload.UploadMissesFigures | src/loans/loan.service.ts:1025-1047 | so can the second: a detail created after its line was applied keeps the approval's figures |
| LoanRefinance.ChildIsSequentialExactly | src/loans/loan.service.ts:777-819 | a refinance's child is inserted where the guard would pass now if and only if its parent is still approved, and is the child of the refinance run alone now if and only if, besides, the balance taken over is still what was projected |
| LoanRefinance.PaidOutLoanIsRefinanced | src/loans/loan.service.ts:777-819 | both can fail: a loan paid out after the guard is refinanced all the same |
| LoanRefinance.ChildTakesOver | src/loans/loan.service.ts:777-816 | over every run, the child a refinance inserts takes over what the parent's detail held when it was projected: the capital balance alone without interest, and with it the balance and the accrued interest to half a unit; its other terms, owner and parent are those asked for, and it waits |
| LoanRefinance.LinkNamesTheChild | src/loans/loan.service.ts:813-817 | and the link written last names a loan whose parent it is, and changes nothing else |
| LoanWaits.LocksTheDetailItWants | src/loans/loan.service.ts:1025-1047 | the same of detail rows that existed before the step |
| LoanWaits.NoWaitCycleWithOneUpload | src/loans/loan.service.ts:891-996 | over every run whose first details are all of loans that left the waiting state, waits for loan and detail rows together form no cycle while at most one upload runs |
| LoanWaits.UploadsCanDeadlock | src/loans/loan.service.ts:895-936 | two uploads whose files list two loans in opposite orders can come to wait for each other |
| LoanService.LoanService.CreateLoan | src/loans/loan.service.ts:200-306 | the four refusals in the source's order, decided on the raw value and the truncated one; an accepted request is one new waiting loan, priced by its term, that an approval can always amortise |
| LoanService.LoanService.RefinanceLoan | src/loans/loan.service.ts:777-819 | refused exactly, in this order, for a loan that is not the actor's or not approved, an actor without a quota row, a balance below 1, or a term outside 1 to 36; otherwise the child's value is the capital balance of the loan's detail, and with interest exceeds it by the accrued interest to half a unit; the parent is linked to it |
| LoanService.LoanService.UpsertLoanDetail | src/loans/loan.service.ts:1116-1152 | the first detail of the loan is rewritten, or one is added |
| LoanService.LoanService.PriceApproval | src/loans/loan.service.ts:667-681 | the stored figures are those of the amortisation table's summary |
| LoanService.LoanService.UpdateLoanIn | src/loans/loan.service.ts:610-714 | the statements of a transition, row by row: the loan takes the state asked for, an approval makes the replaced loan PAID_OUT, a denial unlinks it, only a payout clears that loan's reminders, and nothing else changes |
| LoanService.LoanService.UpdateLoan | src/loans/loan.service.ts:583-607 | all of it, or nothing: not found, refused outside 0 to 1 or 2 and 1 to 3 or 2, or done with the replaced loan paid out or unlinked |
| LoanService.AllOfTransition | src/loans/loan.service.ts:654-705 | the separate row writes, taken together, are the transition and keep the tables sound |
| LoanService.LoanService.FindFirstDetail | src/loans/loan.service.ts:1142-1146 | the search finds the least-numbered detail of the loan |
| LoanService.LoanService.GetApprovedLoans | src/loans/loan.service.ts:349-374 | every approved loan, once, by descending creation time and then id |
| LoanService.LoanService.CreateScheduledTask | src/loans/loan.service.ts:1080-1104 | a reminder is pending five days and one day before the payment date; nothing is removed, and whatever was added is a pending one-shot reminder of this loan on one of those days, the only one there |
| LoanService.LoanService.UpdateLoanDetail | src/loans/loan.service.ts:1013-1047 | an update and never an insert; a loan without a detail, or an id no row has, is a miss that changes nothing |
| LoanService.LoanService.ApplyLines | src/loans/loan.service.ts:895-936 | the loop over the lines leaves each detail with its last line's figures and reminders pending for every line, and stops at the first malformed line |
| LoanService.OneMoreLine | src/loans/loan.service.ts:1025-1045 | rewriting the first detail found is rewriting the loan's only one, so later lines override earlier ones |
| LoanService.LoanService.CloseUnlisted | src/loans/loan.service.ts:938-983 | closes exactly the approved loans the file omits, in listing order, and clears exactly their reminders |
| LoanService.LoanService.BulkUpdateLoans | src/loans/loan.service.ts:891-996 | a malformed line changes nothing; otherwise the closed list, the loans and the figures are exactly what the file calls for, both reminders of every updated line are pending, the closed loans have none, and each new row is a reminder of a line that was updated, on one of its two days, one a loan and day |
| LoanService.ApprovedAfterUpload | src/loans/loan.service.ts:938-986 | after a committed upload the approved loans are exactly those approved before that the file lists, and the closed ones are the rest |
| LoanService.RemindersSurvive | src/loans/loan.service.ts:708-711 | clearing the closed loans' reminders leaves both reminders of every listed loan, and what was added is still only what the file calls for |
| LoanFigures.ApprovalColumns | src/loans/loan.service.ts:667-681 | an approval stores the loan's value and disbursement date as balance and its date, and as payment date the day a month later, or a whole term later, clamped |
| LoanFigures.FirstInstalmentStored | src/loans/loan.service.ts:667-681 | the stored interests and minimum payment are the interest of the first instalment, and that and one share of the value, to half a unit |
| LoanFigures.MonthlyTotalStored | src/loans/amortization.ts:155-202 | the stored total of n monthly instalments is the value and the monthly rate on it (n + 1) / 2 times, to half a unit |
| LoanFigures.SingleTotalStored | src/loans/amortization.ts:155-202 | and of a single payment, the value and the rate for each month of the term |
| LoanFigures.MillionInSixMonths | src/loans/amortization.ts:122-206 | one loan in figures: every stored column |
| LoanFigures.RefinanceValueIs | src/loans/loan.service.ts:787-793 | without interest a refinance takes over exactly the capital balance of the detail; with it, that and what a thirtieth of the monthly rate makes of the 30/360 days since, to half a unit |
| LoanFigures.MonthsLaterAdds | src/loans/loan.service.ts:787-793 | k months later it adds k times the monthly rate of the balance to half a unit, and at least one as soon as that is one |
| LoanFigures.MillionRefinanced | src/loans/loan.service.ts:787-793 | one refinance in figures, with and without interest |
| Decimal28.RoundIsNearest | src/common/utils/decimal.ts:18-25 | rounding gives the nearest 28-digit decimal: no other is closer |
| Decimal28.RoundError | src/common/utils/decimal.ts:18-25 | an amount below a power of ten moves by at most half a unit of its 28th digit |
| Decimal28.RoundFixesExactlyDecimals | src/common/utils/decimal.ts:18-25 | rounding leaves a value alone exactly when it is a 28-digit decimal |
| Decimal28.RoundHalfEvenExactly | src/common/utils/decimal.ts:18-25 | the whole number nearest to a value, and of two equally near the even one |
| Decimal28.RoundsItsCoefficient | src/common/utils/decimal.ts:18-25 | rounding to 28 digits is that rounding of the coefficient scaled to 28 digits, ties included |
| Calendar.Days360Facts | src/common/utils/date.util.ts:166-205 | the 30/360 count is symmetric and never negative, and zero only for equal dates and the 30th and 31st of a month |
| Calendar.Days360NextDay | src/common/utils/date.util.ts:166-205 | how the count moves inside a month: one day more is one more, but for the 31st counted from a 30th or a month's end |
| Calendar.Days360NextMonth | src/common/utils/date.util.ts:166-205 | and from month to month: up to the 28th one month more is thirty more |
| Calendar.Days360ToTheFirst | src/common/utils/date.util.ts:166-205 | and to the first of the next month: what is left of thirty days, and one from a month's end |
| Calendar.Days360WholeMonths | src/common/utils/date.util.ts:166-205 | so from a day every month has, k months are 30 k days |
| Amortization.GenerateAmortizationTable | src/loans/amortization.ts:122-206 | refused exactly for a non-positive instalment count; otherwise row i, and a summary read off the first row and the total; what those amount to is said by `InterestIsClose`, `FirstInstalment` and `MonthlyTotal` |
| Amortization.BalanceError | src/loans/amortization.ts:165-187 | after i rounded subtractions the balance is within i units of the 28th digit of what exact shares leave |
| Amortization.TableRepaysTheLoan | src/loans/amortization.ts:122-190 | every row opens above zero and accrues non-negative interest, and the last balance is within n units of the 28th digit of zero |
| Amortization.TotalIsValuePlusInterest | src/loans/amortization.ts:173-202 | the total paid is the loan's value plus the interest column, up to the accumulated roundings |
| Amortization.DatesChain | src/loans/amortization.ts:155-188 | each row starts where the last ended; due dates strictly advance and are anchored to the disbursement day, clamped month by month |
| Amortization.RatesRise | src/loans/amortization.ts:239-250 | the rate table at its breakpoints, and that it never falls with the term up to 36 and starts over beyond |
| Amortization.InterestIsClose | src/loans/amortization.ts:72-80 | whatever the signs, the interest is a thirtieth of rate times balance for each 30/360 day, within three parts in 10^27 |
| AmortizationTotals.WholeMonthsInterest | src/loans/amortization.ts:72-80 | from a day every month has, the interest of k months is k times rate times balance, within three parts in 10^27 |
| AmortizationTotals.DueDatesExactly | src/loans/amortization.ts:155-170 | instalment i is due i months after the disbursement, or the whole term after it for a single payment, clamped to the month |
| AmortizationTotals.FirstInstalment | src/loans/amortization.ts:155-202 | the interest and the payment of the first row, from value, rate and months alone |
| AmortizationTotals.EveryRow | src/loans/amortization.ts:155-188 | every row, column by column: it opens where the last closed, pays one share of the value and the monthly rate of what is owed, and closes one share lower, up to the roundings |
| AmortizationTotals.MonthlyTotal | src/loans/amortization.ts:173-202 | the closed form of the total of n monthly instalments, within 3 (n + 2)^2 parts in 10^27 |
| AmortizationTotals.SingleTotal | src/loans/amortization.ts:173-202 | and of a single payment |
| Calendar.OrdinalOrders | src/common/utils/date.util.ts:147-150 | the field-by-field comparison of dates is the order of their day numbers |
| Calendar.AddDaysOrdinal | src/common/utils/relativedelta.util.ts:82-93 | a day shift, either way, moves the day number by exactly that many days |
| Calendar.AddMonthsMonotone | src/common/utils/relativedelta.util.ts:71-84 | more months from one date give a strictly later date, whatever the clamping does |
| Calendar.AddMonthsExactly | src/common/utils/relativedelta.util.ts:71-84 | k months on is that month, on the same day or, if the month is too short, on its last |
| Calendar.GregorianCycle | src/users/birthday-run-date.ts:89-91 | leap years by the Gregorian rule: 146097 days in 400 years |
| SchedulerTasks.NextRepeatIsLater | src/common/utils/relativedelta.util.ts:174-180 | the next occurrence is on a strictly later local day; daily and weekly exactly one and seven days on |
| SchedulerTasks.NextRepeatExactly | src/common/utils/relativedelta.util.ts:174-180 | the next occurrence keeps its time of day and is one day, seven days, one month or twelve months on, months clamped |
| SchedulerTasks.LocalDayExactly | src/scheduler/scheduler-task.repository.ts:362-381 | the local day of an instant begins five hours into its UTC day |
| SchedulerTasks.TaskTable.FindDueUnprocessed | src/scheduler/scheduler-task.repository.ts:362-381 | exactly the unprocessed rows whose local day is today or before, each once |
| SchedulerTasks.TaskTable.Claim | src/scheduler/scheduler-task.repository.ts:400-406 | won exactly on an existing unprocessed row, which it marks |
| SchedulerTasks.TaskTable.Release | src/scheduler/scheduler-task.repository.ts:415-420 | the row, if it still exists, is unprocessed again |
| SchedulerTasks.TaskTable.DeleteByOwnerAndType | src/scheduler/scheduler-task.repository.ts:310-325 | removes exactly the owner's notices of that topic, processed or not |
| SchedulerTasks.TaskTable.CreateCloseSavingAccountTask | src/scheduler/scheduler-task.repository.ts:280-296 | one unprocessed, never repeating close row |
| SchedulerTasks.TaskTable.CreateRepeatInstance | src/scheduler/scheduler-task.repository.ts:446-462 | the source row with a new date, unprocessed, in a fresh row |
| SchedulerTasks.TaskTable.ScheduleNotification | src/notifications/notification.service.ts:141-159 | afterwards one is pending for the owner, topic and local day; a row is added only if none was |
| SchedulerTasks.SchedulingIsIdempotent | src/notifications/notification.service.ts:141-159 | scheduling through the dedupe twice is scheduling once, and gives no owner two pending notices of a topic on a day |
| SchedulerTasks.PuttingKeepsExactly | src/scheduler/scheduler-task.repository.ts:415-462 | a notice written past the dedupe keeps one pending notice a topic, owner and day if and only if none was pending on its day |
| SchedulerTasks.CloneKeepsExactly | src/scheduler/scheduler-task.repository.ts:440-462 | for a repeat clone: if and only if none was pending on its new day |
| SchedulerTasks.CloneCanDuplicate | src/scheduler/scheduler-task.repository.ts:440-462 | and it can fail: the clone of a daily notice lands on one scheduled for the next day |
| SchedulerTasks.ReleaseKeepsExactly | src/scheduler/scheduler-task.repository.ts:415-420 | for a release: if and only if none was pending on the row's day |
| SchedulerTasks.ReleaseCanDuplicate | src/scheduler/scheduler-task.repository.ts:415-420 | and it can fail: a notice scheduled again while it was claimed is pending twice once released |
| SchedulerProtocol.OwnershipKept | src/scheduler/scheduler.runner.ts:204-269 | every step of every runner, and every outside insert, delete and release by hand, keeps each processed row in exactly one of three hands |
| SchedulerProtocol.HistoryKept | src/scheduler/scheduler-task.repository.ts:400-462 | and keeps each row's executer from returning twice |
| SchedulerProtocol.LineageKept | src/scheduler/scheduler.runner.ts:313-332 | and keeps each clone the only one of a completed parent |
| SchedulerProtocol.ClosedKept | src/saving-accounts/saving-account.service.ts:349-373 | and keeps the account of every completed close row closed |
| SchedulerRuns.ProcessedMeansOwned | src/scheduler/scheduler.runner.ts:204-269 | over every run of any number of runners, with executer throws, failed releases, lost statements, crashes and deletions: a row is processed exactly when one runner holds it, it is done, or it is stranded, and never two of these |
| SchedulerRuns.AtMostOnce | src/scheduler/scheduler-task.repository.ts:400-462 | each row completes at most once and gets at most one clone, and only after completing |
| SchedulerRuns.ChainNeverForks | src/scheduler/scheduler.runner.ts:313-332 | a repeat chain has at most one n-th repetition of a row |
| SchedulerRuns.ChainMovesForward | src/common/utils/relativedelta.util.ts:174-180 | the n-th repetition is the same row due at least n local days later, and everything before it has completed: a chain has at most one live row |
| SchedulerRuns.StrandedUntilReleased | src/scheduler/scheduler.runner.ts:218-246 | a claim lost to a failed release or a crash is never retried until released by hand |
| SchedulerRuns.FinishedCloseTaskClosed | src/saving-accounts/saving-account.service.ts:349-373 | in every run without a manual edit, a close row that finished has closed its account |
| SchedulerRuns.LoadTakesTheDay | src/scheduler/scheduler-task.repository.ts:362-381 | a pass loads exactly the rows not processed and dated today or before, each once, as they are |
| SchedulerRuns.RowCompletes | src/scheduler/scheduler.runner.ts:204-269 | a row claimed, run and cloned by one runner: it is done, its account closed, and a repeating one has a fresh copy at the next occurrence; nothing else changes |
| SchedulerRuns.RowCanComplete | src/scheduler/scheduler.runner.ts:204-269 | and those steps are there whenever its type is known and its executer can run |
| SchedulerRuns.ThrownRowIsFreed | src/scheduler/scheduler.runner.ts:218-246 | a row claimed, thrown and released is as it was |
| SchedulerRuns.LostRowIsStranded | src/scheduler/scheduler.runner.ts:218-246 | one thrown and not released, or crashed on, stays processed and stranded until released by hand |
| SchedulerRuns.OtherRowsArePassedOver | src/scheduler/scheduler.runner.ts:204-216 | a row already processed is passed over, and one of an unknown type never claimed |
| SchedulerRunner.Runner.RunTask | src/scheduler/scheduler.runner.ts:204-262 | one row: an unknown type is not consumed, a lost claim is skipped, a throw releases, a return clones |
| SchedulerRunner.Runner.CreateRepeatInstance | src/scheduler/scheduler.runner.ts:313-332 | NONE clones nothing, a repeat outside the table throws and clones nothing |
| SchedulerRunner.Runner.Execute | src/saving-accounts/saving-account.service.ts:349-373 | the close executer closes the account it names and throws exactly when there is none |
| SchedulerRunner.Runner.Run | src/scheduler/scheduler.runner.ts:189-272 | a pass works through its snapshot and only that: rows processed before or dated after today are unchanged, and with nothing failing every row dated today or before that can run is processed; fates, counters, clones and accounts are said row by row in `PassRows` |
| SchedulerRunner.ProgressStep | src/scheduler/scheduler.runner.ts:204-271 | one more row keeps rows, clones, counters and accounts in step |
| PassRows.OthersUntouched | src/scheduler/scheduler.runner.ts:189-272 | a row already processed, or dated after today, is left alone by a pass |
| PassRows.WaitingRowsFate | src/scheduler/scheduler.runner.ts:204-262 | every other row, whatever fails: not consumed if its type is unknown, done if another runner took it, unprocessed again if its executer throws and the release does not fail, and otherwise done, its account closed |
| PassRows.WaitingRowsClone | src/scheduler/scheduler.runner.ts:313-332 | and its clone: one fresh copy at the next occurrence exactly if it ran, repeats, and the insert did not fail |
| PassRows.OnlyClonesAppear | src/scheduler/scheduler.runner.ts:189-272 | no other row appears, none goes, and no row is cloned twice |
| PassRows.CountersExactly | src/scheduler/scheduler.runner.ts:198-271 | what the summary counts as loaded, skipped, processed and undelivered, as sets of rows of the table before the pass |
| PassRows.ErrorsExactly | src/scheduler/scheduler.runner.ts:198-271 | and as errored and cloned |
| PassRows.AccountsExactly | src/saving-accounts/saving-account.service.ts:349-373 | an account is closed by a pass exactly when it was open and a close row of it runs |
| PassRows.ClosesOnTheDay | src/saving-accounts/saving-account.service.ts:349-373 | a failure-free pass closes every account whose end date is today or before and that has an unprocessed close row, and none whose end date is to come |
| CatchUp.SummaryAddsUp | src/scheduler/scheduler.runner.ts:198-271 | every loaded row is counted once as processed, skipped or failed; a row that ran but could not be cloned is counted as errored besides; clones are as many as the rows that ran and repeat |
| CatchUp.CalmPassIsClean | src/scheduler/scheduler.runner.ts:189-272 | with nothing failing, a pass completes every healthy due row and gives each that repeats exactly one clone, which it does not run |
| CatchUp.PassMovesOn | src/scheduler/scheduler-task.repository.ts:362-381 | each such pass moves every past-due chain on by one occurrence |
| CatchUp.CatchUpTerminates | src/scheduler/scheduler-task.repository.ts:362-381 | after as many passes of one day as the oldest runnable row is days late, and one more, what is still due is exactly what cannot run, as it was at the start |
| CatchUp.OnlyOrphansStayOpen | src/saving-accounts/saving-account.service.ts:409-416 | after a failure-free pass an account is open past its end date exactly when it was and has no unprocessed close row; every close row it has is then stranded |
| SavingAccounts.SavingAccountService.CreateAccount | src/saving-accounts/saving-account.service.ts:155-192 | one open account and one close row due on its end date; when scheduling fails, the account alone |
| SavingAccounts.SavingAccountService.CloseAccount | src/saving-accounts/saving-account.service.ts:349-373 | idempotent; missing and already closed are told apart |
| SavingAccounts.SavingAccountService.FindUnclosedPastDue | src/saving-accounts/saving-account.service.ts:409-416 | exactly the open accounts whose end date is before today, ascending |
| Bytes.StripAsciiWhitespace | src/common/http/django-parse-header.ts:46-56 | strips ASCII whitespace from both ends and nothing else |
| Bytes.StripExactly | src/common/http/django-parse-header.ts:46-56 | what is stripped: the six ASCII whitespace bytes, at both ends, as far as they go |
| Bytes.TrimExactly | src/common/http/django-multipart.ts:182 | what a transfer encoding and a media type are trimmed of: those and the no-break space |
| Bytes.LowerExactly | src/common/http/django-parse-header.ts:98-107 | lowercasing of header text, byte by byte |
| DjangoHeader.FindSegmentEnd | src/common/http/django-parse-header.ts:172-185 | the loop stops at the first semicolon outside quotes |
| DjangoHeader.SegmentEndsExactly | src/common/http/django-parse-header.ts:172-185 | a segment ends at the first semicolon with an even number of quotes before it, or at the end |
| DjangoHeader.ParseHeaderParams | src/common/http/django-parse-header.ts:172-190 | terminates, and its parts are the raw segments stripped |
| DjangoHeader.SegmentsRejoin | src/common/http/django-parse-header.ts:172-190 | the raw segments rejoin to the input: nothing is lost |
| DjangoHeader.SealedSegmentsSplit | src/common/http/django-parse-header.ts:172-190 | segments whose semicolons are all inside balanced quotes are split back exactly |
| DjangoHeader.ParseHeader | src/common/http/django-parse-header.ts:95-134 | the loop over segments gives the lowercased key and the parameters, a later one of a name winning; an undecodable one raises |
| DjangoHeader.HeaderRoundTrip | src/common/http/django-parse-header.ts:95-134 | a printed header parses back to its key and map, for values over every byte but the quote |
| DjangoHeader.QuotesReadBack | src/common/http/django-parse-header.ts:124-129 | a quoted value loses its quotes and its escaped quotes come back; any other value is left alone |
| DjangoHeader.ExtendedParameterReads | src/common/http/django-parse-header.ts:107-123 | the extended form of section 4 of RFC 2231: the text is decoded with its charset, the star dropped, and a failed decoding raises |
| DjangoHeader.PlainParameterReads | src/common/http/django-parse-header.ts:101-130 | any other parameter: the name stripped and lowercased, a final star dropped, the value stripped and unquoted; one without an equals sign is skipped |
| DjangoHeader.MapOfDistinct | src/common/http/django-parse-header.ts:95-134 | with distinct names the map holds exactly the printed pairs |
| Multipart.ValidBoundary | src/common/http/django-multipart.ts:260-274 | the loop decides the boundary's byte classes and its length of 1 to 201, a trailing newline aside |
| Multipart.ValidBoundaryExactly | src/common/http/django-multipart.ts:260-274 | a valid boundary, a final line feed aside, has 1 to 201 bytes from 32 to 126, the last not a space |
| Multipart.BackUp | src/common/http/django-multipart.ts:309-315 | backing up over one line break, with an index that never goes negative |
| Multipart.SplitOnBoundary | src/common/http/django-multipart.ts:296-320 | the scavenging loop yields one part for each chunk between separators, in order, whatever precedes the first and follows the last |
| Multipart.ParseBoundaryStream | src/common/http/django-multipart.ts:352-394 | headers from the first KiB, the last disposition deciding the kind |
| Multipart.LateHeadersAreRaw | src/common/http/django-multipart.ts:352-357 | a header block that ends after the first 1024 bytes is not seen |
| Multipart.LastHeaderCounts | src/common/http/django-multipart.ts:365-389 | of header lines with one name the last counts; the part is a file exactly when the last disposition has a non-empty file name |
| Multipart.NoSuchHeader | src/common/http/django-multipart.ts:365-393 | without a disposition it is neither field nor file |
| Multipart.ParseDjangoMultipart | src/common/http/django-multipart.ts:141-243 | the loop over parts with its two budgets, and each refusal in the source's order; what it accepts is said by the three rows below and the round trip |
| Multipart.RefusedExactly | src/common/http/django-multipart.ts:141-162 | which uploads are refused before their parts are read, in order, and that an empty body is an empty upload |
| Multipart.NamelessIsSkipped | src/common/http/django-multipart.ts:170-181 | a part without a disposition, or without a name in it, leaves no trace |
| Multipart.FieldIsTaken | src/common/http/django-multipart.ts:184-213 | the 1001st field is refused, and one that takes bytes, names and two each past 2.5 MiB; otherwise its value goes last under its stripped name, and undecodable base64 is kept as it came |
| Multipart.FileIsTaken | src/common/http/django-multipart.ts:215-240 | a file without a name to store leaves no trace, undecodable base64 refuses the upload, and otherwise the file goes last, whole, at no charge to the budgets |
| Multipart.SanitizedExactly | src/common/http/django-multipart.ts:416-424 | the stored file name is what follows the last slash or backslash, if that is not empty, one dot or two |
| Multipart.FieldsAreWholeOrRefused | src/common/http/django-multipart.ts:192-211 | for every body, the byte budget never truncates a field: it is returned whole or the upload is refused |
| Multipart.AcceptedExactlyWithinBudget | src/common/http/django-multipart.ts:184-211 | with decodable files an upload is accepted exactly within the field count and the byte budget |
| MultipartRoundTrip.MatchesAvoidLineBreaks | src/common/http/django-multipart.ts:296-320 | a match of the separator never straddles the line break before a true delimiter |
| MultipartRoundTrip.BodySplits | src/common/http/django-multipart.ts:296-320 | a printed body splits into exactly its parts |
| MultipartRoundTrip.PartReads | src/common/http/django-multipart.ts:352-394 | a printed part reads back as its kind, headers and bytes |
| MultipartRoundTrip.MultipartRoundTrip | src/common/http/django-multipart.ts:141-243 | printing any list of named parts and parsing returns them in order with identical bytes, exactly when they fit the two budgets, and otherwise refuses |
| PythonLower.ProbesReadTheProperties | scripts/gen-python-lower-fixture.py:57-66 | the two probes tell cased, ignorable and neither apart, and no more |
| PythonLower.LowerStepExactly | scripts/gen-python-lower-fixture.py:83-97 | the interpreter's lowercasing the rebuilt one is measured against: a capital sigma is final exactly when the nearest unignorable character before it is cased and the nearest after it is not |
| PythonLower.ExpandingProbeLetterIsBlind | scripts/gen-python-lower-fixture.py:57 | a letter that expands makes the first probe answer the same for every character |
| PythonLower.ModelIsLowerExactly | scripts/gen-python-lower-fixture.py:47-106 | for tables that pass the assertions, the rebuilt function is right on every string if and only if the probe letter lowercases to one character |
| PythonLower.UnsoundLetterMisleads | scripts/gen-python-lower-fixture.py:57-66 | and otherwise a two-character string shows the difference |
| PythonLower.BuildTables | scripts/gen-python-lower-fixture.py:47-66 | the loop never trips its assertions on a sound interpreter and records its mapping and properties faithfully |
| PythonLower.IsFinal | scripts/gen-python-lower-fixture.py:90-97 | the two index loops decide the final-sigma rule of the tables |
| PythonLower.Model | scripts/gen-python-lower-fixture.py:83-106 | the loop with its index scans rebuilds each character from the tables; `ModelIsLower` says it is the interpreter's |
| PythonLower.ModelIsLower | scripts/gen-python-lower-fixture.py:83-106 | on every string the function rebuilt from the tables is the interpreter's own |
| PythonLower.GenerateThenLower | scripts/gen-python-lower-fixture.py:47-106 | generator and model together compute lowercasing for any sound interpreter |
| PythonLower.RangesOf | scripts/gen-python-lower-fixture.py:69-76 | the printed ranges hold exactly the class, in the fewest ranges |
| PythonLower.RangesAreCanonical | scripts/gen-python-lower-fixture.py:69-76 | the printed form of a class is unique |
| ResponseHooks.HookState.OrderedHooks | src/common/http/before-headers.ts:133-137 | the insertion of each hook at or above the floor, which `RunsDeepestFirst` shows to be the response phase written out |
| ResponseHooks.HookState.WriteHead | src/common/http/before-headers.ts:114-127 | the hooks run at the first call and never again |
| ResponseHooks.OrderedExactly | src/common/http/before-headers.ts:133-137 | the sorted list holds the registrations at or above the floor and no others, none twice, deeper ones first and earlier ones first within a depth |
| ResponseHooks.HooksInPlace | src/common/http/before-headers.ts:114-127 | and the run takes their hooks one for one |
| ResponseHooks.RunsDeepestFirst | src/common/http/before-headers.ts:133-137 | what runs is each depth's hooks in registration order, deepest first, at or above the floor |
| ResponseHooks.RunIgnoresInterleaving | src/common/http/before-headers.ts:133-137 | the run does not depend on how registrations at different depths interleave |
| ResponseHooks.Respond | src/common/http/before-headers.ts:60-127 | for any sequence of registrations and skips: that run under the least floor, and a second call runs nothing |
| ResponseHooks.FloorIsLeastSkip | src/common/http/before-headers.ts:94-97 | the floor is the least of the skips, whenever they came |
| VaryHeader.PatchVaryHeaders | src/common/http/django-cors.middleware.ts:113-137 | the loop over names and the set of names seen gives the text of the merged list; `MergedFacts` says what that list holds |
| VaryHeader.ParseUndoesJoin | src/common/http/django-cors.middleware.ts:114-121 | the written text stands for its list of fields |
| VaryHeader.ParsedOneByOne | src/common/http/django-cors.middleware.ts:114-121 | the text on either side of any comma is read on its own; text without one is its trimmed self, or no field when nothing is left |
| VaryHeader.JoinedOneByOne | src/common/http/django-cors.middleware.ts:136 | a comma and a space between two written fields, and nothing else |
| VaryHeader.MergedFacts | src/common/http/django-cors.middleware.ts:128-136 | existing fields stay as they are, each missing name is added once, up to case, and nothing else |
| VaryHeader.StarAbsorbs | src/common/http/django-cors.middleware.ts:123-126 | a star in the header or in any hook leaves only the star, for good; without one the existing fields stay in front and no star appears |
| VaryHeader.TextFollowsFields | src/common/http/django-cors.middleware.ts:113-137 | reading the header's text back at every patch loses nothing: after any hooks the text is that of the list merged without it |
| VaryHeader.DuplicateFreeExactly | src/common/http/django-cors.middleware.ts:113-137 | no field is repeated in the end, up to case, if and only if none was at first or a star occurs |
| VaryHeader.VaryOfResponse | src/common/http/django-cors.middleware.ts:113-137 | the header's text after a response's hooks: that of the merged list, free of duplicates exactly as above, and independent of the order across depths |
| QuickRatio.Matches | src/password-reset/password-validators.ts:132-146 | the match count is the size of the multiset intersection |
| QuickRatio.RatioIgnoresOrder | src/password-reset/password-validators.ts:125-148 | symmetric, and blind to order |
| QuickRatio.RatioBounds | src/password-reset/password-validators.ts:125-148 | between 0 and 1, and 1 exactly for permutations |
| QuickRatio.RatioCoversSubsequences | src/password-reset/password-validators.ts:125-148 | every common subsequence counts in full |
| Csrf.MaskCsrfSecret | src/password-reset/django-csrf.ts:75-83 | the loop yields the mask followed by the secret shifted by it, character by character, around the 62 allowed characters; unmasking undoes it below |
| Csrf.UnmaskCsrfToken | src/password-reset/django-csrf.ts:92-112 | the loop, with JavaScript's signed remainder, is the Euclidean inverse shift; a 32-character token stands for itself, and anything else is refused |
| Csrf.AlphabetInOrder | src/password-reset/django-csrf.ts:34 | the order the shifts count in: lower case, upper case, digits |
| Csrf.MaskedLetters | src/password-reset/django-csrf.ts:75-83 | the mask in the clear, then each letter of the secret moved on by the mask's |
| Csrf.UnmaskedLetters | src/password-reset/django-csrf.ts:92-112 | each letter moved back; a token is refused exactly for its length or a letter outside the alphabet |
| Csrf.UnmaskUndoesMask | src/password-reset/django-csrf.ts:75-112 | unmasking undoes masking under every mask |
| Csrf.SecretIsConstant | src/password-reset/password-reset.controller.ts:400-422 | from the first valid cookie on the secret never changes, the legacy 32-character form included |
| Csrf.RenderedTokens | src/password-reset/password-reset.controller.ts:400-422 | one render: a long valid cookie goes back as it came, the short form masked, anything else replaced; the field is the cookie's secret under a mask of its own |
| Csrf.AcceptedExactly | src/password-reset/password-reset.controller.ts:473-515 | a post is accepted exactly when its token unmasks to the cookie's secret |
| Csrf.NoCookieNoPost | src/password-reset/password-reset.controller.ts:473-478 | without a cookie every post is refused, and one rendered page is enough to set a well-formed one |
| Csrf.FieldsKeepVerifying | src/password-reset/password-reset.controller.ts:400-422 | every field a page ever issued still verifies after any later renders |
| Birthday.NextBirthdayRunDate | src/users/birthday-run-date.ts:68-83 | the birthdate whole years on, on its own month and day, the 28th for 29 February in a common year; to come, or today before 14:00; and the earliest such date |
| Birthday.AnniversaryIsYearsOn | src/users/birthday-run-date.ts:22-27 | an anniversary is the birthdate whole years on: the same month and day, but the 28th for 29 February in a common year |
| Birthday.NextBirthdayIsEarliest | src/users/birthday-run-date.ts:68-83 | of all dates whole years after the birthdate that are to come, or are today before 14:00, the run date is the first |
| Birthday.YearlyClonesDrift | src/scheduler/scheduler.runner.ts:313-332 | the k-th yearly clone is the anniversary k years on, except for a 29 February birthday in a later leap year, where it is exactly one day early |
| Birthday.BirthdayChain | src/users/birthday-run-date.ts:22-83 | so for the whole chain a birthday edit starts, from the birthdate's next anniversary on |

## Left out

- Sending: mails, pushes and queue messages, and the HTML and Spanish text they carry, are not modelled; a notification executer only returns or throws.
- Clocks, zones and random draws are inputs. Bogotá is UTC-5; its summer time of 1992-1993 and earlier offsets are not modelled.
- LoanProtocol: reminder rows are not part of the interleaved machine, only of `LoanService`; so nothing is said of a listed loan paid out by another session while an upload is uncommitted, which ends with the upload's reminders pending. A line of an upload, its lookup and its write, is one step.
- LoanWaits.NoWaitCycleWithOneUpload: two uploads can wait for each other, and so can an upload and the approval of a waiting loan that had a detail from the start; the database then aborts one, which is the step `Abort`.
- LoanProtocol: a refinance is stamped no earlier than the loan it replaces, which assumes that clocks do not run backwards between the two requests. Its quota check is in `LoanService.RefinanceLoan` only.
- LoanRules: the unique index on a detail's loan is in the schema but is not relied on.
- LoanService.LoanService.CreateLoan: comments, payment type and disbursement value are stored and never read by the modelled code; coercion of non-numeric bodies raises before anything is written and is not modelled.
- LoanService.LoanService.BulkUpdateLoans: cutting the file into columns and parsing money and dates is foreign; a line is malformed or it carries its figures.
- Decimal28: the exponent limits of the decimal context are never reached by 64-bit amounts and are not modelled; nor is the rounding of displayed rows.
- AmortizationTotals.MonthlyTotal: for a loan disbursed after the 27th a month's 30/360 count depends on the lengths of the months; each row's interest is then said by `Amortization.InterestIsClose` and the steps of the count in `Calendar`, not by a closed form.
- Amortization: the stored rate is a real number; its three decimals are not used.
- SchedulerProtocol: a hand release is of a stranded row; releasing a row a runner still holds would run it twice, and the log line that asks for one names only stranded rows.
- SchedulerRunner: a row another runner claims first is an input of the pass; the interleaving itself is in `SchedulerProtocol`.
- SavingAccounts: the manual edit of an account, listing and revaluing are not modelled; `CatchUp` speaks of runs without that edit.
- Multipart: bytes are characters of ISO-8859-1. Text decoding, HTML unescaping, base64 and RFC 2231 decoding are parameters, and the round trip prints none of them; field names are counted as bytes.
- PythonLower: the probe letter is assumed to be cased and not ignorable. The sampled self-check and the printing of the fixture are not modelled.
- ResponseHooks: of what hooks do to a response, only `Vary` is modelled; the others set disjoint headers.
- VaryHeader: field names are ISO-8859-1 text, lowercased as such.
- Csrf: the cookie's attributes, the 403 page and the Referer check, which never runs in production, are not modelled; nor is constant-time comparison.
- The role matrix, guards, listings, health checks, environment schema, serializers, activities and file listing are finite tables or simple checks.
