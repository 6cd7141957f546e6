# Team Calendar: verified core

A Dafny model of the parts of the Team Calendar repository whose behaviour is decided by its own code, with
proofs of what that code promises. `dafny verify dfyconfig.toml` checks all of it.

| file | models |
|---|---|
| `Common.dfy` | the option and result shapes and the white space the other files share |
| `Gregorian.dfy` | the day-number arithmetic behind `Date.UTC` and `getUTC*` (section 21.4.1 of ECMA-262) |
| `Text.dfy` | JavaScript string order, decimal printing, `padStart` |
| `DateStrings.dfy` | reading and printing "YYYY-MM-DD" in the recurrence form |
| `Recurrence.dfy` | day and month steps, rule validation, the series of candidate days |
| `WeeklyRecurrence.dfy` | custom weekly rules and their two nested loops |
| `RecurrenceGenerator.dfy` | the expansion of every rule into date ranges |
| `DateKeys.dfy` | date keys, the two-pass local midnight, the query window and the days it must cover |
| `NotificationPaging.dfy` | the notification list: filters, keyset pages, read marks |
| `WriteClaim.dfy` | the expiring claim on a record that is about to be written to Xero |
| `TenantRun.dfy` | after-commit effects, and every interleaving of the steps of any number of tenant transactions |
| `TenantScope.dfy` | the runtime behind them, whose methods take exactly those steps |
| `ReleaseRun.dfy` | the release-run slot: every interleaving, crash and recovery of every run |
| `ReleaseRunner.dfy` | one release run as the script executes it, proved equal to the step system above |
| `FeedService.dfy` | feed slugs, default and self-service feeds, the status lifecycle |
| `FeedRun.dfy` | every interleaving of the reads and writes of any number of feed operations |
| `RedactUrl.dfy` | redaction of basic-auth credentials inside text |
| `IssueBody.dfy` | support issue bodies, and a reader of them by section 4.5 of the CommonMark specification |
| `FixtureSlots.dfy` | which tenants and global keys each integration suite gets |

Conventions. A `Date` at a UTC midnight is its day number, or `Invalid` outside the time range. A time zone is
any function from instants to offsets; the lemmas name what they need of it. Tables are maps or sequences held
in classes, and each conditional update of the database or the key-value store is one atomic step. What the
outside world answers (the clock, the network, child processes, plan limits, token issue, uuids) is a parameter,
and the theorems hold for all its values. An exception is a `None`, a `false` or an error value. Where the code
is a loop or changes fields, the model is a method proved against a specification function, and the lemmas are
about that function.

## What the proofs found

- `dateFromString` reads dates of years 100 to 9999, while `isValidDateString` accepts 1000 to 9999 only
  (`ParseExact`, `ValidExact`): a year below 1000 is read but prints without its leading zero.
- A custom weekly rule that starts on 1000-01-01 to 1000-01-04 has its start week in year 999. The anchor string
  "999-12-29" is not read back, so every step returns it unchanged. `GenerateWeeklyCustomOccurrences` states the
  result and `LostSearchExactness` exactly when it is nevertheless the promised one; for count rules never.
- A custom weekly until rule can list days past its end: beyond year 9999 week starts are no longer read back, and
  texts such as "12507-07-17" sort between the start and the end date. `UntilSearchIsExact` is the exact condition
  (a theorem of `GenerateWeeklyCustomOccurrences`), `LongIntervalFails` a rule that breaks it, and
  `UntilSearchWithinYears` says that it holds whenever the next selected week begins before year 10000.
- An until rule of any other kind compares strings too, and "10000-01-01" sorts before "9999-12-31". `UntilExpansionExact` says exactly
  when the expansion is the promised one; `UntilLastDayFails` is a daily rule for which it is not.
- `dateKeysBetween` never ends when its last day is 9999-12-31 and the range is not empty: the next key is cut to
  "+010000-01", which sorts first and is its own successor. `KeysBetweenEnds` is the exact condition.
- Where a clock change skips midnight, `zonedStartOfDay` misses the first moment of the day by the size of the
  change: late or early, depending on which side of the day's UTC midnight the change lies (`SkippedMidnight`).
- The claim's guard compares the clock with the stamp that callers pass in. With stamps taken from the same clock
  the lease holds, as it does with later ones (`ClaimsAreALeaseApart`); it holds exactly for claims that are not
  back-dated (`LeaseHoldsExactly`), and with a back-dated stamp two claims can follow each other at once
  (`BackdatedStampBreaksLease`). A second release goes by the stamp alone (`LateReleaseGoesByStamp`).
- `redactBasicAuthInUrl` looks at the first "@" after a "://" only: "redis://user:p@ss@host" keeps "ss", and
  "redis://me@x:pw@host" is not redacted at all (`SecondAtExamples`). Every secret is masked exactly for messages
  without a second "@" that follows a ":" and no "/" (`EverySecretMaskedExactly`).
- Changes to a feed read its state and then write by id without a guard. A resume that reads a paused feed and writes
  after an archive leaves it active in one column, archived in the other and without a token
  (`ResumeAfterArchive`, reachable from an empty table by `StuckFeedReachable`); every later change is refused
  (`StuckRefusesAll`) and the feed stays so (`StuckForEver`). `StatusAgreesExactly` is the exact condition on a run. A
  late restore pauses a feed that has been resumed meanwhile (`RestoreAfterResume`), and a late update changes an
  archived feed (`RenameAfterArchive`). Slugs and default feeds are safe in every run (`SlugsStayUnique`).
- A range that would end after 9999-12-31 gets an end date that cannot be read back: `LastRangeCutOff` is a daily
  rule with such a range, `StepDurationKept` and `WeeklyDurationKept` say exactly which ranges keep their duration.
- A read mark made between the read and the guarded update of `markAsRead` stays, but the call then returns its own
  time, which is not the stored one (`RacingMark`).
- A release run that stops before its baseline digest is stored cannot be freed by `--recover` or
  `--recover-if-owned`: `RecoveryFrees` is the exact condition.

## Model

| member | source | states |
|---|---|---|
| Gregorian.CivilOf | apps/app/app/(authenticated)/recurrence.ts:77-103 | the date read off a day number is a real Gregorian date with that very number |
| Gregorian.DayNumberOrder | apps/app/app/(authenticated)/recurrence.ts:77-103 | day numbers order dates as year, month and date do, and never confuse two dates |
| Gregorian.MakeDayRoundTrip | apps/app/app/(authenticated)/recurrence.ts:86-93 | a written triple survives `Date.UTC` and the three getters exactly when it is a real date: every rollover is caught |
| Gregorian.DayZeroOfNextMonth | apps/app/app/(authenticated)/recurrence.ts:114-115 | day 0 of the next month is the last day of this one by the Gregorian leap rule, December included |
| DateStrings.ParseExact | apps/app/app/(authenticated)/recurrence.ts:77-96 | among all strings, exactly the written forms of real dates of years 100 to 9999 are read, each as its own day |
| DateStrings.ValidExact | apps/app/app/(authenticated)/recurrence.ts:68-75 | exactly the real dates of years 1000 to 9999 are valid, and a valid string is the printed form of its day |
| DateStrings.ParsePrinted | apps/app/app/(authenticated)/recurrence.ts:77-103 | printing a day and reading it back gives the day |
| DateStrings.StringOrderIsDayOrder | apps/app/app/(authenticated)/recurrence.ts:290 | on valid strings `<` is date order and equality is day equality |
| DateStrings.PrintedOrder | apps/app/app/(authenticated)/recurrence.ts:345 | printed four-digit days are ordered as strings as their days are |
| Recurrence.AddDaysShifts | apps/app/app/(authenticated)/recurrence.ts:105-112 | `addDays` of any readable date prints the day that many days on, across months, years and the end of time |
| Recurrence.AddDaysComposes | apps/app/app/(authenticated)/recurrence.ts:105-112 | adding days twice equals adding their sum exactly when the day between has a four-digit year (or nothing is added to it) |
| Recurrence.PrintedInjective | apps/app/app/(authenticated)/recurrence.ts:98-103 | no two days, of whatever year, print the same string |
| Recurrence.DaysBetweenShifted | apps/app/app/(authenticated)/recurrence.ts:138-145 | `daysBetween(d, addDays(d, n))` is `n` |
| Recurrence.AddMonthsShifts | apps/app/app/(authenticated)/recurrence.ts:117-136 | `addMonths` that lands in four-digit years is the calendar shift below, for negative steps too |
| Recurrence.MonthShiftLands | apps/app/app/(authenticated)/recurrence.ts:117-136 | a month step lands in month index anchor + months, on the anchor's date or the month's last day: it clamps and never drifts |
| Recurrence.MonthShiftIncreases | apps/app/app/(authenticated)/recurrence.ts:117-136 | month steps from one anchor strictly increase in the month count |
| Recurrence.StepDayIncreases | apps/app/app/(authenticated)/recurrence.ts:348-375 | the candidates of every rule strictly increase |
| Recurrence.StepDayFromStart | apps/app/app/(authenticated)/recurrence.ts:348-375 | candidate k is at least k days after the start, so none precedes it and the search passes every end date |
| Recurrence.PeriodMeaning | apps/app/app/(authenticated)/recurrence.ts:348-375 | what each frequency and unit steps by: days, weeks of seven days, calendar months and years |
| Recurrence.AddStepPrintsStepDay | apps/app/app/(authenticated)/recurrence.ts:348-375 | for every frequency, unit and month mode `addStep` prints exactly the candidate day |
| WeeklyRecurrence.DueDaysExact | apps/app/app/(authenticated)/recurrence.ts:380-427 | the list of due days is strictly increasing and holds exactly the days from the start on with a chosen weekday and a Sunday-week distance divisible by the interval |
| WeeklyRecurrence.ChosenMeaning | apps/app/app/(authenticated)/recurrence.ts:384-393 | a chosen day without week numbers: its weekday is chosen, and its Sunday and that of the start are a multiple of the interval in weeks apart |
| WeeklyRecurrence.IncreasingUnique | apps/app/app/(authenticated)/recurrence.ts:380-427 | only one strictly increasing list has those days, so the reference list is the only possible answer |
| WeeklyRecurrence.WeekdaysAsSet | apps/app/app/(authenticated)/recurrence.ts:377-378 | duplicate or unsorted weekdays change no due day |
| WeeklyRecurrence.SortedWeekdays | apps/app/app/(authenticated)/recurrence.ts:377-378 | the weekdays without duplicates in strictly increasing order |
| WeeklyRecurrence.GenerateWeeklyCustomOccurrences | apps/app/app/(authenticated)/recurrence.ts:380-427 | both loops end for every rule; with a start week from year 1000 on the result is the promised one (the first `occurrenceCount` due days, or all due days up to the end date, or the error exactly when more than 50 are due) if and only if the search is exact in the sense of `IsExactSearch`, a condition on the rule alone |
| WeeklyRecurrence.AnchorBeforeYear1000 | apps/app/app/(authenticated)/recurrence.ts:384-393 | the start week leaves the readable years for four start dates and no others |
| WeeklyRecurrence.LostSearchExactness | apps/app/app/(authenticated)/recurrence.ts:380-427 | for those four dates, exactly when the result is still the promised one |
| WeeklyRecurrence.CountExactOnlyInside | apps/app/app/(authenticated)/recurrence.ts:380-427 | for count rules the condition of the generator is also necessary |
| WeeklyRecurrence.UntilSearchWithinYears | apps/app/app/(authenticated)/recurrence.ts:390-401 | until rules are exact whenever the first selected week past the end date begins before year 10000 |
| WeeklyRecurrence.LongIntervalFails | apps/app/app/(authenticated)/recurrence.ts:390-401 | a valid until rule without due days whose next week start, "12507-07-17", is the text that decides the search and sorts before the end date |
| RecurrenceGenerator.ValidationMeaning | apps/app/app/(authenticated)/recurrence.ts:281-327 | validation passes exactly the requests that make sense in days |
| RecurrenceGenerator.FaultMeaning | apps/app/app/(authenticated)/recurrence.ts:281-327 | which fault is returned, in days and in the order of the checks |
| RecurrenceGenerator.GenerateRecurrenceOccurrences | apps/app/app/(authenticated)/recurrence.ts:429-479 | the first fault is returned; otherwise rules with custom frequency in weeks go to their own search with its exact condition, and every other rule lists `addStep(start, 0..n-1)` with `n` fixed by count, end date or the cap of 50; the endless loop ends |
| RecurrenceGenerator.WeeklyStartsChosen | apps/app/app/(authenticated)/recurrence.ts:440-452 | every start of an exact custom weekly result is a day on a chosen weekday of a selected week, not before the start |
| RecurrenceGenerator.UntilExpansionExact | apps/app/app/(authenticated)/recurrence.ts:337-346 | stopping at the first candidate past the end date loses none, and the error means 51 or more are due, exactly when that candidate also sorts after the end date or the cap is passed anyway |
| RecurrenceGenerator.UntilExpansionWithinYears | apps/app/app/(authenticated)/recurrence.ts:337-346 | which holds for every rule whose first candidate past the end date is before year 10000 |
| RecurrenceGenerator.UntilLastDayFails | apps/app/app/(authenticated)/recurrence.ts:337-346 | a daily rule on 9999-12-31 for which it fails |
| RecurrenceGenerator.CountExpansionDays | apps/app/app/(authenticated)/recurrence.ts:429-479 | a count rule yields exactly `occurrenceCount` days, the first candidates, strictly increasing |
| RecurrenceGenerator.DurationKept | apps/app/app/(authenticated)/recurrence.ts:329-335 | every range of a result is as long as the submitted one exactly when its start is readable and its end comes before year 10000, or the submitted one is one day |
| RecurrenceGenerator.StepDurationKept | apps/app/app/(authenticated)/recurrence.ts:329-335 | the same said of the rule: range k keeps the duration exactly when candidate day k plus the duration is before year 10000 |
| RecurrenceGenerator.WeeklyDurationKept | apps/app/app/(authenticated)/recurrence.ts:329-335 | and for exact custom weekly results exactly when due day k plus the duration is |
| RecurrenceGenerator.LastRangeCutOff | apps/app/app/(authenticated)/recurrence.ts:329-335 | a daily rule whose second range does not keep it |
| Recurrence.CandidateReadsBack | apps/app/app/(authenticated)/recurrence.ts:348-375 | a candidate can be read back exactly while its day is before year 10000 |
| DateKeys.KeyRoundTrip | packages/core/src/date-keys.ts:17-25 | a printed key reads back as its day, for years 0 to 9999 |
| DateKeys.KeyIsPrinted | packages/core/src/date-keys.ts:17-25 | and every key of a real date is the printed form of its day |
| DateKeys.KeyOrder | packages/core/src/date-keys.ts:80-86 | keys compare as strings as their days do |
| DateKeys.AddDaysToKeyComposes | packages/core/src/date-keys.ts:21-25 | adding days to keys is an action of the integers |
| DateKeys.AddDaysAgree | packages/core/src/date-keys.ts:21-25 | and is the `addDays` of the recurrence form in years 1000 to 9999 |
| DateKeys.DateKeysBetween | packages/core/src/date-keys.ts:28-34 | each day from first to last once and consecutively, nothing for an empty range, and the loop ends |
| DateKeys.KeysBetweenEnds | packages/core/src/date-keys.ts:28-34 | the loop ends exactly for the ranges the method above accepts |
| DateKeys.ZonedStartOfDay | packages/core/src/date-keys.ts:41-50 | the loop of two passes computes the instant the following lemmas are about |
| DateKeys.ClockMeaning | packages/core/src/date-keys.ts:52-73 | the local clock is read to the second that is running |
| DateKeys.StartOfDayIsMidnight | packages/core/src/date-keys.ts:41-50 | with at most one offset change near the day, the result is local midnight exactly when the day has one; when midnight occurs twice it is the one with the offset in force at UTC midnight |
| DateKeys.SkippedMidnight | packages/core/src/date-keys.ts:41-50 | when midnight is skipped, by how much and in which direction the result misses it |
| DateKeys.StartOfDayMonotone | packages/core/src/date-keys.ts:41-50 | later days start no earlier, for every zone whose offsets span at most 24 hours |
| DateKeys.QueryWindowComplete | packages/core/src/date-keys.ts:75-112 | every record that falls on a local day of the range, timed or all-day, even one that ends before it starts, ends at or after the window's start and starts before its end |
| DateKeys.QueryWindowTight | packages/core/src/date-keys.ts:94-112 | and the window is no larger than it must be, at either end |
| DateKeys.AllDayFallsExactly | packages/core/src/date-keys.ts:80-89 | an all-day record falls on exactly the days from its first to its last, both included |
| DateKeys.TimedFallsExactly | packages/core/src/date-keys.ts:90-92 | a timed record falls on exactly the days that hold one of its instants |
| DateKeys.DaysTileRange | packages/core/src/date-keys.ts:81-92 | a timed record that overlaps the range falls on at least one of its days |
| DateKeys.InstantInOneDay | packages/core/src/date-keys.ts:28-50 | every instant of the range lies in exactly one of its local days |
| NotificationPaging.FilterMeaning | packages/notifications/src/notification-service.ts:384-451 | which rows a filter matches, including empty lists, unlisted types and the cursor |
| NotificationPaging.FindAllExact | packages/notifications/src/notification-service.ts:139-150 | the ordered answer strictly descends by (created_at, id) and holds exactly the matching rows |
| NotificationPaging.PageIsPrefix | packages/notifications/src/notification-service.ts:139-165 | a page is the first rows of that answer; `nextCursor` is its last row, and null exactly at the end |
| NotificationPaging.WalkDescends | packages/notifications/src/notification-service.ts:139-165 | whatever is inserted, deleted or marked read between calls, the pages put together strictly descend |
| NotificationPaging.WalkIsNewestFirst | packages/notifications/src/notification-service.ts:139-150 | said with the columns: the creation time falls along a walk, and where it stays the id falls |
| NotificationPaging.WalkMissesNothing | packages/notifications/src/notification-service.ts:442-449 | a row that matches at every call of a finished walk is on one of its pages |
| NotificationPaging.WalkShowsOnce | packages/notifications/src/notification-service.ts:442-449 | and on no second position |
| NotificationPaging.WalkOfFixedTable | packages/notifications/src/notification-service.ts:139-165 | on an unchanging table the walk ends, after a bounded number of calls, with the full ordered answer |
| NotificationPaging.NotificationTable.ListForUser | packages/notifications/src/notification-service.ts:104-170 | when a list request is refused, and otherwise which page it returns; the unread count is the length of the user's unread list |
| NotificationPaging.CountIsUnreadList | packages/notifications/src/notification-service.ts:366-378 | the unread count of a user is the number of rows their unread-only list has |
| NotificationPaging.NotificationTable.MarkAsRead | packages/notifications/src/notification-service.ts:172-250 | exactly when each of the four outcomes occurs; a success is the guarded update of one row, keeps an earlier stamp, and lowers the unread count by one or not at all |
| NotificationPaging.RacingMark | packages/notifications/src/notification-service.ts:183-226 | a mark made between the read and the guarded update stays, and exactly when the returned time is then the stored one |
| NotificationPaging.NotificationTable.MarkAllAsRead | packages/notifications/src/notification-service.ts:252-294 | refused exactly without account or user; otherwise stamps, row by row, the unread rows of this recipient in this account and no other; the returned number is the unread count before, which is 0 afterwards |
| NotificationPaging.StampAllMeaning | packages/notifications/src/notification-service.ts:262-276 | which rows it stamps, in their columns |
| NotificationPaging.StampAllLeavesNone | packages/notifications/src/notification-service.ts:252-294 | stamping every unread row leaves none unread |
| NotificationPaging.StampOneCounts | packages/notifications/src/notification-service.ts:172-250 | stamping one unread row lowers its recipient's count by one and nobody else's |
| NotificationPaging.MarksKeepPlaces | packages/notifications/src/notification-service.ts:139-165 | a read mark moves no row in the order and changes no match but of unread-only lists |
| WriteClaim.AvailabilityRecords.Acquire | packages/availability/src/xero-write-claim.ts:32-73 | is the claim step of the runs below on its record, leaves all others, and returns the stamp exactly when that step claims |
| WriteClaim.ClaimMeaning | packages/availability/src/xero-write-claim.ts:41-121 | which rows an attempt may claim, the unresolved-operation and expiry guards said directly |
| WriteClaim.StepMeaning | packages/availability/src/xero-write-claim.ts:47-95 | only local actions claim without an active connection; a release clears the stamp of a row of the caller's tenant that carries it |
| WriteClaim.AvailabilityRecords.Release | packages/availability/src/xero-write-claim.ts:75-95 | is the release step of the runs below, and true exactly when the caller's stamp was still there |
| WriteClaim.StampSinceClaim | packages/availability/src/xero-write-claim.ts:41-71 | until its release, a claim's stamp stays or gives way to one more than a lease later |
| WriteClaim.ClaimsAreALeaseApart | packages/availability/src/xero-write-claim.ts:41-71 | over every run without back-dated claims, two claims with no successful release between them are more than five minutes apart |
| WriteClaim.OneHolderInsideLease | packages/availability/src/xero-write-claim.ts:97-107 | at no time are two holders inside their leases |
| WriteClaim.SupersededReleaseFails | packages/availability/src/xero-write-claim.ts:75-95 | the release of a superseded holder fails and leaves the newer claim |
| WriteClaim.LateReleaseGoesByStamp | packages/availability/src/xero-write-claim.ts:75-95 | a repeated release clears the next claim exactly when both have the same millisecond |
| WriteClaim.LeaseHoldsExactly | packages/availability/src/xero-write-claim.ts:41-71 | a claim keeps everybody else out for five minutes if and only if its stamp is not before the clock it is made at |
| WriteClaim.BackdatedStampBreaksLease | packages/availability/src/xero-write-claim.ts:32-73 | two claims at one instant, the first with a back-dated stamp |
| TenantRun.EffectsExact | packages/database/src/tenant-db.ts:63-83 | after a commit each effect is attempted in registration order, once, or twice exactly when the first attempt failed, and reported exactly when both did; none stops a later one |
| TenantScope.TenantRuntime.AssertTenantDb | packages/database/src/tenant-db.ts:45-51 | passes exactly inside the open scope of the client, for the tenant that opened it |
| TenantScope.TenantRuntime.AfterTenantCommit | packages/database/src/tenant-db.ts:53-61 | is the registration step of TenantRun: last in order, and only inside an open scope |
| TenantScope.TenantRuntime.BeginScope | packages/database/src/tenant-db.ts:106-110 | is the opening step of TenantRun on a client never used before |
| TenantScope.TenantRuntime.RunEffect | packages/database/src/tenant-db.ts:63-83 | is the try of the effect whose turn it is and, exactly when that fails, the retry step of TenantRun, and shows just their entries |
| TenantScope.TenantRuntime.WithTenantDb | packages/database/src/tenant-db.ts:85-128 | one call, as a run of those steps: the result is the callback's whatever its effects do; the trace is a roll-back alone or a commit and then its effects; the two maps are those from before the call |
| TenantScope.RunActionsMeaning | packages/database/src/tenant-db.ts:45-61 | a callback runs to its end exactly when every ownership check names its own account, with all its effects registered in order |
| TenantScope.BlankMeaning | packages/database/src/tenant-db.ts:90-94 | which account ids are let through |
| TenantScope.TenantRuntime.EndScope | packages/database/src/tenant-db.ts:115-121 | is the settling and then the revoking step of TenantRun |
| TenantScope.WithTenantResult | packages/database/src/tenant-db.ts:130-158 | a failed result is returned as it is, with its transaction rolled back and no effect run, unless the roll-back fails otherwise; a success means a commit; everything else is an exception |
| TenantRun.InvReachable | packages/database/src/tenant-db.ts:85-128 | in every reachable state of any number of interleaved calls, each call's trace is exactly that of its phase and its registered effects |
| TenantRun.OwnedOnlyInside | packages/database/src/tenant-db.ts:97-120 | a client is owned and takes effects exactly while its own call is inside its scope, by the owner that opened it |
| TenantRun.TriedOnlyAfterCommit | packages/database/src/tenant-db.ts:63-128 | an effect is tried only after its transaction committed and its client was revoked |
| TenantRun.TraceExact | packages/database/src/tenant-db.ts:63-128 | every call has left nothing, a roll-back alone, or a beginning of its commit and all entries of its effects in order, and all of them at the end |
| TenantRun.PendingIsAccepted | packages/database/src/tenant-db.ts:53-61 | a call's effects are exactly those registered with its client inside its scope, in order of registration, whatever other calls do |
| TenantRun.GoesOn | packages/database/src/tenant-db.ts:63-83 | a committed call can always take its next effect, whatever failed before |
| TenantRun.StepSparesOthers | packages/database/src/tenant-db.ts:85-128 | a step of one call changes nothing of another |
| ReleaseRun.InvStep | tooling/release/run-live-integration.ts:76-262 | every step, crash, start and test write of any run keeps the invariant of all runs |
| ReleaseRun.InvReachable | tooling/release/run-live-integration.ts:76-262 | the invariant holds in every reachable state |
| ReleaseRun.FixturesOnlyWhileSlotHeld | tooling/release/run-live-integration.ts:136-253 | a run's fixture rows exist only while the shared slot holds that run's id |
| ReleaseRun.OneRunAtATime | tooling/release/active-run-registry.ts:30-66 | two different runs are never between acquire and release at once |
| ReleaseRun.SlotFreedOnlyWhenClean | tooling/release/run-live-integration.ts:213-262 | a slot is given up only by its own run without rows left: untested, or after a cleanup that exited with 0, no exception, and the stored digest unchanged |
| ReleaseRun.DigestsAreKept | tooling/release/active-run-registry.ts:78-92 | a stored baseline digest is never replaced |
| ReleaseRun.TestsStartGuarded | tooling/release/run-live-integration.ts:170-200 | tests run only on the run's own slot with its baseline stored |
| ReleaseRun.TestsNeedIsolation | tooling/release/run-live-integration.ts:136-203 | each step on the way to the tests is taken only through its own check: clean baseline, snapshot digest, its first storing, isolation |
| ReleaseRun.RowsOnlyFromTests | tooling/release/run-live-integration.ts:197-203 | no step but the tests adds fixture rows |
| ReleaseRun.ActionsFit | tooling/release/live-run-mode.ts:8-27 | in every reachable state only a new or preacquired run on a slot it has taken tests, and only a recovery of a run found interrupted goes straight to cleanup |
| ReleaseRunner.Runner.AcquireActiveRun | tooling/release/active-run-registry.ts:30-48 | acquired exactly on a free slot, interrupted exactly on one's own, whatever the network loses |
| ReleaseRunner.Runner.ReleaseActiveRun | tooling/release/active-run-registry.ts:50-66 | frees only the run's own slot, and says so only when it knows |
| ReleaseRunner.Runner.PersistCatalogueDigest | tooling/release/active-run-registry.ts:78-92 | stores a digest only where there is none |
| ReleaseRunner.Runner.ApplyCleanup | tooling/release/cleanup.ts:345-362 | exits with 0 only on the run's own slot with its rows gone |
| ReleaseRunner.Runner.CleanUpAndRelease | tooling/release/run-live-integration.ts:207-264 | the exit status, the recorded cleanup status, when the finally block or the rethrow ends in an exception, and that the slot is given up only then |
| ReleaseRunner.Runner.RunLiveIntegration | tooling/release/run-live-integration.ts:43-264 | the script leaves the shared state of the step system; for every mode, exactly when it returns 0: with a free slot, no rows of the run and, for a test run, an isolation check and tests that passed; "released" is recorded only for a free slot |
| ReleaseRunner.Runner.RunTests | tooling/release/run-live-integration.ts:170-206 | the try block succeeds exactly when snapshot, first storing and isolation check do, and only then tests and adds rows |
| ReleaseRunner.RecoveryFrees | tooling/release/run-live-integration.ts:200-262 | exactly when a recovery frees an interrupted run, and that it then leaves no row |
| ReleaseRunner.TestRunFrees | tooling/release/run-live-integration.ts:112-262 | exactly when a new or preacquired run that holds the slot gives it back, whether or not its tests pass |
| ReleaseRunner.CleanupRunsAnyway | tooling/release/run-live-integration.ts:170-253 | whatever fails from the snapshot on and whatever the tests do, a cleanup that succeeds leaves no row of the run |
| ReleaseRunner.VerifyKeepsOrReturns | tooling/release/verify-live-target.ts:32-48 | target verification keeps a slot it takes, unless a recovery finds nothing interrupted |
| FeedService.SlugifyWellFormed | packages/feeds/src/feed-service.ts:1345-1352 | every slug is a non-empty string of a-z and 0-9 words joined by single hyphens |
| FeedService.SlugifyIsWords | packages/feeds/src/feed-service.ts:1345-1352 | a slug is the words of the name joined by single hyphens |
| FeedService.SlugifyIdempotent | packages/feeds/src/feed-service.ts:1345-1352 | slugs slugify to themselves |
| FeedService.SlugifyKeepsLetters | packages/feeds/src/feed-service.ts:1345-1352 | a slug keeps every letter and digit of the name in order, and a name without any gives "feed" |
| FeedService.CandidatesDiffer | packages/feeds/src/feed-service.ts:1322-1343 | the numbered candidates are pairwise different |
| FeedService.CandidateTexts | packages/feeds/src/feed-service.ts:1322-1343 | they are the base, base-2, base-3 and so on |
| FeedService.FeedTable.MakeUniqueSlug | packages/feeds/src/feed-service.ts:1322-1343 | ends by counting the finitely many taken slugs, with the first free candidate |
| FeedService.FeedTable.Create | packages/feeds/src/feed-service.ts:219-337 | the creation the three entry points share: which refusal, or one new active feed with the first free slug and one token |
| FeedService.FeedTable.CreateFeed | packages/feeds/src/feed-service.ts:255-337 | who may create, which error otherwise, and that slugs stay unique per account |
| FeedService.FeedTable.EnsureDefaultCalendarFeed | packages/feeds/src/feed-service.ts:339-456 | an account with a default feed gets that feed back unchanged, so repeated calls return one feed; never two defaults |
| FeedService.FeedTable.CreateOwnFeed | packages/feeds/src/feed-service.ts:893-1006 | a double submit returns the existing feed; which error otherwise |
| FeedService.FeedTable.FindOwn | packages/feeds/src/feed-service.ts:1104-1174 | the oldest own feed of the kind, or none exactly when there is none |
| FeedService.FeedTable.Authorise | packages/feeds/src/feed-service.ts:1185-1221 | who may change a feed: others than admins only a feed they created in their account and without an organisation scope; a feed outside the actor's reach is refused like one that does not exist |
| FeedService.ReachMeaning | packages/feeds/src/feed-service.ts:1185-1221 | a feed of another account or company is answered as if it did not exist, whatever is asked |
| FeedService.OwnerMeaning | packages/feeds/src/scope/feed-ownership.ts:23-35 | whose feed a feed is |
| FeedService.OwnFeedMeaning | packages/feeds/src/feed-service.ts:1130-1144 | what counts as an own personal or team feed |
| FeedService.FeedTable.UpdateFeed | packages/feeds/src/feed-service.ts:458-567 | the error of every refusal in its order; a success changes name and scopes and never the slug; for a call that nothing comes between |
| FeedService.FeedTable.TransitionFeed | packages/feeds/src/feed-service.ts:1050-1100 | pause and resume: the error of every refusal, only the status changes, slugs stay unique; for a call that nothing comes between |
| FeedService.FeedTable.ArchiveFeed | packages/feeds/src/feed-service.ts:575-628 | archiving marks both columns and revokes every active token |
| FeedService.FeedTable.RestoreFeed | packages/feeds/src/feed-service.ts:630-671 | restoring brings a feed back paused and without a token; for a call that nothing comes between |
| FeedService.AddingKeeps | packages/feeds/src/feed-service.ts:255-337 | adding a feed with a free slug keeps slugs unique per account and one default feed at most |
| FeedService.ChangingKeeps | packages/feeds/src/feed-service.ts:458-671 | changing anything but account and slug keeps them too, and archived feeds without active tokens |
| FeedRun.AloneIsAtOnce | packages/feeds/src/feed-service.ts:458-671 | three steps that nothing comes between do what the methods above do at once |
| FeedRun.RefusedAlone | packages/feeds/src/feed-service.ts:458-671 | a refused change leaves nothing behind |
| FeedRun.SlugsStayUnique | packages/feeds/src/feed-service.ts:255-1343 | in every reachable state of any number of interleaved creations, changes and break-offs no two feeds of an account share a slug and no account has two default feeds |
| FeedRun.WriteAgrees | packages/feeds/src/feed-service.ts:1065-1084 | a write keeps status, archive time and tokens in agreement exactly unless it pauses or resumes a feed that is archived by then |
| FeedRun.StatusAgreesExactly | packages/feeds/src/feed-service.ts:458-671 | they agree throughout a run exactly when no pause or resume of it writes to a feed archived since its read |
| FeedRun.ResumeAfterArchive | packages/feeds/src/feed-service.ts:1065-1084 | for every paused feed: a late resume leaves it active, archived and without a token |
| FeedRun.StuckRefusesAll | packages/feeds/src/feed-service.ts:1065-1078 | such a feed refuses every change: with feed_archived, and a restore with invalid_status_transition |
| FeedRun.StuckForEver | packages/feeds/src/feed-service.ts:1065-1078 | and no run changes it any more |
| FeedRun.StuckFeedReachable | packages/feeds/src/feed-service.ts:1065-1084 | one is reachable from an empty table |
| FeedRun.RestoreAfterResume | packages/feeds/src/feed-service.ts:637-656 | a late restore pauses a feed that was restored and resumed meanwhile |
| FeedRun.RenameAfterArchive | packages/feeds/src/feed-service.ts:488-529 | a late update changes an archived feed |
| RedactUrl.RedactBasicAuthInUrl | packages/core/src/redis-rest-transport.ts:31-66 | the index-driven loop over the growing string ends and equals a plain scan of the message that skips no position: all other text is kept in order |
| RedactUrl.TextIsKept | packages/core/src/redis-rest-transport.ts:31-66 | cut into pieces, the message keeps every piece in place but those with a ":" and no "/" or "@", which become the mask |
| RedactUrl.ResultIsClean | packages/core/src/redis-rest-transport.ts:31-66 | in every result each "://" whose first following "@" has a ":" and no "/" before it has exactly the mask there |
| RedactUrl.EverySecretMaskedExactly | packages/core/src/redis-rest-transport.ts:31-66 | the same for every following "@", if and only if no "://" of the message is followed by two "@" with no "/" before the second and a ":" before it |
| RedactUrl.SecondAtExamples | packages/core/src/redis-rest-transport.ts:31-66 | two messages for which it fails, with their results |
| RedactUrl.RedactionIdempotent | packages/core/src/redis-rest-transport.ts:31-66 | redacting again changes nothing |
| IssueBody.FenceOutlastsContent | packages/core/src/support-submission.ts:135-154 | no text holds as many backticks in a row as its fence |
| IssueBody.FenceIsShortest | packages/core/src/support-submission.ts:135-154 | and the fence is no longer than it must be |
| IssueBody.CreateDynamicCodeFence | packages/core/src/support-submission.ts:135-154 | the loop over the matches computes that fence |
| IssueBody.WrapUntrustedContent | packages/core/src/support-submission.ts:156-164 | the truncated text between its fences |
| IssueBody.CloserAfterContent | packages/core/src/support-submission.ts:156-164 | a CommonMark reader closes the fence at its own last line and nowhere inside the text, whatever line endings the text has |
| IssueBody.FenceRule | packages/core/src/support-submission.ts:156-164 | the fence rule of the reader: which lines of backticks open a code fence and which close it |
| IssueBody.SanitizedIsOneLine | packages/core/src/support-submission.ts:166-171 | a metadata value is one trimmed line with single spaces and no control characters |
| IssueBody.SanitizeKeepsVisible | packages/core/src/support-submission.ts:166-171 | and keeps every character that is neither white space nor control, in order |
| IssueBody.MetadataLineIsPlain | packages/core/src/support-submission.ts:173-192 | a metadata row is one line and opens no fence, whatever its value |
| IssueBody.BuildSupportIssueMarkdownBody | packages/core/src/support-submission.ts:194-240 | the pushed sections joined by line breaks are the rendered parts |
| IssueBody.BodyRoundTrip | packages/core/src/support-submission.ts:194-240 | reading any body gives back every heading and metadata row outside fences, and in order exactly the truncated subject, message and optional texts |
| IssueBody.BodyContents | packages/core/src/support-submission.ts:194-240 | the blocks a reader finds, one by one: every text, cut to its length, in its own fence under its own heading |
| IssueBody.MetadataMeaning | packages/core/src/support-submission.ts:173-192 | which value stands under which name, in which order |
| FixtureSlots.SlotHasOneOwner | packages/database/src/live-test-fixture.ts:248-259 | by the prefix sums every slot below the total belongs to exactly one suite |
| FixtureSlots.AllocatesForAll | packages/database/src/live-test-fixture.ts:223-290 | an allocation succeeds exactly for the suites of the table on a manifest that suffices for all of them |
| FixtureSlots.AllocationFaults | packages/database/src/live-test-fixture.ts:223-290 | which complaint an allocation fails with |
| FixtureSlots.TenantsCover | packages/database/src/live-test-fixture.ts:248-259 | the suites' tenants one after the other are exactly the required slots in order |
| FixtureSlots.TenantsDisjoint | packages/database/src/live-test-fixture.ts:248-259 | different suites share no Clerk organisation and no organisation |
| FixtureSlots.AllocationsDisjoint | packages/database/src/live-test-fixture.ts:204-259 | what two allocations of different suites return shares no Clerk organisation and no organisation |
| FixtureSlots.AllocationsCover | packages/database/src/live-test-fixture.ts:204-259 | what the allocations of all suites return is, in table order, exactly the required slots |
| FixtureSlots.GlobalKeysDisjoint | packages/database/src/live-test-fixture.ts:271-304 | nor a global key of a kind, and no suite gets a key twice |
| FixtureSlots.GlobalKeysCover | packages/database/src/live-test-fixture.ts:271-304 | every required key of a kind is some suite's |
| FixtureSlots.OneKindPerKey | packages/database/src/live-test-fixture.ts:271-272 | no key counts for two kinds |
| FixtureSlots.BuiltManifestSuffices | tooling/release/manifest-fixtures.ts:14-75 | a manifest serves every suite of any table if the uuids drawn for it are distinct |
| FixtureSlots.RunMarkerMeaning | tooling/release/manifest-fixtures.ts:58 | the marker is the run id without its hyphens |
| FixtureSlots.LocalTenantsDisjoint | packages/database/src/live-test-fixture.ts:148-164 | locally numbered tenants of different suites differ too |
| FixtureSlots.LocalKeysDisjoint | packages/database/src/live-test-fixture.ts:165-192 | nor do locally numbered global keys, within a kind or across kinds, of the four kinds that are not hashed |

## Left out

- CountExpansionDays: says nothing of count rules whose last candidate lies beyond year 9999.
- DateKeysBetween: is stated on keys of real dates; `new Date` on an impossible date such as 2024-02-30 is implementation-defined.
- DaysTileRange: covers timed records; all-day records are matched by key and covered by QueryWindowComplete.
- StartOfDayIsMidnight: supposes whole-second offsets of at most a day and one offset change near the day; reading offsets out of `Intl.DateTimeFormat` is not modelled, nor `Date.UTC` moving wall-clock years 0 to 99 to the twentieth century.
- QueryWindowComplete: supposes that an all-day record starts by 9999-12-31; the key of a later one begins with a sign and matches every day.
- WithTenantDb: an effect is a name and the outcome of its two possible attempts; what it does is not modelled, nor whether a caller is inside another scope (a parameter), nor the database session variable set before the callback.
- RunLiveIntegration: one live process per run id, its child processes ending with it; the evidence file, the phase names and exit statuses above 1 are not modelled, and the manifest checks before the ownership phase are taken as passed.
- ApplyCleanup: the order of the deletions is not modelled: a failing cleanup may have removed the run's rows or left them.
- Create: that a refused creation leaves the table as it was rests on its caller's `withTenantResult` rolling back a row already inserted; token contents, rotation and cache invalidation are not part of this model.
- SlugsStayUnique: the account's plan-limit lock, which only the three creations take, is taken as keeping two creations of one account apart until the first has committed; reads see committed rows only, the default isolation of the database.
- UpdateFeed: this method, `TransitionFeed`, `ArchiveFeed` and `RestoreFeed` are calls that nothing comes between; what may come between their reads and writes is in `FeedRun.dfy`.
- MakeUniqueSlug: takes the name already lowered; `toLowerCase` on characters outside ASCII is not modelled.
- BodyRoundTrip: characters are Unicode scalar values, so a cut through a surrogate pair is not modelled, and lengths count such values where JavaScript counts UTF-16 code units; of CommonMark only fences and line endings are modelled, and issue titles and labels are left out.
- LocalTenantsDisjoint: the organisation ids and the two kinds of keys that hash a slot with SHA-256 are left out.
- Numbers are unbounded integers: rounding of JavaScript numbers and non-integer intervals or counts are not modelled.
- Moving a `Date` object by `setUTCDate` inside `addDays` and `addDaysToDateKey` is modelled on values, as the object never leaves the function.
- Cursor text is modelled by what it decodes to; base64, JSON and the schema check of a decoded cursor become the cases of a datatype.
- The unread-count cache, actor names and list-item formatting of the notification list.
- Rule descriptions, default rules and labels of the recurrence form.
- Feed lists, details, oversight counts, tokens and rendering.
- Prisma, PostgreSQL, the key-value store, Clerk, Xero, Stripe and Inngest beyond the single steps named above, and everything in the user interface.
