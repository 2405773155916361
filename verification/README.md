# QUADS: the reservation allocator, verified

QUADS lends bare-metal hosts to teams. A *reservation* (schedule) promises one host to one *assignment* of a cloud
for a half-open interval `[start, end)`. Everything rests on one invariant: no host is promised to two reservations
at the same instant. This project models how reservations are created, edited and ended, states that invariant over
whole runs of concurrent requests, and then follows it to the parts of the system that silently rely on it.

`dafny verify dfyconfig.toml` checks the whole project.

## How the modules fit together

| module | what it is about |
|---|---|
| `Wrappers`, `Text` | option, result, list filter; Python's text operations on ASCII |
| `Reservations` | hosts, assignments, reservations; the availability loop; the invariant `Disjoint`; the current-reservation query |
| `SelfSchedule` | the end a self-scheduled reservation is given |
| `CreateProtocol` | single and batch creates as interleaved transactions: row locks, committed reads, program counters |
| `CreateSafety`, `CreateProgress`, `CreateLimits` | no double booking; no deadlock and bounded work; one active assignment per cloud and the host cap |
| `CreateHandlers`, `CreateAlone` | the two create requests as handlers; an uninterrupted transaction does exactly what its handler does |
| `Edits` | extend, shrink and terminate, in place on the reservation table; which rows a command selects |
| `History` | finished creates, extensions, shrinks and terminations in sequence |
| `Utilization`, `AvailableReport`, `Months` | reserved time per window, sampled utilization, the calendar months of a report |
| `Summary` | the grouped availability query against the per-host check |
| `Assignments` | the assignment table under its five writers |
| `Moves`, `ForemanHeal` | the move list and the move wave; the ownership reconciler |
| `RemoteFile`, `RemoteCalls` | replacing a remote file with a backup, under arbitrary faults; calls in a row |
| `SpeedStatements` | EOS speed statements, printed and read back |
| `Filters`, `FilterRoundTrip` | host filters: command-line parser composed with the server's decoder |

Times are integers counting microseconds. `Disjoint` says that no two rows of a host share an instant, so a row left
empty (`start == end`) by terminate never clashes. Host and cloud names are represented by their rank in name order.

In `CreateProtocol` one step is the request for one lock, the availability check of one host, the commit, or one of
two short groups of reads: those on entry, and the assignment with the current count under the cloud's lock. Between
two steps of a transaction any other transaction may step, the clock may advance, a reservation may be cut short or
extended and an assignment may end. A request that arrives later is a transaction that has not yet taken its first
step. Row locks are exclusive and held until commit or rollback; reads see committed rows. The unlocked pre-check of a batch may be switched to answer
*arbitrarily* (`PreCheckMode.Arbitrary`): the safety and progress theorems hold all the same.

## What the proofs found

Where the code does less than one would expect, the exact condition is proved. Lemmas with a concrete input are named
beside it.

- A batch that names a free host twice passes every check. It is safe exactly when the names are distinct
  (`BatchSafeExactlyWhenHostsDistinct`); `RepeatedHostIsDoubleBooked` is a request that is granted and double books.
- An extension takes no host lock, so it may come between another request's checks and its commit. It always leaves
  the store itself disjoint. It breaks what the requests under way rely on exactly when it reaches into a window that
  one of them has already found free (`ExtendSafeExactlyWhen`). Left to itself such a request then double books
  exactly when the hosts it has still to check are free after the extension, else it is refused
  (`OvertakenDoubleBooksExactlyWhen`; at the commit, `CommitAfterExtend`). `ExtensionSlipsIn` constructs the run,
  `SlippedInExtensionDoubleBooks` one from an initial state with one host.
- A reservation that does not end on a whole minute can never be extended, by weeks or to a date: its own last
  seconds block the floored window (`ExtendableExactlyWhen`, `ExtendableToDateExactlyWhen`).
- Extending whatever the command selects is always safe, although all checks precede all updates
  (`ExtendOfSelectionKeepsDisjoint`). That rests on no selected row being empty, which `History` proves to hold over
  every sequence of operations; `EmptyRowBreaksExtend` shows on an arbitrary table why it is needed.
- Shrinking can push an end past the old end, but only for a reservation shorter than its floored first minute
  (`ShrinkBounds`). With no other writer between its check and its updates a shrink is always safe
  (`ShrinkOfSelectionKeepsDisjoint`); on one arbitrary table `ShrinkKeepsDisjoint` is the exact condition.
- A shrink waits for a confirmation, and sends ends worked out from what it read before. If others write meanwhile it
  is safe exactly when no sent end reaches into a reservation starting at or after the row's present end
  (`OvertakenShrinkExactlyWhen`). `OvertakenShrinkDoubleBooks` has a row terminated and its host taken again while the
  confirmation is pending; `ShortLifetimeBreaksShrink` a row that merely expired.
- Terminate reads the clock again for each row: safe exactly when no row expires between the query and its own
  reading with another starting in between (`TerminateKeepsDisjoint`, `LateClockBreaksTerminate`).
- With a fractional default lifetime a self-scheduled reservation can outlast its lifetime
  (`FractionalLifetimeCanBeExceeded`); `EndIsEarlierOfLifetimeAndDeadline` says exactly when.
- A move wave changes the target of a host if and only if the host's current reservation is in a cloud that counts
  as vacated and is not its default cloud (`TargetKeptExactlyWhen`). That happens to a broken host
  (`BrokenHostLosesItsTarget`) and never to a usable one (`UsableHostKeepsTarget`).
- Windows that are not whole days can be reported above 100 percent: two hosts reserved for a day and a half give
  150 (`DayAndAHalfOverflows`). A window never is if and only if the percentage of its full booking, a number
  computed from the host count and the window's length alone, is not (`NeverAboveHundredExactlyWhen`).
- The filter value "none" stands for SQL null, but is upper-cased on the way for every plain attribute except the
  boot mode (`NoneArrivesAsNull`).
- The cloud and assignment decoders do not reset the operator between parameters, so an equality after another
  comparison is read as that comparison: exactly when some equality follows another comparison
  (`StickyOperatorsAgree`, `StickyOperatorMisread`).
- Replacing a remote file keeps the old content, whatever fails, if and only if it is at the path when the call starts
  (`CallKeepsExactlyWhen`). A failed call may leave it at the backup only, and a retry that does not look then removes
  that (`RetryLosesBoth`).
- At 100 Gbps the plain Mbps rendering of a speed is never accepted (`CanonicalMatches`).

## Model

| member | source | states |
|---|---|---|
| Reservations.IsHostAvailable | src/quads/server/dao/schedule.py:379-404 | the loop answers true exactly when the host exists, is neither broken nor retired, and no row of it, apart from the excluded one, blocks the window |
| Reservations.BlocksMeansSharedInstant | src/quads/server/dao/schedule.py:389-402 | the three branches are interval intersection: a non-empty row blocks a window exactly when some instant lies in both; for a point window exactly when it covers the instant; an empty row only from strictly inside |
| Reservations.AvailableExactlyWhenInsertSafe | src/quads/server/dao/schedule.py:379-404 | on a disjoint store an available window can be reserved without double booking, and, with no empty rows on the host, only an available one can |
| Reservations.InsertKeepsDisjoint | src/quads/server/dao/schedule.py:26-53 | adding any number of non-empty rows on different unblocked hosts keeps the store disjoint and ordered |
| Reservations.DisjointMeansOneCurrentPerHost | src/quads/server/dao/schedule.py:286-288 | the store is disjoint if and only if at every instant each host has at most one current row, back-to-back handovers included |
| Reservations.CurrentOfHostIsUnique | src/quads/server/dao/schedule.py:270-293 | in a disjoint store the current-reservation query for a host returns at most one row, so taking the first is unambiguous |
| Reservations.ActiveOf | src/quads/server/dao/assignment.py:201-206 | the lookup finds an active assignment of the cloud if there is any |
| SelfSchedule.RefusedExactlyAfterDeadline | src/quads/server/blueprints/schedules.py:364-380 | a self-schedule request is refused exactly on the deadline's weekday at or after its hour |
| SelfSchedule.DeadlineIsTheNextOne | src/quads/server/blueprints/schedules.py:360-367 | the deadline is the least instant of its weekday and hour not before today, and less than seven days away |
| SelfSchedule.EndIsEarlierOfLifetimeAndDeadline | src/quads/server/blueprints/schedules.py:364-371 | the end is the earlier of lifetime and deadline if and only if the deadline does not fall after the lifetime on a day the lifetime reaches into; always so for whole-day lifetimes; never a day or more past the lifetime |
| SelfSchedule.FractionalLifetimeCanBeExceeded | src/quads/server/blueprints/schedules.py:364-371 | a half-day lifetime at one o'clock on the deadline's day runs for twenty hours |
| CreateProtocol.Lowest | src/quads/server/dao/host.py:114-119 | the next row to lock is the first in name order among those still to lock |
| CreateSafety.NeverDoubleBooked | src/quads/server/blueprints/schedules.py:294-424 | main result: in every state reachable by any interleaving of any number of single and batch creates, clock ticks, shortened rows and ended assignments, the committed store is disjoint, whatever the unlocked pre-check answers |
| CreateSafety.NeverDoubleBookedByExtending | src/quads/server/blueprints/schedules.py:528-566 | the same with accepted extensions anywhere in the run, each made when it disturbs no transaction under way |
| CreateSafety.ExtendSafeExactlyWhen | src/quads/cli/cli.py:1014-1056 | an accepted extension always leaves the store disjoint; it keeps the inductive invariant, what the transactions under way rely on, if and only if it reaches into no window one of them has already found free |
| CreateSafety.CommitAfterExtend | src/quads/server/blueprints/schedules.py:415-424 | a commit that follows an extension double books if and only if the extension disturbed it, as the extension takes no host lock |
| CreateSafety.RunKeepsSafe | src/quads/server/blueprints/schedules.py:729-806 | every step keeps the inductive invariant: locks held by exactly the right transactions, the store disjoint, and every host found free under its lock still free |
| CreateSafety.StepKeepsLocks | src/quads/server/dao/host.py:114-119 | every event keeps the lock discipline: a lock belongs to one transaction that is between taking and releasing it, and hosts are taken in name order |
| CreateSafety.CommitLeavesOthersFree | src/quads/server/blueprints/schedules.py:759-806 | a commit cannot take a host that another transaction has checked, because that host is locked by the other |
| CreateSafety.CommitSafeExactlyWhenHostsDistinct | src/quads/server/blueprints/schedules.py:761-805 | a checked commit keeps the store disjoint if and only if the request names no host twice |
| CreateSafety.EffectShape | src/quads/server/dao/cloud.py:67-70 | the cloud lock is taken first, host locks only in the host-locking phase and lowest name first, and only the last step commits |
| CreateProgress.NoDeadlock | src/quads/server/dao/host.py:114-119 | while a transaction is unfinished some transaction can step |
| CreateProgress.HolderCanAct | src/quads/server/dao/host.py:114-119 | following the chain of waits from a locked host leads, by ascending host names, to a transaction that can step |
| CreateProgress.StepsAreBounded | src/quads/server/blueprints/schedules.py:729-806 | however a run is scheduled, steps taken plus remaining rank never exceed the initial rank |
| CreateProgress.CanFinish | src/quads/server/blueprints/schedules.py:294-424 | from any state with consistent locks, steps of the transactions alone, no more than their rank, finish all of them |
| CreateProgress.EveryTransactionFinishes | src/quads/server/blueprints/schedules.py:294-424 | main result: every run, however it went, can be continued by the transactions' own steps until each has committed or rolled back, some transaction can step exactly while one is unfinished, and a whole run takes no more steps than the initial rank |
| CreateLimits.BatchesKeepOneActivePerCloud | src/quads/server/blueprints/schedules.py:740-757 | batches that each create an assignment leave every cloud with at most one active one under any interleaving, by the re-check under the cloud lock |
| CreateLimits.CommitCount | src/quads/server/blueprints/schedules.py:323-331 | a commit adds at most one to the current count of its own cloud and nothing to any other |
| CreateLimits.CapHoldsAlways | src/quads/server/blueprints/schedules.py:323-331 | a self-scheduled cloud filled by single requests never holds more than the limit of current reservations, at every moment of every interleaving with a monotone clock |
| CreateHandlers.Scheduler.CreateSchedule | src/quads/server/blueprints/schedules.py:294-424 | the handler grants exactly the requests described by SingleResult, leaves exactly those tables, changes nothing on refusal, and keeps the store disjoint |
| CreateHandlers.Scheduler.Unavailable | src/quads/server/blueprints/schedules.py:760-768 | the loop collects exactly the hosts that are unknown, unusable or taken, and nothing is collected exactly when all are free |
| CreateHandlers.Scheduler.CreateSchedulesBatch | src/quads/server/blueprints/schedules.py:602-806 | a batch is all or nothing: granted exactly under the described conditions with one row per host, else no change; distinct names keep the store disjoint |
| CreateHandlers.ResultKeepsDisjoint | src/quads/server/blueprints/schedules.py:415-424 | whatever is granted keeps the store disjoint and adds exactly one row per named host |
| CreateHandlers.BatchSafeExactlyWhenHostsDistinct | src/quads/server/blueprints/schedules.py:760-805 | end to end: a granted batch leaves a disjoint store if and only if it names no host twice |
| CreateHandlers.RepeatedHostIsDoubleBooked | src/quads/server/blueprints/schedules.py:760-805 | a concrete request naming one free host twice is granted and books it twice |
| CreateHandlers.BatchIsAnOperation | src/quads/server/blueprints/schedules.py:760-801 | the assignments a batch leaves are those of the table's batch create with host availability as actually checked |
| CreateHandlers.GrantedOnlyOnce | src/quads/server/blueprints/schedules.py:602-806 | no request can be granted twice in a row |
| CreateAlone.StepKeepsVerdict | src/quads/server/blueprints/schedules.py:294-424 | no step changes the tables an undisturbed transaction will finally leave, rollback happens only if it must be refused, and the commit leaves exactly them |
| CreateAlone.AloneFinishes | src/quads/server/blueprints/schedules.py:602-806 | main result: an undisturbed transaction of the protocol ends, commits if and only if its handler grants the request, and leaves the handler's tables |
| CreateAlone.ChecksToTheEnd | src/quads/server/blueprints/schedules.py:759-806 | from its checks on a transaction waits for nothing: its own steps commit it exactly when no host was found taken and all still unchecked ones are free |
| CreateAlone.OvertakenDoubleBooksExactlyWhen | src/quads/server/blueprints/schedules.py:759-806 | after an extension the own steps of a transaction among its checks end in a double booking if and only if the extension disturbed it and every host still to check is free after it |
| CreateAlone.ExtensionSlipsIn | src/quads/server/blueprints/schedules.py:415-424 | whenever an extension and a request are both acceptable, some run makes the extension just before the request commits and leaves the extended and the granted rows side by side |
| CreateAlone.SlippedInExtensionDoubleBooks | src/quads/server/blueprints/schedules.py:415-424 | from a concrete initial state such a run ends in a double booking |
| Edits.ReservationTable.UpdateEnd | src/quads/server/blueprints/schedules.py:528-538 | an update is rejected exactly when the new end is not after the start; otherwise that row's end is the only change |
| Edits.ReservationTable.SendUpdates | src/quads/cli/cli.py:1048-1056 | the update loop applies all new ends exactly when each is after its start; else it stops with exactly a prefix applied |
| Edits.Selection | src/quads/cli/cli.py:999-1010 | the selected rows are different and exactly the current ones asked for, or exactly the future ones if no current one is |
| Edits.SelectionHasNoEmptyRow | src/quads/cli/cli.py:999-1010 | no selected row is empty, once the clock has moved past the last row left empty |
| Edits.ReservationTable.Select | src/quads/cli/cli.py:999-1010 | the loop selects the current rows asked for, else the future ones if confirmed |
| Edits.ReservationTable.Extend | src/quads/cli/cli.py:1014-1072 | refused exactly when some row fails its check, with nothing changed; else the accepted ends are replaced in order; order is kept, and non-empty selections never lead to double booking, also when updates stop early |
| Edits.ReservationTable.ExtendCommand | src/quads/cli/cli.py:967-1072 | the whole command, whatever it is asked for, keeps the store disjoint and ordered |
| Edits.ExtendOfSelectionKeepsDisjoint | src/quads/cli/cli.py:999-1056 | main result: extending what the command selects keeps the store disjoint and ordered, unconditionally |
| Edits.ExtendableExactlyWhen | src/quads/cli/cli.py:1014-1028 | a reservation of a usable host can be extended by weeks if and only if it ends on a whole minute and every row of the host ends by then or starts no earlier than the new end |
| Edits.ExtendableToDateExactlyWhen | src/quads/cli/cli.py:1014-1028 | the same for a date: not before the end, which is on a whole minute, with the host free until then; to the end itself, with no reservation beginning there |
| Edits.ExtendKeepsDisjoint | src/quads/cli/cli.py:1014-1056 | for any set of rows of any table: the whole set extended after checks against the old store is disjoint if and only if no two selected rows grow from one point |
| Edits.ExtendKeepsDisjointAtEveryUpdate | src/quads/cli/cli.py:1048-1056 | for non-empty rows the store is disjoint after every single update of the loop |
| Edits.ExtendNeverShortens | src/quads/cli/cli.py:1014-1028 | an accepted extension by weeks adds time and only applies to ends on a whole minute; an accepted whole-minute date never shortens |
| Edits.EmptyRowBreaksExtend | src/quads/cli/cli.py:1014-1056 | a fact about arbitrary tables, not a selection the command makes: with an empty row selected an accepted extension double books |
| Edits.ReservationTable.Shrink | src/quads/cli/cli.py:1128-1156 | refused exactly when some target lies before the start, after the end or too soon; else every update succeeds and all selected ends are replaced |
| Edits.ShrinkBounds | src/quads/cli/cli.py:1150-1156 | despite clamp and flooring the sent end is strictly after the start, and not after the old end exactly when the row reaches its floored first minute |
| Edits.ShrinkKeepsDisjoint | src/quads/cli/cli.py:1128-1156 | main result: shrinking a set of non-empty rows keeps the store ordered, and disjoint if and only if no floored first minute reaches into another row |
| Edits.ReservationTable.ShrinkCommand | src/quads/cli/cli.py:1074-1156 | the whole command, with no other writer in between, keeps the store disjoint and ordered |
| Edits.ShrinkOfSelectionKeepsDisjoint | src/quads/cli/cli.py:1128-1156 | main result: with later starts on the minute, shrinking what the command selects keeps the store disjoint and ordered, however short its rows are |
| Edits.MinuteEndsNeverCollide | src/quads/cli/cli.py:1150-1156 | on one table, selected reservations that end on a whole minute meet no case of ShrinkKeepsDisjoint's condition |
| Edits.ReservationTable.SendShrink | src/quads/cli/cli.py:1150-1156 | the update loop on ends worked out from an earlier reading: all are accepted, and the table stays disjoint exactly when none is sent too far |
| Edits.OvertakenUpdatesDisjoint | src/quads/cli/cli.py:1048-1056 | for any updates that other writers may have overtaken: disjoint afterwards if and only if no sent end reaches into a reservation starting at or after the row's present end |
| Edits.OvertakenShrinkExactlyWhen | src/quads/cli/cli.py:1128-1156 | main result for a shrink confirmed late: whatever was cut, extended or added meanwhile, that is the exact condition |
| Edits.OvertakenShrinkDoubleBooks | src/quads/cli/cli.py:1144-1156 | a concrete two-day reservation, terminated and its host taken while the confirmation is pending, is given back ten hours of the other's time |
| Edits.ShortLifetimeBreaksShrink | src/quads/cli/cli.py:1144-1156 | the same with a row nobody cut: under a thirty-second lifetime it expires and its host is taken again before the confirmation |
| Edits.ShrinkOfMinuteLongRows | src/quads/cli/cli.py:1150-1156 | rows at least a minute long can always be shrunk together, and none gets longer |
| Edits.ReservationTable.Terminate | src/quads/server/blueprints/assignments.py:621-633 | each selected row ends at its own reading of the clock; no other row changes |
| Edits.TerminateKeepsDisjoint | src/quads/server/blueprints/assignments.py:621-633 | terminating current rows keeps the store ordered, and disjoint if and only if no row expires before its clock reading with another row starting in between; always at one instant |
| Edits.LateClockBreaksTerminate | src/quads/server/blueprints/assignments.py:629-631 | a concrete handover at which a late clock reading double books |
| Edits.NewEndsDisjoint | src/quads/server/blueprints/schedules.py:528-538 | replacing ends of non-empty rows keeps a disjoint store disjoint if and only if no new end reaches into a later row |
| History.HistoryNeverDoubleBooks | src/quads/server/dao/schedule.py:379-404 | main result: no sequence of finished creates, extensions, shrinks and single-instant terminations ever books a host twice, whatever rows and times each asks for; no empty row starts after the clock and no later start is off the minute |
| History.OperationKeepsSound | src/quads/cli/cli.py:1014-1156 | each operation keeps the invariants the others need |
| Utilization.ClippedCountsInstants | src/quads/server/dao/schedule.py:299-305 | the least-minus-greatest arithmetic counts exactly the instants of the window that the reservation covers |
| Utilization.SplitAround | src/quads/server/dao/schedule.py:299-305 | the clipped time of a window is the sum of the parts before and after a row that overlaps no other |
| Utilization.PackingBound | src/quads/server/dao/schedule.py:299-318 | rows that never overlap fill a window at most once |
| Utilization.UsableHostsNeverOverfull | src/quads/server/dao/schedule.py:296-326 | from a disjoint store the clipped time summed over usable hosts is at most hosts times window length |
| Utilization.PercentageIsBounded | src/quads/tools/reports.py:194-199 | main result: the percentage is between 0 and 100 for whole-day windows and those under a day, and below 100 * (days + 1) / days for all others; NeverAboveHundredExactlyWhen is the exact condition |
| Utilization.FullIsLargest | src/quads/tools/reports.py:194-199 | no disjoint store is reported above the percentage of the full booking |
| Utilization.FullIsReached | src/quads/tools/reports.py:194-199 | booking each usable host once for the whole window is disjoint and is reported as exactly that percentage |
| Utilization.NeverAboveHundredExactlyWhen | src/quads/tools/reports.py:194-199 | the exact condition: no disjoint store is reported above 100 percent if and only if the formula for hosts and window length is at most 100 |
| Utilization.DayAndAHalfOverflows | src/quads/tools/reports.py:194-199 | a disjoint store of two hosts reserved for a day and a half is reported as 150 percent |
| Utilization.DoubleBookingOverflows | src/quads/tools/reports.py:194-199 | without the invariant the bound is false: one host booked twice is reported as 200 percent |
| AvailableReport.ReportAvailable | src/quads/tools/reports.py:75-87 | the loop's figure is the daily count over hosts times sampled days; it fails exactly when there is no usable host or no day, and from a disjoint store lies between 0 and 100 |
| AvailableReport.CountIsBounded | src/quads/server/blueprints/schedules.py:159-162 | for no date and at no time are more reservations shown as current than there are usable hosts, ended assignments' reservations on past dates included |
| AvailableReport.CountOfPastAndPresent | src/quads/server/blueprints/schedules.py:159-162 | a past date counts all shown reservations that cover it, one from the current minute on only those of active assignments, so it never counts more |
| AvailableReport.SampledUtilizationIsBounded | src/quads/tools/reports.py:82-90 | the printed utilization is between 0 and 100 percent for every period, past or to come |
| AvailableReport.DaysOfPeriod | src/quads/helpers/utils.py:50-54 | a period is sampled once for every day it begins, no more and no less |
| Summary.SummaryAgreesWithCheck | src/quads/server/dao/host.py:126-168 | main result: the two window counts are exactly the hosts the per-host check accepts, total minus scheduled are those free at the instant, and the four-week count never exceeds the two-week count |
| Summary.WindowCount | src/quads/server/dao/host.py:141-156 | the grouped count of hosts without overlap equals the number of hosts of the model that the availability check accepts |
| Summary.InstantCount | src/quads/server/dao/host.py:133-139 | total minus scheduled equals the number of hosts the point query accepts |
| Summary.PointWindowsDiffer | src/quads/server/dao/host.py:141-147 | on a point window the two tests differ exactly for reservations that start at that instant |
| Summary.TotalsCoverUsableHosts | src/quads/server/dao/host.py:157-168 | the groups' totals add up to all usable hosts, each counted once |
| Assignments.AssignmentTable.CreateAssignment | src/quads/server/blueprints/assignments.py:243-285 | an admin create adds one active row exactly when the cloud is known and idle, and keeps one active assignment per cloud |
| Assignments.AssignmentTable.CreateSelfAssignment | src/quads/server/blueprints/assignments.py:314-410 | a self create is accepted exactly within the user's limit and on an idle cloud, the asked one or the first free one, and keeps one active assignment per cloud |
| Assignments.AssignmentTable.CreateForBatch | src/quads/server/blueprints/schedules.py:740-801 | a batch adds an assignment exactly when it asks for one, the cloud is idle and its hosts are free; afterwards an accepted batch has an active assignment; BatchIsAnOperation supplies the availability |
| Assignments.AssignmentTable.TerminateAssignment | src/quads/server/blueprints/assignments.py:600-633 | ends exactly the named assignment and keeps one active assignment per cloud |
| Assignments.AssignmentTable.DeactivateOldCloud | src/quads/cli/cli.py:2259-2267 | an unoccupied cloud has no active assignment afterwards; nothing else changes; EndingIsAnOperation supplies the occupancy |
| Assignments.RunsKeepOneActive | src/quads/server/blueprints/assignments.py:244-260 | main result: every sequential run of the five operations keeps at most one active assignment per cloud |
| Assignments.FirstRowIsUnambiguous | src/quads/server/dao/assignment.py:201-206 | then the first-row lookup returns the same row in whatever order the table is read |
| Assignments.RunsKeepUserLimit | src/quads/server/blueprints/assignments.py:313-321 | over every run no user holds more self-scheduled assignments than the limit, unless an admin creates them |
| Assignments.SelfCreateTakesAnIdleCloud | src/quads/server/dao/cloud.py:77-88 | an accepted self create is on a known cloud that is idle and not the spare pool |
| Moves.GetMoves | src/quads/server/blueprints/moves.py:57-71 | the loop returns the move list in host order |
| Moves.MoveListMembers | src/quads/server/blueprints/moves.py:57-71 | a move is listed if and only if some host's target differs from its cloud, with exactly that host's target and cloud |
| Moves.OneMoveEach | src/quads/server/blueprints/moves.py:57-71 | no host is listed twice |
| Moves.GroupByTarget | src/quads/cli/cli.py:2096-2098 | the grouping has each target once, with exactly its moves in list order |
| Moves.VacatedIsQuiet | src/quads/cli/cli.py:2259-2267 | an assignment ended for a vacated cloud currently reserves no usable host |
| Moves.TargetsStableThroughWave | src/quads/cli/cli.py:2255-2267 | main result: whichever vacated clouds have lost their assignment, every usable host's target is what it was when the list was computed |
| Moves.EndedTwice | src/quads/cli/cli.py:2106-2267 | ending clouds group by group is ending them all at once, because ending one never makes another count as vacated or occupied |
| Moves.Inventory.EndVacated | src/quads/cli/cli.py:2255-2267 | the loop over old clouds ends exactly the active assignments of those without a visible current reservation, in any order |
| Moves.Inventory.MoveGroup | src/quads/cli/cli.py:2106-2296 | one target's moves: hosts whose switch failed are dropped, all old clouds are looked at, and exactly the released hosts change cloud |
| Moves.Inventory.MoveHosts | src/quads/cli/cli.py:2095-2296 | after the wave exactly the moves with a configured switch and a successful release are made and exactly the vacated old clouds have ended; a dry run changes nothing |
| Moves.SecondMoveList | src/quads/server/blueprints/moves.py:57-71 | main result: a second list at the same instant contains, of the usable hosts, exactly those whose move was not made |
| Moves.CompletedWave | src/quads/cli/cli.py:2095-2296 | when every switch and every release succeeds a second list contains no usable host |
| Moves.EndingIsAnOperation | src/quads/cli/cli.py:2259-2267 | each step of the wave's loop over old clouds is the assignment table's deactivation, with occupancy as the reservations have it |
| Moves.TargetKeptExactlyWhen | src/quads/cli/cli.py:2255-2267 | the exact condition, for every host: a wave changes its target if and only if its current reservation is in one of the vacated clouds, other than its default cloud |
| Moves.UsableHostKeepsTarget | src/quads/quads_api.py:243-260 | derived from it: a usable host's reservation is visible, so it never loses its target |
| Moves.BrokenHostLosesItsTarget | src/quads/quads_api.py:243-260 | a concrete broken host meets the condition: its cloud counts as vacated and its target falls back to its default cloud |
| ForemanHeal.Foreman.HealCloud | src/quads/tools/foreman_heal.py:45-79 | one cloud: reserved hosts become the cloud's, hosts it owned without a reservation the administrator's, no others change; no request is sent exactly when nothing differs |
| ForemanHeal.Foreman.Rbac | src/quads/tools/foreman_heal.py:36-79 | a pass over all clouds gives every host the owner described by its one reserving cloud, and sends no request exactly when the owners were settled |
| ForemanHeal.ReservedInOneCloud | src/quads/tools/foreman_heal.py:52-53 | in a disjoint store no host is currently reserved in two clouds |
| ForemanHeal.PassSettles | src/quads/tools/foreman_heal.py:36-79 | main result: after one pass each processed cloud owns exactly its reserved hosts, and a second pass changes nothing |
| ForemanHeal.PassIsOrderIndependent | src/quads/tools/foreman_heal.py:36-37 | the order of the clouds does not matter |
| ForemanHeal.PassTouchesNothingElse | src/quads/tools/foreman_heal.py:55-76 | an owner changes only by a processed cloud's reservation or by losing one |
| RemoteFile.Sftp.PutFile | src/quads/tools/external/ssh_helper.py:78-123 | main result: after every remote operation of every fault schedule the new content is at the path, or the content that was there survives there or at the backup, and no other file changes; True means the new content is in place and the temporary file gone; a server without the replacing rename is served |
| RemoteCalls.CallKeeps | src/quads/tools/external/ssh_helper.py:78-123 | whatever fails, what was at the path survives or is replaced, and nothing else gets there |
| RemoteCalls.CallKeepsExactlyWhen | src/quads/tools/external/ssh_helper.py:86-104 | the exact condition: old content at the path or its backup survives every fault schedule, or is replaced, if and only if it is at the path when the call starts |
| RemoteCalls.CallsKeepOneContent | src/quads/tools/external/ssh_helper.py:78-123 | main result for calls in a row: if each finds a file at the path, one of the contents survives at the path or its backup, whatever fails |
| RemoteCalls.RetryLosesBoth | src/quads/tools/external/ssh_helper.py:88-104 | a concrete failure and retry after which neither content is at the path or its backup |
| RemoteFile.Sftp.ReplaceWithBackup | src/quads/tools/external/ssh_helper.py:85-109 | the fallback, started with the old content at the path, keeps it or the new one at every step, whatever fails; without faults it succeeds and leaves no backup |
| RemoteFile.Sftp.MoveIn | src/quads/tools/external/ssh_helper.py:95-104 | the rename into place, with the backup moved back on failure, keeps one of the two contents at every step |
| RemoteFile.Sftp.Rename | src/quads/tools/external/ssh_helper.py:92-96 | a plain rename refuses an existing target (section 6.5 of draft-ietf-secsh-filexfer-02) and a failed one has no effect |
| SpeedStatements.SpeedStatementMatches | src/quads/tools/external/arista.py:51-71 | the scan answers true exactly when some line parses to the expected rate, or to the expected or an empty qualifier |
| SpeedStatements.ExpectedParses | src/quads/tools/external/arista.py:13-49 | every printed statement parses back to the speed it was printed for |
| SpeedStatements.PrintedMatchesOnlyItself | src/quads/tools/external/arista.py:13-71 | main result: for all positive speeds the statement printed for one is accepted for another if and only if they are equal |
| SpeedStatements.CanonicalMatches | src/quads/tools/external/arista.py:13-71 | the plain Mbps rendering is accepted for exactly the speed it renders, except that it never is for 100 |
| SpeedStatements.PlainAutoMatches | src/quads/tools/external/arista.py:69-70 | an automatic statement without qualifier is accepted for 100 Gbps and for no other speed |
| Text.DecimalRoundTrip | src/quads/tools/external/arista.py:42-45 | reading the decimal digits of a number gives the number back |
| Text.SplitJoin | src/quads/cli/cli.py:237 | splitting a comma-joined list gives its parts back |
| Months.MonthDeltaIsAdditive | src/quads/helpers/utils.py:57-62 | going back a and then b months is going back a + b months, for all counts and years; the month number drops by exactly a, and it fails exactly before the first year |
| Months.LastDayIsLast | src/quads/helpers/utils.py:65-67 | the result is the last day of the same month, in leap and common years, and fails exactly in the calendar's last month |
| Months.FirstDayIsFirst | src/quads/helpers/utils.py:70-71 | the result is the first day of the same month |
| Months.ReportScheduled | src/quads/tools/reports.py:159-173 | the rows are exactly the consecutive calendar months going back from the chosen one, each from its first to its last day, without repeat or gap; it fails exactly for a missing day or a month outside the calendar |
| Months.ReportedPercentages | src/quads/tools/reports.py:185-199 | each row's window is one day less than its month, and its percentage lies between 0 and 100 |
| Months.NextDayNumber | src/quads/helpers/utils.py:65-71 | consecutive days have consecutive day numbers, across month, year and leap-year ends |
| Filters.ParseOne | src/quads/cli/cli.py:238-289 | the operator loop takes the first listed operator the condition contains, and fails as described |
| Filters.FilterKwargs | src/quads/cli/cli.py:227-299 | the loop's parameters are those of the conditions in order, up to the first failure |
| Filters.FilterHostsDict | src/quads/server/dao/host.py:171-229 | the decoder loop's filters are those of the parameters in order, up to the first failure |
| FilterRoundTrip.ConditionIsSent | src/quads/cli/cli.py:238-289 | client half: a rendered condition is sent under its field and operator suffix, with its value, for all six operators including the two whose first character is an operator too |
| FilterRoundTrip.KeyIsDecoded | src/quads/server/dao/host.py:174-193 | server half: a parameter name decodes to exactly the field and operator it was made from |
| FilterRoundTrip.FilterRoundTrips | src/quads/cli/cli.py:227-299 | main result: any comma-joined list of conditions with distinct field and operator pairs parses and decodes to the same fields, operators and values, in order |
| FilterRoundTrip.TextValues | src/quads/cli/cli.py:286-289 | text values arrive upper-cased, and unchanged for table fields and boot modes |
| FilterRoundTrip.NumberValues | src/quads/cli/cli.py:250-253 | whole numbers arrive as written |
| FilterRoundTrip.NoneArrivesAsNull | src/quads/cli/cli.py:255-261 | the word for null arrives as such exactly for table fields and boot modes |
| FilterRoundTrip.StickyOperatorMisread | src/quads/server/dao/assignment.py:147-163 | a concrete filter, an inequality followed by an equality, is read as two inequalities |
| FilterRoundTrip.StickyOperatorsAgree | src/quads/server/dao/cloud.py:91-109 | with the operator carried over between parameters, the meant operators are used if and only if all equalities come first |

## Left out

- NeverDoubleBooked: needs that no batch names a host twice, since the code checks before it inserts; the exact condition is CommitSafeExactlyWhenHostsDistinct.
- NeverDoubleBooked: raw PATCH of a reservation's dates is no event of the runs: it validates the order of the two dates and not availability. Accepted extensions are events, for which NeverDoubleBookedByExtending holds; shrinks that lengthen a row shorter than its first minute are not.
- NeverDoubleBookedByExtending: the checks and updates of an extension are one event.
- HistoryNeverDoubleBooks: operations follow each other at strictly later clock readings, dates are asked for by the minute, as their format demands, and no batch names a host twice.
- EveryTransactionFinishes: says that some transaction can always step and that steps are bounded; that the database eventually schedules a transaction that can step is not modelled.
- BatchesKeepOneActivePerCloud: assignments created by admin or self create at the same time are not part of the interleaving, as those handlers take no lock; in sequence they are covered by RunsKeepOneActive.
- CapHoldsAlways: covers clouds filled by single requests, starting with no reservation in the future; batches into a self-scheduled cloud bypass the cap by design.
- Extend: check and updates run without other writers in between, as do those of Shrink and Terminate; for updates overtaken by other writers OvertakenUpdatesDisjoint is the exact condition. The notification update is not modelled.
- OvertakenShrinkExactlyWhen: no selected row has been emptied meanwhile, which takes a clock reading equal to the row's start.
- ShrinkCommand: the second confirmation, which only stops the command, is not modelled.
- TerminateAssignment: the owner check and the clean-up of SSH keys are not modelled.
- CreateAssignment: the form fields of an assignment, VLANs and ticket creation are not modelled.
- MoveHosts: all queries of a wave are made at one instant and no one else writes; switch configuration and release are sets of hosts for which they succeed; errors that abort the command, the provisioned and validated flags and move-status tracking are not modelled.
- PutFile: errors while the SFTP session is closed are not modelled, and a failing operation other than the upload has no effect.
- Rbac: Foreman requests succeed and Foreman knows every reserved host.
- SampledUtilizationIsBounded: every reservation's host is known, as its foreign key demands.
- SummaryAgreesWithCheck: host names are distinct, as their unique column demands, and windows are proper; PointWindowsDiffer says what differs on a point window.
- ReportScheduled: the rendered table is not modelled.
- PercentageIsBounded: the database's sum is exact; its rounding as a floating-point number is not modelled.
- EndIsEarlierOfLifetimeAndDeadline: the lifetime is a whole number of microseconds, where the code multiplies a floating-point number of days.
- FilterRoundTrips: values in square brackets reach the server unchanged, what its JSON reader makes of them is not modelled; the group_by parameter, comparisons inside the query layer and URL encoding are not modelled.
- KeyIsDecoded: names with two adjacent underscores or a final one are outside the round trip, as they collide with the operator suffixes.
- ParseOne: the check of a misspelt boot-mode key, which no field has, is not modelled.
- Text: letter case, white space and digits follow Python for ASCII only.
- SQL, sessions, failing commits and isolation beyond exclusive row locks and committed reads.
- Flask routing, authentication, JSON, email, chat, Jira, templates and the web pages.
- VLAN numbering, plugin dispatch and the heatmap's month stepping, which would add only easy members.
