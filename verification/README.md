# Oumra-Hadj booking backend: verified model

A Dafny model of the algorithms and protocols of the booking backend for pilgrimage agencies, with
proofs of what they promise. `dafny verify dfyconfig.toml` checks everything.

Tables are maps or sequences, instants are integer milliseconds, amounts are integer cents and
rates are hundredths. A service whose methods update rows is a class with the same methods, each
proved against a function on values; what the service promises is then proved about that function,
over every run. Protocols whose steps interleave are a total step function `Next` and its iteration
`Run`, so that a theorem about `Run` holds for every schedule, crashes included.

| file | what it models |
|---|---|
| `Capacity.dfy` | sweep of trips into load periods, peak, spare guides, extra pilgrims |
| `OnCall.dfy` | sweep of on-call shifts into gaps, shift table, coverage of a stay |
| `GuidePlanning.dfy` | conflict detector, guide assignment, absences, schedules |
| `Rooms.dfy`, `RoomsInterleaved.dfy` | room allotment in serial runs, and split into database steps |
| `Billing.dfy` | invoice numbering under the agency lock |
| `Treasury.dfy`, `Reminders.dfy` | projection of balances over months, reminders before the balance is due |
| `RefundPolicy.dfy` | refund tiers, their validation, snapshots, refunds |
| `Journal.dfy` | accounting journal of day ranges |
| `Disputes.dfy` | dispute state machine and purge |
| `LastWriteWins.dfy` | timestamped merge shared by rites and micro-courses |
| `Tickets.dfy`, `Sessions.dfy` | single-use tickets in a store that forgets; open sockets by user |
| `Csv.dfy`, `CalendarFeed.dfy` | printers, against independent readers |
| `Seats.dfy` | seats of packages, bookings and dossier steps |
| `Basics.dfy`, `Sorting.dfy` | shared vocabulary; the stable sort and its uniqueness |

## Where the code needs a condition

Some properties hold only under a condition. Each is proved with its exact condition, or with a
concrete run showing that the condition is needed.

- Seats are counted right as long as no step completes the dossier of a cancelled booking:
  `maybeConfirm` only tests that the status is not `CONFIRMED`, and so confirms such a booking without
  reserving a seat (`Seats.CountedIffNothingRevived`, `Seats.RevivalIsReachable`).
- `FULL` is exact as long as every change of capacity agrees with the seats taken, because `update` does
  not touch the status (`Seats.BoundedIffResizesSafe`, `Seats.LoweredCapacityStaysOpen`,
  `Seats.RaisedCapacityStaysFull`).
- Room numbers stay within the block as long as the checks of `assign` and `updateBlock` still hold when
  they write: `assign` reads the number of rooms before the lock and `updateBlock` takes none
  (`RoomsInterleaved.NumbersStayIffChecksHold`, and by schedule
  `RoomsInterleaved.NumbersStayIffNothingOvertaken`, `RoomsInterleaved.StaleRoomCount`,
  `RoomsInterleaved.StaleCheck`). No room is ever
  overfull, whatever the interleaving.
- Gaps of on-call coverage are in canonical form for shifts that end after they start; the shift table
  only ever holds such shifts (`OnCall.InvertedShiftSplitsAGap`).
- Synchronised items can arrive in any order exactly when, for each key, the most recent item is alone at
  its timestamp and repeats every field of the others (`LastWriteWins.OrderIndependentIffDominated`,
  `LastWriteWins.CompletionCanBeLost`).
- A ticket passes once as long as it is used by its expiry: it is verified at one reading of the clock and
  expired identifiers are forgotten at a later one, so a replay verified just before expiry and used just
  after passes again. This is the only way with a clock in order and identifiers issued once
  (`Tickets.AcceptedTwiceIffLateReplay`, `Tickets.UsedAfterExpiry`); the exact condition without those is
  `Tickets.AcceptedTwiceIffForgottenTooSoon`.
- The refund rate of a booking does not rise as long as the whole days left before departure do not grow;
  postponing the departure can raise it (`RefundPolicy.RateOfBookingFalls`,
  `RefundPolicy.NeverRisesIffDaysDoNot`, `RefundPolicy.PostponingRaisesTheRate`).
- A refund that rounds to nothing goes through: only a zero rate is refused
  (`RefundPolicy.NothingToRefundIff`, `RefundPolicy.OneCentRefundsNothing`).
- No guide leads two groups whose packages share a day as long as package dates are moved only where the
  guard of `assignGuide` would pass again; `packages.update` does not check it
  (`GuidePlanning.ExclusiveIffMovesSafe`, `GuidePlanning.MoveCanClash`).
- The number of distinct guides of a package is its number of guided groups as long as the package ends on
  or after its start, which nothing checks: a package that ends before shares no day even with itself, and
  one guide is accepted for several of its groups (`GuidePlanning.DistinctGuidesIffOrdered`,
  `GuidePlanning.InvertedPackageSharesAGuide`).
- Load periods are cut no finer than needed as long as trips have positive duration
  (`Capacity.AdjacentPeriodsDiffer`, `Capacity.InvertedTripCutsAPeriod`).

## Model

| member | source | states |
|---|---|---|
| `Capacity.PeriodesDeCharge` | src/modules/capacity/capacity.service.ts:21-55 | the periods are nonempty, sorted and disjoint; an instant is in a period exactly when some trip runs then; at every instant of a period its package list, pilgrims, sold seats and both guide totals are the sums over exactly the trips running then — for any list of trips, inverted dates included |
| `Capacity.PeriodsAreOrdered` | src/modules/capacity/capacity.service.ts:21-55 | periods never overlap and come in order |
| `Capacity.PeriodsArePointwise` | src/modules/capacity/capacity.service.ts:21-55 | the sweep over breakpoints equals the pointwise definition over all instants, in both directions |
| `Capacity.PeriodsAddUp` | src/modules/capacity/capacity.service.ts:21-55 | on trips and instants alone: an instant is in a period if and only if a trip is under way, from its start to 24 hours after its last day begins; the figures of the period are the sums over the trips under way and its list is theirs |
| `Capacity.FiguresOfRunning` | src/modules/capacity/capacity.service.ts:41-52 | each figure over the running trips is the sum over the trips under way |
| `Capacity.PeriodDescribes` | src/modules/capacity/capacity.service.ts:30-53 | one period describes every instant in it, not only its first |
| `Capacity.RunningIsInPeriod` | src/modules/capacity/capacity.service.ts:30-53 | no instant at which a trip runs is missed |
| `Capacity.SpanningIsRunning` | src/modules/capacity/capacity.service.ts:32-38 | between two consecutive breakpoints, the trips spanning the piece are the trips running at any instant of it |
| `Capacity.InstantsAreTheBornes` | src/modules/capacity/capacity.service.ts:25-31 | the breakpoints are strictly increasing, hence distinct, and contain the start and the end of every trip |
| `Capacity.InstantIsABorne` | src/modules/capacity/capacity.service.ts:25-31 | every breakpoint is the start or the end of some trip |
| `Capacity.AdjacentPeriodsDiffer` | src/modules/capacity/capacity.service.ts:32-53 | with one trip a package, two touching periods list different packages if and only if some trip of positive duration starts or ends where they meet |
| `Capacity.PeriodsAreMaximal` | src/modules/capacity/capacity.service.ts:32-53 | with positive durations the cutting is as coarse as it can be: touching periods list different packages |
| `Capacity.BreakpointCuts` | src/modules/capacity/capacity.service.ts:32-53 | no period extends over a breakpoint |
| `Capacity.InvertedTripCutsAPeriod` | src/modules/capacity/capacity.service.ts:25-53 | a trip that ends before it starts cuts the period of another into two with equal lists |
| `Capacity.Simulate` | src/modules/capacity/capacity.service.ts:69-133 | the trips are those of the packages not yet ended, stated on the packages alone; staff minus the reported spare guides is the maximum over all instants of the guides needed |
| `Capacity.TripsForAreTrips` | src/modules/capacity/capacity.service.ts:103-114 | one trip for each package that ends today or later, by start and stably, with its dates, capacity and seats, the least number of guides its capacity needs, and the number of distinct guides of its groups |
| `Capacity.CeilDivIsLeast` | src/modules/capacity/capacity.service.ts:110 | the guides needed are the least number that suffices |
| `Capacity.PeakIsFirstMaximum` | src/modules/capacity/capacity.service.ts:115-121 | the peak is a period, none needs more guides, and no earlier one needs as many |
| `Capacity.PeakIsPeakDemand` | src/modules/capacity/capacity.service.ts:115-121 | the peak bounds guide demand at every instant and is reached |
| `Capacity.StaffSuffices` | src/modules/capacity/capacity.service.ts:122-125 | spare guides are nonnegative if and only if the staff suffices at every instant |
| `Capacity.ExtraPilgrimsFit` | src/modules/capacity/capacity.service.ts:126-131 | a trip of up to `extraPilgrimsAtPeak` pilgrims fits on any dates whatever |
| `Capacity.OneMoreDoesNotFit` | src/modules/capacity/capacity.service.ts:126-131 | one pilgrim more, placed over the peak, does not fit |
| `Capacity.ExtraPilgrimsAreExact` | src/modules/capacity/capacity.service.ts:122-131 | a new trip can be staffed whatever its dates if and only if nothing is missing now and its pilgrims are at most `extraPilgrimsAtPeak` |
| `OnCall.TrousDeCouverture` | src/modules/on-call/on-call.service.ts:71-96 | an instant of the window is in a reported gap exactly when no shift covers it, for any shifts in any order; with shifts of positive duration the gaps are nonempty, sorted and strictly separated |
| `OnCall.GapsArePointwise` | src/modules/on-call/on-call.service.ts:71-96 | the cursor sweep equals the pointwise definition of uncovered instants |
| `OnCall.GapsAreCanonical` | src/modules/on-call/on-call.service.ts:71-96 | gaps of shifts of positive duration never touch |
| `OnCall.InvertedShiftSplitsAGap` | src/modules/on-call/on-call.service.ts:98-101 | a shift ending before it starts makes the sweep report overlapping gaps: why such a shift is refused when written |
| `OnCall.CanonicalIsUnique` | src/modules/on-call/on-call.service.ts:71-96 | strictly separated gaps are determined by the instants they contain |
| `OnCall.GapsDependOnlyOnCoverage` | src/modules/on-call/on-call.service.ts:71-96 | the report does not depend on the order, the duplication or the overlaps of the shifts |
| `OnCall.PrefilterKeepsGaps` | src/modules/on-call/on-call.service.ts:207-217 | the database filter on the window changes no gap |
| `OnCall.LengthCountsInstants` | src/modules/on-call/on-call.service.ts:219-231 | gap lengths add up to the number of milliseconds in gaps |
| `OnCall.CoverageConservesTime` | src/modules/on-call/on-call.service.ts:219-231 | length of the stay minus gap lengths is the number of covered milliseconds |
| `OnCall.VerifierPeriode` | src/modules/on-call/on-call.service.ts:98-107 | accepts exactly durations above zero and up to fourteen days, and which of the two errors is raised |
| `OnCall.OnCallIff` | src/modules/on-call/on-call.service.ts:207-215 | somebody is on call for a package when a shift of it, or of no package in particular, is running |
| `OnCall.TenthsAreNearest` | src/modules/on-call/on-call.service.ts:222 | hours are reported to the nearest tenth, a half going up |
| `OnCall.OnCallService.CreateShift` | src/modules/on-call/on-call.service.ts:141-164 | stores exactly the shift asked for, and nothing when its period is refused; every stored shift stays valid |
| `OnCall.OnCallService.UpdateShift` | src/modules/on-call/on-call.service.ts:166-188 | accepts a known shift exactly when its merged period is valid, with the error of each refusal; keeps fields not given, and changes nothing when refused |
| `OnCall.OnCallService.DeleteShift` | src/modules/on-call/on-call.service.ts:190-193 | removes that shift alone |
| `OnCall.OnCallService.GetCoverage` | src/modules/on-call/on-call.service.ts:199-232 | gaps of the stay are canonical and pointwise right for the stored shifts, and the covered hours are the count of milliseconds with somebody on call |
| `GuidePlanning.Conflits` | src/modules/guide-planning/planning.ts:17-34 | reports one conflict for each overlapping pair, in reading order, with the dates of `ConflictOf` |
| `GuidePlanning.EachOverlapOnce` | src/modules/guide-planning/planning.ts:17-34 | a pair of entries is reported if and only if they overlap, and once |
| `GuidePlanning.ChevaucheIffCommonDay` | src/modules/guide-planning/planning.ts:12-14 | two periods in order overlap if and only if some day belongs to both |
| `GuidePlanning.ReportsCommonDays` | src/modules/guide-planning/planning.ts:17-34 | of entries in order, exactly the pairs that share a day are reported |
| `GuidePlanning.ConflictIsIntersection` | src/modules/guide-planning/planning.ts:12-31 | the dates of a conflict are exactly the common instants of its entries; it is nonempty exactly when both entries end on or after their start |
| `GuidePlanning.GroupsService.CreateGroup` | src/modules/groups/groups.service.ts:72-83 | a new group has no guide; assignments stay exclusive |
| `GuidePlanning.GroupsService.AssignGuide` | src/modules/groups/groups.service.ts:152-217 | which of the errors is raised, what is stored, and that no guide ever leads two groups whose packages share a day |
| `GuidePlanning.AssignmentStaysExclusive` | src/modules/groups/groups.service.ts:186-217 | the guard is enough: an accepted assignment keeps every guide on one group at a time |
| `GuidePlanning.AssignAcceptedIffFree` | src/modules/groups/groups.service.ts:186-217 | on dates in order a guide is accepted for a group if and only if he leads no other group and is declared away on none of its days; refused as already leading if and only if he leads one |
| `GuidePlanning.ExclusiveIsOneGroupADay` | src/modules/groups/groups.service.ts:186-217 | on dates in order the assignments are exclusive if and only if no guide is on two groups on one day |
| `GuidePlanning.MoveKeepsExclusiveIff` | src/modules/packages/packages.service.ts:103-111 | moving the dates of a package keeps guides on one group at a time if and only if the guard of `assignGuide` would pass on the new dates for every guided group of that package |
| `GuidePlanning.MoveCanClash` | src/modules/packages/packages.service.ts:103-111 | dates moved so that one guide leads two overlapping groups |
| `GuidePlanning.StepKeepsExclusive` | src/modules/groups/groups.service.ts:152-217 | a request keeps guides on one group at a time if and only if it is not an unsafe move of dates |
| `GuidePlanning.ExclusiveIffMovesSafe` | src/modules/groups/groups.service.ts:152-217 | over any run mixing assignments, absences and moves of dates, no guide ever leads two groups whose packages share a day if and only if every move is safe |
| `GuidePlanning.OneGroupADayIffMovesLeaveFree` | src/modules/groups/groups.service.ts:152-217 | over any run with dates in order, no guide is on two groups on the same day all along if and only if every move of dates leaves the guides of its package free of their other groups on the new days |
| `GuidePlanning.GroupsService.AddUnavailability` | src/modules/guide-planning/guide-planning.service.ts:70-108 | declared even over a led group, refused only when inverted |
| `GuidePlanning.GroupsService.DeleteUnavailability` | src/modules/guide-planning/guide-planning.service.ts:110-116 | removes that absence alone, or reports that there is none |
| `GuidePlanning.WithoutKeepsOthers` | src/modules/guide-planning/guide-planning.service.ts:110-116 | every other absence is kept, as often as before |
| `GuidePlanning.GroupsService.Planning` | src/modules/guide-planning/guide-planning.service.ts:118-174 | the schedule of a guide and its conflicts, none of which is group against group |
| `GuidePlanning.ScheduleLists` | src/modules/guide-planning/guide-planning.service.ts:118-166 | a schedule lists, by start, exactly the groups the guide leads and the absences he declared that share a day with the window |
| `GuidePlanning.NoGroupAgainstGroup` | src/modules/guide-planning/guide-planning.service.ts:118-174 | in every state reached by `assignGuide` the conflict detector never reports a group against a group |
| `GuidePlanning.DistinctGuidesAreGuidedGroups` | src/modules/capacity/capacity.service.ts:111-113 | for a package that ends on or after its start, the number of distinct guides equals its number of groups with a guide |
| `GuidePlanning.DistinctGuidesIffOrdered` | src/modules/capacity/capacity.service.ts:111-113 | the two numbers are equal for every exclusive assignment if and only if the package ends on or after its start |
| `GuidePlanning.DistinctGuidesOverRuns` | src/modules/capacity/capacity.service.ts:111-113 | they are equal in every run whose moves of dates are safe, for each package that ends on or after its start |
| `GuidePlanning.InvertedPackageSharesAGuide` | src/modules/groups/groups.service.ts:186-217 | a run from empty tables: on a package published with inverted dates one guide is accepted for two groups |
| `Rooms.FirstFreeIsLowest` | src/modules/rooms/rooms.service.ts:240-246 | automatic placement finds the lowest room with a free bed, and none exactly when all are full |
| `Rooms.PlacingKeepsBeds` | src/modules/rooms/rooms.service.ts:231-262 | a placement checked against the other bookings overfills no room, even when the booking moves |
| `Rooms.AutomaticFailsIffFull` | src/modules/rooms/rooms.service.ts:240-251 | automatic placement fails if and only if the other bookings number rooms times beds |
| `Rooms.AssignAcceptedIff` | src/modules/rooms/rooms.service.ts:207-262 | which requests are accepted, stated on the rows: the booking, its status, and the beds left in the room or in the block |
| `Rooms.BedsOfTypes` | src/types/room.types.ts:4-9 | two beds in a double room to five in a quintuple |
| `Rooms.RoomsService.CreateBlock` | src/modules/rooms/rooms.service.ts:120-162 | a new block is empty |
| `Rooms.RoomsService.Assign` | src/modules/rooms/rooms.service.ts:207-274 | every error in its order, the room chosen, and that no room is overfull or outside the block |
| `Rooms.RoomsService.Unassign` | src/modules/rooms/rooms.service.ts:276-289 | removes that booking alone, or reports that it is not placed |
| `Rooms.RoomsService.LastOccupied` | src/modules/rooms/rooms.service.ts:178-181 | the largest occupied room number, zero when there is none |
| `Rooms.RoomsService.UpdateBlock` | src/modules/rooms/rooms.service.ts:172-195 | accepted exactly when every occupied room stays in the block; the refusal names the last occupied room |
| `Rooms.RoomsService.DeleteBlock` | src/modules/rooms/rooms.service.ts:197-205 | deletes only an empty block |
| `Rooms.ShapeAccountsForEveryBooking` | src/modules/rooms/rooms.service.ts:53-86 | rooms shown add up to `assignedBeds`, at most `totalBeds`; each placed booking is in exactly one room; a booking is unassigned exactly when it is in none |
| `RoomsInterleaved.NextKeepsInv` | src/modules/rooms/rooms.service.ts:231-273 | each database step of any request keeps rooms within their beds and the view of the lock holder current |
| `RoomsInterleaved.NoRoomOverfull` | src/modules/rooms/rooms.service.ts:207-274 | under every interleaving of assignments, removals, updates and crashes, no room exceeds its beds |
| `RoomsInterleaved.AloneIsSerial` | src/modules/rooms/rooms.service.ts:207-273 | an assignment that runs alone does exactly what the serial one does |
| `RoomsInterleaved.OthersAlone` | src/modules/rooms/rooms.service.ts:172-195 | so do a removal and an update; a crash changes no place |
| `RoomsInterleaved.StepKeepsNumbers` | src/modules/rooms/rooms.service.ts:172-274 | one step keeps room numbers in the block if and only if what it checked still holds when it writes: the room given with the count read is the room the present count gives |
| `RoomsInterleaved.NumbersStayIffChecksHold` | src/modules/rooms/rooms.service.ts:172-274 | the same over whole runs |
| `RoomsInterleaved.NumbersStayIffNothingOvertaken` | src/modules/rooms/rooms.service.ts:172-274 | room numbers stay in the block all along a schedule if and only if no shrinking update comes between the read and the write of an assignment giving a room it removes, and no such assignment comes between the check and the write of an update |
| `RoomsInterleaved.NumbersStayInBlock` | src/modules/rooms/rooms.service.ts:172-274 | room numbers stay in the block in every run where no shrinking `updateBlock` overlaps an `assign` |
| `RoomsInterleaved.StaleRoomCount` | src/modules/rooms/rooms.service.ts:212-255 | the room count read before the lock can be stale: a run that places a booking in a room the block no longer has |
| `RoomsInterleaved.StaleCheck` | src/modules/rooms/rooms.service.ts:172-195 | the check of an update can be stale: a run that shrinks the block below a room filled in between |
| `Billing.NumeroRoundTrip` | src/modules/billing/billing.service.ts:41-43 | year and sequence can be read back from the invoice number, so numbering is injective for sequences of any length |
| `Billing.NumeroLooks` | src/modules/billing/billing.service.ts:40-43 | a number is the prefix, the year and the sequence in decimal, the sequence on five digits or as many as it needs, without other leading zeros |
| `Billing.NextKeepsInv` | src/modules/billing/billing.service.ts:165-197 | each step of each request, crashes included, keeps the numbering invariant |
| `Billing.OnlyBookingKeyFails` | src/modules/billing/billing.service.ts:165-197 | with the agency lock held, an insertion fails exactly when the booking already has an invoice |
| `Billing.SequencesAreGapless` | src/modules/billing/billing.service.ts:165-197 | under every interleaving the committed sequences of an agency and year are 1, 2, ..., n in commit order, and a booking has one invoice at most |
| `Billing.NumbersAreUnique` | src/modules/billing/billing.service.ts:165-197 | two invoices of one agency never carry the same number |
| `Billing.AnswersAgree` | src/modules/billing/billing.service.ts:77-95 | the read after `emettre` always finds an invoice of that booking, and all requests for a booking get the same one |
| `Billing.EveryInvoiceWasRequested` | src/modules/billing/billing.service.ts:165-185 | under every interleaving each invoice has the booking, the year and the amount of some request |
| `Billing.AloneIsAnswered` | src/modules/billing/billing.service.ts:77-95 | a request run alone to its end is answered: with the invoice of its booking when there is one, writing nothing, and otherwise with the one it commits, of its amount, numbered next for its agency and year |
| `Billing.BalanceMakesUpTotal` | src/modules/billing/billing.service.ts:97-128 | the balance due and what the agency has kept make up the total exactly unless more was kept; then, or on a cancelled booking, nothing is due |
| `Billing.InvoicesAreImmutable` | src/modules/billing/billing.service.ts:165-197 | through the rest of any run a committed invoice keeps its place, number and amount |
| `Treasury.GetTreasuryProjection` | src/modules/payments/payments.service.ts:421-499 | month amounts add up to the outstanding balance; each month holds exactly the dues of that month, in order; expected is at most collected plus outstanding, equal exactly when nobody overpaid |
| `Treasury.AddInstalments` | src/modules/payments/payments.service.ts:444-475 | the loop terminates and adds exactly the instalments of the plan |
| `Treasury.InstalmentsAddUp` | src/modules/payments/payments.service.ts:444-475 | instalments add up to the balance, whatever is deducted |
| `Treasury.BookingContributesItsBalance` | src/modules/payments/payments.service.ts:436-487 | each booking contributes exactly its balance |
| `Treasury.InstalmentsAreWellSpread` | src/modules/payments/payments.service.ts:447-475 | instalments are positive, at most the deduction, in strictly increasing dates before departure, what remains falling at departure |
| `Treasury.WeeklyDates` | src/modules/payments/payments.service.ts:447-467 | the instalments of a weekly plan are seven times 24 hours apart from its date, the remainder falling at departure |
| `Treasury.MonthlyDates` | src/modules/payments/payments.service.ts:447-467 | each instalment of a monthly plan is a month after the one before, the remainder falling at departure |
| `Treasury.FullDeductions` | src/modules/payments/payments.service.ts:451-454 | every due but the last is a full deduction |
| `Treasury.PlanIsFollowed` | src/modules/payments/payments.service.ts:437-445 | a plan that deducts automatically, with an amount, a date and a frequency, spreads the balance from its date by its amount |
| `Treasury.PlanFollowedIff` | src/modules/payments/payments.service.ts:437-443 | and only such a plan is followed |
| `Treasury.NothingDueIffPaid` | src/modules/payments/payments.service.ts:430-436 | nothing is due if and only if the price is paid |
| `Treasury.UnplannedBalanceIsDueOnce` | src/modules/payments/payments.service.ts:477-479 | without a usable plan the whole balance falls due once, thirty days before departure, or now if that is past |
| `Treasury.AddDuesSpec` | src/modules/payments/payments.service.ts:455-474 | months are not repeated, none is lost, and each holds the sum of its dues |
| `Treasury.TotalsBalance` | src/modules/payments/payments.service.ts:427-434 | expected versus collected plus outstanding, with the exact case of equality |
| `Treasury.DuesAddUp` | src/modules/payments/payments.service.ts:427-488 | all dues add up to the outstanding balance |
| `Treasury.SortedProjects` | src/modules/payments/payments.service.ts:490-492 | sorting by month keeps the lines and orders them strictly |
| `Reminders.SendPreventiveReminders` | src/modules/payments/payment-reminders.service.ts:57-108 | reminds exactly the bookings that are owed a reminder, stated without the date window |
| `Reminders.OwedIsSelected` | src/modules/payments/payment-reminders.service.ts:58-71 | no booking owed a reminder is outside the window of the query |
| `Reminders.WindowLosesNobody` | src/modules/payments/payment-reminders.service.ts:58-88 | filtering by the window first changes nobody who is reminded |
| `Reminders.OneReminderPerOffset` | src/modules/payments/payment-schedule.ts:13-28 | over one run a day, a booking neither cancelled nor completed nor fully paid is owed exactly one reminder for each of the days 14, 7 and 1 before its balance is due that the runs include, and any other booking none |
| `RefundPolicy.AcceptedIffCoherent` | src/modules/payments/refund-policy.service.ts:108-132 | checking neighbours after sorting accepts exactly the lists whose thresholds are distinct and whose rates are globally ordered; what is stored is the sorted permutation |
| `RefundPolicy.AppliesHighestReached` | src/modules/payments/refund-policy.ts:29-49 | the tier applied is the reached one with the largest threshold |
| `RefundPolicy.DaysAreWhole` | src/modules/payments/refund-policy.ts:16-19 | days before departure are whole days of 86 400 000 milliseconds, rounded down |
| `RefundPolicy.ReachedIffEarlyEnough` | src/modules/payments/refund-policy.ts:17-45 | a threshold is reached if and only if that many times 24 hours or more are left |
| `RefundPolicy.RateOnTheClock` | src/modules/payments/refund-policy.ts:29-49 | in milliseconds: all before confirmation, nothing once cancelled or completed, half without a schedule, and with one the tier of the largest threshold among those early enough, or nothing |
| `RefundPolicy.RateFallsWithTheClock` | src/modules/payments/refund-policy.ts:17-49 | with the departure unmoved the rate never rises as the clock advances |
| `RefundPolicy.BestReachedRate` | src/modules/payments/refund-policy.ts:29-49 | with an accepted schedule that is the best rate among the reached tiers, or nothing |
| `RefundPolicy.AcceptedIffFallsWithTime` | src/modules/payments/refund-policy.service.ts:108-132 | with distinct thresholds and rates from zero up, a list is accepted if and only if the rate never rises as the departure nears |
| `RefundPolicy.RateNeverIncreases` | src/modules/payments/refund-policy.ts:17-49 | for any status the rate never increases unless more whole days are left before departure, as the clock advances or the departure moves |
| `RefundPolicy.NeverRisesIffDaysDoNot` | src/modules/payments/refund-policy.ts:29-49 | from one number of days before departure to another the rate rises for no acceptable schedule if and only if the days have not grown, the departure is past, or every threshold was reached already |
| `RefundPolicy.SnapshotRoundTrip` | src/modules/payments/refund-policy.ts:52-62 | reading a frozen schedule gives it back unchanged |
| `RefundPolicy.ReadsWellFormedTiers` | src/modules/payments/refund-policy.ts:52-62 | of any stored list exactly the items that are objects with both numbers are read |
| `RefundPolicy.ReadsNothingElse` | src/modules/payments/refund-policy.ts:53 | anything but a list reads as no tier |
| `RefundPolicy.NextKeepsInv` | src/modules/payments/refund-policy.service.ts:56-71 | only accepted, sorted schedules are in force or frozen |
| `RefundPolicy.RateOfBookingFalls` | src/modules/payments/refund-policy.service.ts:74-101 | between two moments of any run, departures moved and schedules republished in between, the rate of a booking is a share between 0 and 1 and does not increase if its status is the same at both and no more whole days are left |
| `RefundPolicy.PostponingRaisesTheRate` | src/modules/packages/packages.service.ts:109 | a run in which postponing the departure raises the rate at one instant from nothing to all |
| `RefundPolicy.SnapshotIsolation` | src/modules/bookings/bookings.service.ts:97-109 | in any run the schedule applied to a booking is the one in force just before it was made, whatever is published later |
| `RefundPolicy.RefundIsFair` | src/modules/payments/payments.service.ts:264-265 | a refund lies between zero and the payment, within half a cent of the exact share, a half going up |
| `RefundPolicy.RefundGrowsWithRate` | src/modules/payments/payments.service.ts:264-265 | a better rate never refunds less |
| `RefundPolicy.NothingToRefundIff` | src/modules/payments/payments.service.ts:264-265 | a refund rounds to nothing if and only if the exact share is less than half a cent |
| `RefundPolicy.OneCentRefundsNothing` | src/modules/payments/payments.service.ts:258-278 | one cent at a rate of two fifths: the request succeeds, pays nothing and marks the payment as refunded |
| `RefundPolicy.Payment.RequestRefund` | src/modules/payments/payments.service.ts:236-294 | pays exactly what the preview announces at that instant, refuses exactly when the payment is not confirmed or the rate is zero, and refunds a payment once |
| `Journal.GetJournal` | src/modules/payments/accounting-export.service.ts:68-153 | the entries of a period are those of the whole payment table in stable date order, and the totals are sums over payments, stated without the journal |
| `Journal.JournalIsAdditive` | src/modules/payments/accounting-export.service.ts:73-137 | the journal of a range is the journal of its first part followed by that of the rest |
| `Journal.AnyCutting` | src/modules/payments/accounting-export.service.ts:73-137 | the same for any cutting of a range into consecutive parts |
| `Journal.JournalLists` | src/modules/payments/accounting-export.service.ts:93-137 | the journal is a stable sort of exactly what the payments wrote in the range |
| `Journal.JournalRecords` | src/modules/payments/accounting-export.service.ts:93-136 | an entry is in the journal of a range if and only if it records a collection confirmed or a nonzero refund made in it, with its date, its amount on its side and its voucher |
| `Journal.PeriodeAnswers` | src/modules/payments/accounting-export.service.ts:201-221 | missing bounds default to the first of the month and today; refused if and only if reversed or over 366 days |
| `Journal.RangeIsDays` | src/modules/payments/accounting-export.service.ts:73-76 | an instant is in the range if and only if its UTC day is one of the period |
| `Journal.EntriesTotals` | src/modules/payments/accounting-export.service.ts:139-140 | debits add up to the payments confirmed in the range and credits to the refunds made in it |
| `Journal.FilterLosesNothing` | src/modules/payments/accounting-export.service.ts:78-82 | the database filter leaves out no entry |
| `Journal.ExportsAddUp` | src/modules/payments/accounting-export.service.ts:68-153 | exports of adjacent day ranges put end to end are the export of the whole, totals included |
| `Disputes.ApplyKeepsInv` | src/modules/disputes/disputes.service.ts:107-321 | each request keeps: one active dispute a booking; before escalation the status is `AGENCY_RESPONDED` exactly when the last message is the agency's; closing date set exactly when terminal, decision exactly when closed; escalation only after an agency message or seven days |
| `Disputes.RunKeepsInv` | src/modules/disputes/disputes.service.ts:107-321 | the same in every state of every run |
| `Disputes.RunKeepsAuthors` | src/modules/disputes/disputes.service.ts:107-220 | in every run each dispute is between the pilgrim and the agency owner of its booking, and each message of either is theirs |
| `Disputes.CreateAcceptedIff` | src/modules/disputes/disputes.service.ts:107-124 | a dispute is opened if and only if the booking exists, is the pilgrim's, and has no dispute under way |
| `Disputes.MessageAcceptedIff` | src/modules/disputes/disputes.service.ts:178-220 | a message is accepted if and only if it is from the pilgrim of the booking or its agency owner on a dispute not closed, or from the administration on an escalated one |
| `Disputes.ResolveAcceptedIff` | src/modules/disputes/disputes.service.ts:223-238 | resolved if and only if the pilgrim of the booking asks on a dispute not closed; the row says when |
| `Disputes.EscalateAcceptedIff` | src/modules/disputes/disputes.service.ts:240-261 | escalated if and only if the pilgrim of the booking asks on a dispute in dialogue whose last message is the agency's or which was opened seven days ago |
| `Disputes.DecideAcceptedIff` | src/modules/disputes/disputes.service.ts:274-293 | decided if and only if escalated, and the row holds the decision and when |
| `Disputes.StrangersAreForbidden` | src/modules/disputes/disputes.service.ts:302-321 | who is refused, by role, on the booking and the status, and that an unknown dispute is not found |
| `Disputes.RequestEvolves` | src/modules/disputes/disputes.service.ts:178-300 | one request only moves a dispute forward, or purges it |
| `Disputes.RunEvolves` | src/modules/disputes/disputes.service.ts:178-300 | over any part of a run an escalated dispute never returns to dialogue, a terminal one never changes, messages are only added |
| `Disputes.GoneIffPurged` | src/modules/disputes/dispute-purge.service.ts:24-34 | over any part of a run a dispute is gone if and only if some purge meanwhile found it terminal and closed more than 24 months before; nothing else deletes one and its identifier never comes back |
| `Disputes.KeptWhileRetained` | src/modules/disputes/dispute-purge.service.ts:24-34 | a closed dispute is still there, unchanged, as long as no purge comes more than 24 months after its closure |
| `Disputes.ClosureIsNotPurgedAtOnce` | src/modules/disputes/dispute-purge.service.ts:24-34 | no purge removes a dispute at the instant of its closure |
| `Disputes.DisputesService.FindAuthorizedOrFail` | src/modules/disputes/disputes.service.ts:302-321 | who may see a dispute in which status, and which error is raised |
| `Disputes.DisputesService.Create` | src/modules/disputes/disputes.service.ts:107-149 | the whole new table, or the error with nothing changed |
| `Disputes.DisputesService.AddMessage` | src/modules/disputes/disputes.service.ts:178-220 | the whole new table, or the error with nothing changed |
| `Disputes.DisputesService.Resolve` | src/modules/disputes/disputes.service.ts:223-238 | the whole new table, or the error with nothing changed |
| `Disputes.DisputesService.Escalate` | src/modules/disputes/disputes.service.ts:240-272 | the whole new table, or the error with nothing changed |
| `Disputes.DisputesService.Decide` | src/modules/disputes/disputes.service.ts:274-300 | the whole new table, or the error with nothing changed |
| `Disputes.DisputesService.PurgeClosedDisputes` | src/modules/disputes/dispute-purge.service.ts:24-34 | the rows kept, given the instant 24 months before the clock, and the number removed |
| `LastWriteWins.ProgressService.SyncBatch` | src/modules/rites/rite-progress.service.ts:34-72 | the store after the batch, and that the answer to each item is the row as it stood just after that item |
| `LastWriteWins.BatchesConcat` | src/modules/micro-courses/micro-courses.service.ts:116-159 | sending a list in several batches is sending it in one |
| `LastWriteWins.StampsAreRunningMaxima` | src/modules/rites/rite-progress.service.ts:38-69 | stored timestamps are the running maximum of what was offered for the key |
| `LastWriteWins.ReplayChangesNothing` | src/modules/rites/rite-progress.service.ts:34-72 | sending again any selection of items already sent, partial or not, in any order, changes nothing |
| `LastWriteWins.DominatedKeySettles` | src/modules/rites/rite-progress.service.ts:38-69 | the row of a key whose most recent item carries every field of the others is the same in any order |
| `LastWriteWins.OrderIndependentIffDominated` | src/modules/rites/rite-progress.service.ts:38-69 | for validated items, the order never matters, on any store the tables can hold, if and only if for each key the most recent item is alone at its timestamp and carries every field the others carry |
| `LastWriteWins.CompletionCanBeLost` | src/modules/rites/rite-progress.service.ts:38-69 | two partial items of one rite, from an empty table: the completion is kept in one order and lost in the other |
| `LastWriteWins.StoresStayPossible` | src/modules/rites/rite-progress.service.ts:55-67 | synchronisation only makes rows with every column |
| `LastWriteWins.DefaultsFit` | src/modules/micro-courses/micro-courses.service.ts:145-152 | the defaults of the rite and micro-course tables are values of their columns |
| `LastWriteWins.CompleteItemsCommute` | src/modules/micro-courses/micro-courses.service.ts:116-159 | items with every field and distinct timestamps can arrive in any order |
| `Tickets.RealtimeTicketService.Consume` | src/modules/realtime/realtime-ticket.service.ts:64-87 | the answer and the memory after one attempt, verified at one reading of the clock and used at a second |
| `Tickets.RealtimeTicketService.OublierExpires` | src/modules/realtime/realtime-ticket.service.ts:89-96 | forgets exactly the expired identifiers |
| `Tickets.AcceptedIffForgotten` | src/modules/realtime/realtime-ticket.service.ts:76-96 | in any run an attempt is accepted if and only if it is valid and every earlier acceptance of its identifier was forgotten by then |
| `Tickets.VerifiedIff` | src/modules/realtime/realtime-ticket.service.ts:71-79 | a ticket is valid if and only if genuine and before its expiry, in milliseconds |
| `Tickets.AcceptedTwiceIffForgottenTooSoon` | src/modules/realtime/realtime-ticket.service.ts:64-96 | in any run whatever, some identifier is accepted twice if and only if one comes back after an attempt forgot its first ticket, stated on tickets and clock readings alone |
| `Tickets.ForgettingChangesNothing` | src/modules/realtime/realtime-ticket.service.ts:64-96 | the service that forgets accepts exactly what one that never forgets accepts, if and only if nothing is forgotten too soon |
| `Tickets.AcceptedTwiceIffLateReplay` | src/modules/realtime/realtime-ticket.service.ts:64-96 | with a clock that does not go back and identifiers issued once, some ticket is accepted twice if and only if a replay is verified before its expiry and used after it |
| `Tickets.NeverAcceptedTwice` | src/modules/realtime/realtime-ticket.service.ts:64-96 | no identifier is accepted twice in a run where, besides, every valid ticket is used by its expiry |
| `Tickets.UsedAfterExpiry` | src/modules/realtime/realtime-ticket.service.ts:73-90 | a ticket verified one millisecond before its expiry and used one after passes twice, with clock and identifiers in order |
| `Tickets.OnlyUnexpiredRetained` | src/modules/realtime/realtime-ticket.service.ts:76-86 | after each verified attempt its identifier is retained with only identifiers unexpired at its use, but for itself when just added; the answer is its bearer |
| `Tickets.ClockSetBack` | src/modules/realtime/realtime-ticket.service.ts:89-96 | with a clock set back a ticket passes twice |
| `Tickets.IdentifierIssuedTwice` | src/modules/realtime/realtime-ticket.service.ts:76-86 | with one identifier on two tickets it is accepted twice |
| `Sessions.RealtimeSessionsService.SetOf` | src/modules/realtime/realtime-sessions.service.ts:16 | the current set of the user, or a new one shared with nobody |
| `Sessions.RealtimeSessionsService.Register` | src/modules/realtime/realtime-sessions.service.ts:15-34 | the socket joins the open sockets of its user; the registry and every pending listener share one set a user |
| `Sessions.RealtimeSessionsService.OnDisconnect` | src/modules/realtime/realtime-sessions.service.ts:27-33 | the socket leaves the captured set, shared or no longer in the registry, and a user with no open socket left has no entry left |
| `Sessions.RealtimeSessionsService.DisconnectUser` | src/modules/realtime/realtime-sessions.service.ts:36-40 | walking the live set while the listeners remove each socket from it closes exactly the sockets of that user, and no socket of anybody else |
| `Sessions.RealtimeSessionsService.SocketsOf` | src/modules/realtime/realtime-sessions.service.ts:11-33 | a user has an entry if and only if one of his sockets is open, and his set is then exactly his open sockets |
| `Csv.ReadCell` | src/common/utils/csv.ts:10-14 | a reader of section 2 of RFC 4180 gets back exactly the neutralised text of a cell |
| `Csv.FormulaIff` | src/common/utils/csv.ts:8 | which texts start a formula, character by character |
| `Csv.SpaceCodes` | src/common/utils/csv.ts:8 | the white space of the pattern, by code point |
| `Csv.DocumentRoundTrip` | src/modules/payments/accounting-export.service.ts:162-198 | a whole file reads back as exactly its neutralised texts, for all texts |
| `Csv.NeverAFormula` | src/common/utils/csv.ts:8-14 | no text read back starts a formula, and only formulas are altered |
| `Csv.CellsCollideOnlyOnQuotedFormulas` | src/common/utils/csv.ts:8-14 | two different texts give the same cell if and only if one is a formula and the other is that formula already quoted |
| `CalendarFeed.EscapingIsPerCharacter` | src/modules/calendar/calendar.service.ts:12-18 | the four successive replacements are one map on characters |
| `CalendarFeed.EscapeRoundTrip` | src/modules/calendar/calendar.service.ts:12-18 | unescaping of section 3.3.11 of RFC 5545 undoes escaping for all texts |
| `CalendarFeed.SplitJoin` | src/modules/calendar/calendar.service.ts:33-73 | splitting at CRLF gives back the joined lines |
| `CalendarFeed.FeedLines` | src/modules/calendar/calendar.service.ts:33-73 | the feed is its heading, seven lines a package in order, and its end: 6 + 7n lines whatever the titles contain |
| `CalendarFeed.TitlesReadBack` | src/modules/calendar/calendar.service.ts:33-73 | a reader gets back every title exactly |
| `CalendarFeed.EventsReadBack` | src/modules/calendar/calendar.service.ts:31-46 | a reader gets back, of each package in order, its identifier, the time of the feed, its first day, the day after its last, and its title |
| `CalendarFeed.HeadingReadsBack` | src/modules/calendar/calendar.service.ts:64-70 | a reader gets back the version and the name of the calendar |
| `Seats.PackagesService.Create` | src/modules/packages/packages.service.ts:72-93 | a new package is open and counts no seat |
| `Seats.PackagesService.Update` | src/modules/packages/packages.service.ts:95-124 | changes the capacity alone, not the status |
| `Seats.PackagesService.Close` | src/modules/packages/packages.service.ts:126-136 | closes that package alone |
| `Seats.PackagesService.ReserveSeat` | src/modules/packages/packages.service.ts:206-227 | the package after a reservation, or the error, with its one side effect |
| `Seats.PackagesService.ReleaseSeat` | src/modules/packages/packages.service.ts:230-243 | the package after a release |
| `Seats.BookingsService.Create` | src/modules/bookings/bookings.service.ts:90-121 | both tables after a booking, or the error |
| `Seats.BookingsService.Cancel` | src/modules/bookings/bookings.service.ts:259-276 | both tables after a cancellation, or the error |
| `Seats.BookingsService.UpdateStep` | src/modules/bookings/bookings.service.ts:191-239 | both tables after a step of the dossier is updated |
| `Seats.BookingsService.MaybeConfirm` | src/modules/bookings/bookings.service.ts:381-403 | confirms a booking whose steps are all done, whatever its status was |
| `Seats.StepKeepsBounds` | src/modules/packages/packages.service.ts:206-243 | a request keeps seats within the capacity and `FULL` exact if and only if it is not an unsafe change of capacity |
| `Seats.BoundedIffResizesSafe` | src/modules/packages/packages.service.ts:95-124 | the same over whole runs |
| `Seats.LoweredCapacityStaysOpen` | src/modules/packages/packages.service.ts:95-124 | a run from empty tables that leaves a sold-out package open |
| `Seats.RaisedCapacityStaysFull` | src/modules/packages/packages.service.ts:95-124 | a run from empty tables that leaves a package full, and refusing bookings, with a seat free |
| `Seats.RaisedCapacityKeepsRefusing` | src/modules/packages/packages.service.ts:95-124 | after its capacity is raised a full package refuses every booking, whatever is requested, until a booking of it is cancelled |
| `Seats.StepDrift` | src/modules/bookings/bookings.service.ts:259-403 | one step changes the difference between active bookings and counted seats only on a revival or a clamped release |
| `Seats.StepKeepsCount` | src/modules/bookings/bookings.service.ts:381-403 | a request keeps seats equal to active bookings if and only if it does not complete the dossier of a cancelled booking |
| `Seats.CountedIffNothingRevived` | src/modules/bookings/bookings.service.ts:90-403 | seats are counted right all along a run if and only if nothing is revived in it |
| `Seats.ClampNeverActs` | src/modules/packages/packages.service.ts:232 | where seats are counted, `Math.max(0, ...)` never acts |
| `Seats.RunIsSound` | src/modules/packages/packages.service.ts:206-243 | in every run, revivals included, no package counts more seats than it has active bookings |
| `Seats.DriftIsRevivalsLessClamps` | src/modules/bookings/bookings.service.ts:259-403 | over any run the shortfall of a count is the number of revivals less the number of clamped releases |
| `Seats.NeverOversold` | src/modules/packages/packages.service.ts:206-227 | without revival or unsafe change of capacity, active bookings equal counted seats and never exceed the capacity, and `FULL` means none is left |
| `Seats.ClosedForGood` | src/modules/packages/packages.service.ts:126-136 | a closed package stays closed and takes no seat any more |
| `Seats.ClosingIsFinal` | src/modules/packages/packages.service.ts:126-136 | whatever follows the closing of a package, a booking of it is refused |
| `Seats.AcceptedIffSeatLeft` | src/modules/packages/packages.service.ts:206-219 | a booking is accepted if and only if the package is not closed and not sold out |
| `Seats.SecondCancelChangesNothing` | src/modules/bookings/bookings.service.ts:259-276 | cancelling twice releases one seat |
| `Seats.NoCompleteDossierIsPending` | src/modules/bookings/bookings.service.ts:381-403 | in every run a booking leaves the pending state as soon as its dossier is complete |
| `Seats.StepConfirmsIff` | src/modules/bookings/bookings.service.ts:191-218 | after a step is set the booking is confirmed if and only if it was or all five steps are done; nothing else changes |
| `Seats.CancelAcceptedIff` | src/modules/bookings/bookings.service.ts:259-276 | cancelled if and only if its own pilgrim asks; no other booking changes |
| `Seats.RevivalOversells` | src/modules/bookings/bookings.service.ts:389-396 | a revival in a sold-out package leaves one booking more than there are seats |
| `Seats.RevivalIsReachable` | src/modules/bookings/bookings.service.ts:191-218 | a run from empty tables that ends with two bookings of one seat |

## Left out

- Authentication, one-time codes, token signatures, signed file addresses: in `Tickets` the verdict on the signature is an input.
- Authorisation and ownership checks, except in disputes, where who may write decides the state, and for the pilgrim who cancels.
- Notifications, push, mail, storage, audit logs, and the message texts of errors.
- Payment gateways and `handleWebhook`: payment rows are taken as given, and the provider call inside `requestRefund` always succeeds.
- `BillingService.getContract`, and the parties and printed lines of an invoice.
- Floating-point rounding: amounts are integer cents and rates integer hundredths, where `Math.round` is exact; `arrondi` is then the identity.
- Local time: days are UTC days; the instant 24 months before another, for the purge of disputes, is a function of which only "earlier" is assumed; in the treasury the month of a date and the same day one month later are functions of which only "later" is assumed, and a week is seven times 24 hours.
- Parsing and printing of dates and amounts, beyond what `CalendarFeed.EventsReadBack` takes of a printer of dates, including the impossible dates `jour` refuses; a journal period is given in day numbers.
- GuidePlanning.NoGroupAgainstGroup: holds while package dates do not change; what changes of dates do over runs is `GuidePlanning.ExclusiveIffMovesSafe`.
- Concurrent `replaceForOwner` and booking: the tiers are read before `reserveSeat`, so a schedule replaced in between is frozen on the booking; the model takes the creation of a booking as one step.
- Crashes between `reserveSeat` and the creation of the booking, and concurrent seat updates: each request on seats is one step.
- Concurrent `assignGuide` requests: the check and the update are one step.
- `deleteBlock` and `createBlock` under interleaving: they are only in the serial model.
- RoomsInterleaved.NumbersStayInBlock: takes requested room numbers to be 1 or more, as validation of the request does.
- Tickets.NeverAcceptedTwice: assumes a clock in order, identifiers issued once and each valid ticket used by its expiry; without them the exact condition is `Tickets.AcceptedTwiceIffForgottenTooSoon`.
- Concurrent dispute requests and concurrent `syncBatch` calls: both read and then write outside a transaction, and are modelled one request, or one item, at a time; two simultaneous `create` could open two disputes of one booking.
- Reminders.OneReminderPerOffset: counts the reminders owed; a reminder whose sending fails is not sent again.
- The order in which the database returns rows: `OnCall` and the room allotment hold for any order, elsewhere it is the order of the given list.
- Sessions.RealtimeSessionsService.Register: takes a socket that is open and not registered yet, and leaves out the timer, which closes a socket like any other cause.
- The budget and profitability simulators, the savings scheduler, message threads, reviews, quizzes, users, agencies, documents and the remaining modules that only create, read, update and delete rows.
- `resetCounter` of rites, `getForBooking` of on-call, the rooming list and `findMine` of rooms, `getMine` of schedules: views or single updates over state modelled here.
