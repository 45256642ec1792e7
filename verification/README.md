# Court booking: a verified model

This project models the booking core of a campus court-booking backend and proves what it keeps over every run.
Several services share six tables (bookings, waitlist, slot_capacity, check_ins, booking_events, outbox) and change them in all-or-nothing transactions.

- `model.dfy`, `grid.dfy`, `statements.dfy`, `transitions.dfy`: the tables, the slot arithmetic, the meaning of each guarded SQL statement, and each service call as a function from tables to tables and an outcome.
- `database.dfy`: the same calls as methods of a class whose fields are the tables, loop by loop, with commit, rollback and the promotion savepoint. Every method is proved equal to its function in `transitions.dfy`, and every service call keeps its tables reachable, so the theorems about reachable states hold of the object.
- `invariants.dfy`, `counters.dfy`, `preservation.dfy`, `batches.dfy`: one invariant over all six tables, kept by every call; a whole sweep equals handling its rows one at a time.
- `runs.dfy`, `announcements.dfy`, `lastwords.dfy`, `deadlines.dfy`, `serving.dfy`: the theorems about every reachable state and every run.
- `outcomes.dfy`, `causes.dfy`, `queues.dfy`: when each call gives each of its answers and what it then has changed; and, the other way round, which calls can be behind each new row, each change of a row or a queue entry, and each check-in.
- `skiplocked.dfy`: promotion statement by statement, with any number of open transactions, row locks, uncommitted rows and savepoints.
- `promotion.dfy`: an uninterrupted promotion does to what its transaction sees what the one-step function does to the tables.
- `lockorder.dfy`, `sweeplocks.dfy`, `lockplans.dfy`: two-phase locking on the counter rows, that the plans name the counters that are written, why single-pass transactions cannot deadlock, and exactly when a check-in sweep among them can.
- `hub.dfy`, `hubfates.dfy`: the SSE hub, with every interleaving of its critical sections, and why a subscription ends.
- `dispatcher.dfy`, `progress.dfy`, `drain.dfy`: the outbox dispatchers, interleaved, why every row can reach its end, and one dispatcher's synchronous pass.
- `pivot.dfy`, `alternatives.dfy`, `coldpath.dfy`, `cells.dfy`: the campus grid pivot, the search for alternatives to a lost slot, when the fallback queries list the candidates of the grid, and when a cell tells the truth about what Create will answer.
- `token.dfy`: the rotating check-in token.
- `witness.dfy`: short concrete runs that reach the states in which the code does less than it says.

Instants are integers in nanoseconds. The campus zone is a fixed offset. Facility configuration is constant. A row's id is its index in its table.
Clocks, the token verdict of a check-in, the policy verdict, the queue priority, the database aborts and the rows other transactions have locked are parameters of a call.
A run may abort any call and may pass any clock to any call: no theorem about the six tables of a run assumes that the clock is monotone. Only the outbox interleavings do, where backoff is measured.

## Where the code and its words differ

- Cancelling a HELD booking never succeeds. `internal/booking/cancel.go:236-269` treats HELD as cancellable and `internal/waitlist/service.go:213-216` sends students there, but `internal/store/queries/booking_cancel.sql:32-35` leaves `held_until` set and `migrations/0003_core.up.sql:63` requires it to be null outside HELD, so the update violates the check and the transaction aborts. The model keeps the statement and the check apart (`Statements.CancelUpdate`, `Statements.HeldCheck`), derives the abort in every reachable state, and reaches such a state (`Witness.CancelOfAHoldAborts`). A consequence is that an entry is PROMOTED exactly while its booking is HELD (`Runs.OfferLinkage`, `Runs.CancelNeverEndsAHold`).
- Both sweeps write the release of a window to the outbox before the offer on it. Cancel writes `booking.cancelled` after the promotion, so the last outbox row about a window that was offered again says "free". `Announcements.CancelAnnounces` says exactly when the last row is true, and `Witness.CancelCanMislead` reaches a state in which it is not.
- A used idempotency key does not always return its booking. The request is validated again, policy is asked again, and on a shared facility the counters are taken before the index is met, so the booking's own place can make its replay fail. `Runs.ReplayExact` gives the exact condition; `Witness.FullReplayIsRefused` and `Witness.RefusedReplays` reach states in which a student's own replay gets "full", the policy refusal and "in the past". Nothing is ever created twice.
- `internal/checkin/token.go:114` calls the window a floor. The quotient truncates, which differs before 1970 (`Token.WindowIsFloorIff`, `Token.LifetimeFormulaIff`, `Token.TwoMinutesIff`).
- The ascending lock order covers transactions that make one pass over their counters. A check-in sweep makes one pass per no-show, in the order the rows come back: `internal/store/queries/booking_mark_no_show.sql:29-42` orders the selection, and an UPDATE promises no order for what it returns. Against single-pass transactions the sweep can deadlock if and only if some no-show gives up a new block below one already given up in its facility (`SweepLocks.SweepDeadlockIff`). In selection order that never happens (`SweepLocks.StartOrderIsSafe`); in another order it does (`Witness.TwoPassesCanDeadlock`). Two sweeps at once can deadlock with each other even in selection order (`Witness.TwoSweepsCanDeadlock`), unless one of them stays in one shared facility (`SweepLocks.OneFacilitySweepIsSafe`).
- A promotion that meets an occupied window is rolled back to its savepoint. For the first offer on a window a transaction has just freed that branch cannot be reached (`SkipLocked.FirstOfferNeverLoses`, `Batches.FreedWindowIsFree`).
- The campus query reads a shared facility's counter by the start of the column (`internal/store/queries/availability_campus_day.sql:119-123`), and the columns step by the smallest granularity of all facilities. A column that falls inside a longer block finds no counter and looks free however full the block is (`Cells.OffGridColumnsLookFree`); on the facility's own blocks the cell tells the truth (`Cells.SharedCellExact`, `Cells.BookableIffBooked`).

## Model

| member | source | states |
|---|---|---|
| Grid.ComputeSlotsFor | internal/booking/capacity.go:40-54 | the stepping loop appends exactly the blocks of `SlotsFor` |
| Grid.SlotsForAscending | internal/booking/capacity.go:30-54 | block starts are strictly ascending, hence without duplicates |
| Grid.SlotsForExact | internal/booking/capacity.go:40-54 | an instant starts a block iff it is a whole number of steps from the start and before the end |
| Grid.SlotsForFull | internal/booking/capacity.go:40-54 | when the step divides the window every block has full length |
| Grid.SlotsForCover | internal/booking/capacity.go:40-54 | every moment of the window lies in one of its blocks |
| Grid.ComputeClosureSlots | internal/booking/closure.go:464-491 | the nested day and offset loops append exactly `ClosureSlots` |
| Grid.ClosureSlotsExact | internal/booking/closure.go:464-491 | an instant starts a closed block iff it is an opening-hours grid block that overlaps the window |
| Grid.ClosureSlotsAscending | internal/booking/closure.go:460-491 | closed blocks come in strictly ascending order over all days |
| Grid.ValidateOnGrid | internal/booking/service.go:545-638 | a window that passes validation on a shared facility is made of whole grid blocks of one local day, inside opening hours |
| Grid.OnGridBlocks | internal/booking/service.go:616-638 | each block of an accepted booking is a block of the facility's grid |
| Grid.SharesBlock | internal/booking/closure.go:204-212 | an accepted booking that overlaps a closure shares a block with it |
| Grid.MidnightExact | internal/booking/service.go:568-583 | the local day of an instant is the one day beginning at or before it and less than a day ago, and no other |
| Grid.ValidateExact | internal/booking/service.go:545-638 | on every facility, courts included, a request passes iff the user is not nil, the facility is active, the duration is positive and within limits, the start is at most a minute past, the whole window lies in the opening hours of the local day on which it starts, and, where blocks are counted, start and duration are whole steps |
| Grid.RefusalsExact | internal/booking/service.go:545-638 | each refusal is given iff its test is the first to fail |
| Statements.ClaimHeadIsHead | internal/store/queries/waitlist_claim_head.sql:42-49 | the claim returns the unlocked overlapping WAITING entry that all others queue behind (priority down, position up), and nothing iff there is none |
| Statements.InsertExact | migrations/0003_core.up.sql:67-74 | a row is admitted iff no holding row of its facility overlaps it while it holds, and none has its user and key; a refusal names a reason that holds |
| Service.Database.Insert | internal/booking/exclusive.go:40-80 | the row is appended iff no row clashes with it and none has its user and key; a refusal changes nothing and names an existing row's reason |
| Service.Database.TakeSlots | internal/booking/service.go:283-298 | one take per block, ascending; full iff some block refuses |
| Service.Database.ReleaseCapacity | internal/booking/capacity.go:128-152 | a shared booking gives up one place in each of its blocks, an exclusive one touches no counter |
| Service.Database.ZeroSlots | internal/booking/closure.go:204-212 | every closed block's counter is zeroed or inserted at zero |
| Service.Database.RestoreSlots | internal/booking/closure.go:325-340 | every block with no other closure over it returns to the declared capacity |
| Service.Database.AttemptExclusive | internal/booking/service.go:386-496 | one exclusive attempt: row, event and outbox row together, or the tables as they were and the outcome |
| Service.Database.AttemptShared | internal/booking/service.go:265-361 | one shared attempt: counters, row, event and outbox row together, or the tables as they were |
| Service.Database.CreateRetrying | internal/booking/service.go:209-263 | the retry loop repeats after a deadlock only, at most three times |
| Service.Database.Create | internal/booking/service.go:160-189 | lookup, validation, then the attempts, with each error case |
| Service.Database.Promote | internal/waitlist/service.go:312-443 | the savepoint: an offer is made in full, or the tables are those of the savepoint |
| Service.Database.Reoffer | internal/booking/cancel.go:155-179 | promotion runs for exclusive facilities, and only when one is wired |
| Service.Database.Cancel | internal/booking/cancel.go:66-209 | guarded cancel, release, event, promotion and outbox row, or nothing |
| Service.Database.Claim | internal/booking/claim.go:35-140 | HELD to CONFIRMED before the deadline with entry, event and outbox row; a repeat converges; anything else is refused |
| Service.Database.Join | internal/waitlist/service.go:139-209 | one live entry per user and window, exclusive facilities only |
| Service.Database.Leave | internal/waitlist/service.go:217-254 | only the owner's WAITING entry leaves; a repeat converges; a promoted entry is refused |
| Service.Database.SweepHolds | internal/waitlist/sweeper.go:71-134 | the pass over expired holds commits whole or not at all, and counts what it expired and promoted |
| Service.Database.ExpireBooking | internal/waitlist/sweeper.go:81-122 | entry expired, event, outbox row, then the re-offer, for one hold |
| Service.Database.Redeem | internal/checkin/service.go:166-259 | a check-in is inserted once, for the owner's CONFIRMED booking inside the window; a repeat converges |
| Service.Database.SweepCheckIns | internal/checkin/service.go:420-501 | the attended are completed, then the absent released, in one transaction |
| Service.Database.ReleaseNoShow | internal/checkin/service.go:442-488 | event, counter release, outbox row, then the re-offer, for one no-show |
| Service.Database.CreateClosure | internal/booking/closure.go:149-269 | an identical closure is replayed; otherwise BLOCKED row, zeroed counters, event and outbox row, or nothing |
| Service.Database.Reopen | internal/booking/closure.go:279-367 | BLOCKED to CANCELLED once, restoring the counters no other closure covers |
| Outcomes.CreateExact | internal/booking/service.go:160-262 | the exact condition of each answer of Create: unknown facility, the validation refusal, given up, three deadlocks, a timeout, and otherwise what its deciding attempt answers; every answer but Created changes nothing |
| Outcomes.AttemptExact | internal/booking/service.go:265-361 | what the deciding attempt answers, in terms of the rows: refused by policy, full, taken iff a holding row overlaps and the key is new, replayed iff the key is used, and created iff none of these |
| Outcomes.DecidingExact | internal/booking/service.go:209-262 | the deciding attempt is the first that does not deadlock, provided nobody gave up before it |
| Outcomes.CreateEffect | internal/booking/service.go:386-496 | a created booking is there: one CONFIRMED row with exactly what was asked for, one event and one outbox row, and nothing else among rows, queue and check-ins |
| Outcomes.CancelExact | internal/booking/cancel.go:66-233 | in every reachable state the exact condition of each answer of Cancel: somebody neither owner nor manager is forbidden whatever the status, Done iff entitled and CONFIRMED, aborted iff entitled and HELD, converged iff entitled and CANCELLED; nothing but Done changes a table |
| Outcomes.CancelEffect | internal/booking/cancel.go:98-209 | a cancel that went through changed that row, logged and announced it, released only its own counters, and added at most one offer |
| Outcomes.ClaimExact | internal/booking/claim.go:35-140 | the exact condition of each answer of Claim: only the student the offer was made to, only while HELD and before the deadline; the row, its entry, one event and one outbox row follow, and nothing else |
| Outcomes.JoinExact | internal/waitlist/service.go:139-209 | Join appends one WAITING entry with exactly the window and priority given iff the facility queues and this user has no live entry for the window; every other answer has its condition and changes nothing |
| Outcomes.LeaveExact | internal/waitlist/service.go:217-254 | Leave ends exactly its owner's WAITING entry; every other answer has its condition and changes nothing |
| Outcomes.RedeemExact | internal/checkin/service.go:166-259 | Done iff a known actor owns the CONFIRMED booking, presents a valid token inside the window and has not checked in; then exactly that check-in is added, and otherwise nothing changes |
| Outcomes.RedeemRefusals | internal/checkin/service.go:166-259 | the exact condition of each other answer |
| Outcomes.CreateClosureExact | internal/booking/closure.go:149-269 | the exact condition of each answer: replayed iff an identical closure stands, taken iff a holding row of a court is in the way, created iff neither; nothing but Created changes a table |
| Outcomes.FindClosureFinds | internal/store/queries/closure_find.sql:13-27 | the lookup finds a standing closure of exactly this window whenever there is one |
| Outcomes.ClosureEffect | internal/booking/closure.go:192-242 | a created closure is there: one BLOCKED row without a user over exactly the window, one event and one outbox row; a court's closure touches no counter |
| Outcomes.ReopenExact | internal/booking/closure.go:279-367 | the exact condition of each answer of Reopen; a standing closure is always ended, with one event and one outbox row and no other row touched |
| Service.TakeAllStuck | internal/booking/service.go:283-298 | stopping at the first full block is the same as failing the whole take |
| CounterLemmas.CountersTaken | internal/booking/service.go:276-332 | a successful shared take keeps every counter equal to the bookings it counts |
| CounterLemmas.CountersReleased | internal/booking/capacity.go:69-152 | releasing a booking finds every one of its counters positive and keeps the equality |
| CounterLemmas.CountersZeroed | internal/booking/closure.go:204-212 | a new closure zeroes exactly the counters it overlaps |
| CounterLemmas.CountersRestored | internal/booking/closure.go:325-340 | reopening restores exactly the counters no other closure overlaps |
| CounterLemmas.TakeAllFails | internal/booking/capacity.go:56-91 | the take of a whole window fails iff some block of it is full or closed |
| Preservation.AttemptInv | internal/booking/service.go:265-361 | one create attempt keeps the invariant over all six tables |
| Preservation.CancelInv | internal/booking/cancel.go:66-209 | cancel, with its release and promotion, keeps the invariant |
| Preservation.ClaimInv | internal/booking/claim.go:35-140 | claim keeps the invariant |
| Preservation.PromoteInv | internal/waitlist/service.go:312-443 | promotion keeps the invariant whether or not an offer is made |
| Preservation.ExpireOneInv | internal/waitlist/sweeper.go:81-122 | expiring one hold and re-offering its window keeps the invariant |
| Preservation.NoShowOneInv | internal/checkin/service.go:442-488 | releasing one no-show and re-offering its window keeps the invariant |
| Preservation.CompleteOneInv | internal/checkin/service.go:430-441 | completing an attended booking keeps the invariant, its place in the counters included |
| Preservation.CreateClosureInv | internal/booking/closure.go:149-269 | closing keeps the invariant |
| Preservation.ReopenInv | internal/booking/closure.go:279-367 | reopening keeps the invariant, with overlapping closures too |
| Preservation.JoinInv | internal/waitlist/service.go:139-209 | joining keeps the invariant, one live entry per user and window included |
| Preservation.LeaveInv | internal/waitlist/service.go:217-254 | leaving keeps the invariant |
| Batches.FreedWindowIsFree | internal/waitlist/sweeper.go:81-122 | the hold for a freed window cannot conflict, whatever else the same pass freed |
| Batches.SweepHoldsIsOneByOne | internal/waitlist/sweeper.go:71-134 | expiring a batch up front and then re-offering equals expiring and re-offering one hold at a time, and keeps the invariant |
| Batches.CompleteIsOneByOne | internal/checkin/service.go:430-441 | completing a batch equals completing one booking at a time, and keeps the invariant |
| Batches.ReleaseNoShowsIsOneByOne | internal/checkin/service.go:442-488 | releasing a batch equals releasing and re-offering one booking at a time, and keeps the invariant |
| Runs.RunInv | internal/store/pg.go:170-195 | every state of every run, committed or aborted call by call, satisfies the invariant |
| Runs.NoDoubleBookingEver | internal/booking/exclusive.go:40-80 | in every reachable state no two exclusive CONFIRMED, HELD or BLOCKED rows of one facility overlap |
| Runs.CounterConservation | internal/booking/capacity.go:69-152 | in every reachable state `booked` is the number of CONFIRMED and COMPLETED bookings in the block and at most the declared capacity; the row's capacity is 0 iff a closure stands over the block and the declared one otherwise |
| Runs.ReleaseFindsPlaces | internal/booking/capacity.go:93-118 | the release made by a cancel always finds `booked` > 0 |
| Runs.SweepFindsPlaces | internal/checkin/service.go:451-459 | so does every release of a check-in sweep, in the middle of its pass |
| Runs.ClosedMeansClosed | internal/booking/capacity.go:40-91 | over a standing closure no shared create succeeds or changes anything, whatever other closures overlap |
| Runs.StepsDiffer | internal/booking/closure.go:305-323 | a booking's later events are strictly further along its lifecycle, so no transition repeats |
| Runs.AuditRefinesTable | internal/booking/service.go:532-543 | folding the events gives each booking's status; each event starts where the previous ended and follows the lifecycle; no status is entered twice |
| Runs.AnnouncedExactlyOnce | internal/booking/cancel.go:98-191 | each transition that has a topic has exactly one outbox row, and no outbox row is without its transition |
| Runs.OfferLinkage | internal/waitlist/service.go:367-405 | each HELD booking is one PROMOTED entry's, of the same user and facility; no booking is two entries'; PROMOTED iff HELD; a CONFIRMED booking's entry is CLAIMED and an EXPIRED entry's booking CANCELLED |
| Preservation.CancelDone | internal/store/queries/booking_cancel.sql:26-42 | a cancel whose row satisfied the check before goes through only from CONFIRMED, with release, event, re-offer and outbox row |
| Runs.CancelNeverEndsAHold | internal/store/queries/booking_cancel.sql:26-42 | in every reachable state an authorised cancel aborts iff the row is HELD and succeeds iff it is CONFIRMED, derived from the statement and the check |
| Runs.StatusUpdatesPassTheCheck | migrations/0003_core.up.sql:61-63 | in every reachable state the other updates that leave `held_until` alone satisfy the check and equal the model's |
| Witness.CancelOfAHoldAborts | internal/booking/cancel.go:236-269 | a reachable state in which the student holding an offer cancels it and the transaction aborts |
| Runs.AtMostOneAttemptCommits | internal/booking/service.go:209-263 | the bounded attempts leave the tables as they were or add one row, one event and one outbox row |
| Runs.UsedKeyReturnsItsRow | internal/booking/service.go:501-528 | a create with a used key changes nothing and returns no other row |
| Runs.AttemptsReplayIff | internal/booking/service.go:209-263 | after validation, the attempts return the original iff the deciding one is not aborted, policy admits it and, on a shared facility, the take succeeds |
| Runs.ReplayExact | internal/booking/service.go:160-189 | in every reachable state a create with a used key changes nothing, and returns the original iff the facility exists, the request still passes validation, the deciding attempt is not aborted, policy admits it and, on a shared facility, no block of the window is full or closed |
| Runs.RoomMeansPlaces | internal/booking/capacity.go:56-91 | in every reachable state that room is: fewer bookings than declared hold a place in each block, and no closure stands over one |
| Witness.FullReplayIsRefused | internal/booking/service.go:283-298 | a reachable state in which a student's replay is refused as full because of the student's own booking and another |
| Witness.RefusedReplays | internal/booking/service.go:545-605 | the same replay refused by policy, and refused as in the past once its start is over a minute gone |
| Runs.RunExtends | internal/booking/service.go:386-496 | over a run rows keep their identity, and events, outbox and check-ins only grow |
| Runs.KeyKeepsItsRow | internal/booking/service.go:501-528 | over a run, once a key has a row every later create with it changes nothing and returns that row or an error |
| Announcements.SweepHoldsAnnounces | internal/waitlist/sweeper.go:81-122 | after a waitlist sweep the last topic about each freed window maps to its true state, held if offered again and free otherwise |
| Announcements.ReleaseNoShowsAnnounces | internal/checkin/service.go:442-488 | the same after a check-in sweep, for exclusive windows |
| Announcements.CancelAnnounces | internal/booking/cancel.go:165-191 | after a cancel the last topic is true iff nobody unlocked was queueing or promotion is not wired |
| Witness.CancelCanMislead | internal/booking/cancel.go:165-191 | a reachable state and a cancel after which the last topic about the window is false |
| Announcements.PromoteOffers | internal/waitlist/service.go:367-405 | on a free window a promotion adds a HELD row iff somebody unlocked queues for it |
| LastWords.CreateAnnounces | internal/live/live.go:92-117 | after a booking of a court is created the last topic about its window maps to its true state, "booked" |
| LastWords.ClosureAnnounces | internal/live/live.go:92-117 | after a court is closed, "closed" |
| LastWords.ClaimAnnounces | internal/live/live.go:92-117 | after an offer is claimed, "booked" |
| LastWords.ReopenAnnounces | internal/live/live.go:92-117 | after a court is reopened, "free" |
| Deadlines.OfferLastsItsTtl | internal/waitlist/service.go:367-405 | an offer goes to the head of the queue; while its row is untouched that student can claim it exactly before made + ttl, and the sweep can expire it exactly from then on |
| Deadlines.ClaimOrExpire | internal/store/queries/booking_claim_held.sql:21-39 | in every reachable state a hold is at each instant either claimable by its student or due for the sweep, never both |
| Deadlines.HoldEndsOnce | internal/store/queries/booking_expire_held.sql:19-32 | after a claim no sweep takes the booking at any instant, and after a sweep no claim changes anything |
| Deadlines.RedeemOrNoShow | internal/store/queries/booking_mark_no_show.sql:29-42 | once its check-in window has opened, an unattended confirmed booking is at each instant either redeemable or due as a no-show, never both |
| Deadlines.EveryBookingResolves | internal/checkin/service.go:420-441 | after its slot and grace a confirmed booking is due for exactly one half of the check-in sweep |
| Deadlines.AttendedIsNeverNoShow | internal/checkin/service.go:166-259 | over a run a checked-in booking never becomes a no-show, and only checked-in bookings are completed |
| Causes.EveryChangeHasItsCause | internal/booking/cancel.go:66-209 | from every reachable state every committed call of any kind changes exactly the rows it has cause to change, in exactly the way it has cause to, and no other row |
| Causes.StepsHaveCauses | internal/store/queries/booking_mark_no_show.sql:29-42 | each step of the lifecycle has one kind of call, its entitled actor and its due time |
| Causes.SweptAreDue | internal/checkin/service.go:420-488 | a swept row was due by its status, its clock and its check-in, and nobody is both completed and released |
| Causes.HoldPassedOver | internal/store/queries/booking_expire_held.sql:19-32 | an unlocked due hold is passed over only for a hundred others with no later deadline |
| Causes.AttendedPassedOver | internal/store/queries/booking_complete_attended.sql:16-30 | an unlocked attended booking that has ended is passed over only for a hundred others that ended no later |
| Causes.AbsentPassedOver | internal/store/queries/booking_mark_no_show.sql:29-42 | an unlocked no-show is passed over only for a hundred others that started no later |
| Causes.CancelledByTheEntitled | internal/booking/cancel.go:94-96 | over a run a step from CONFIRMED to CANCELLED is a committed cancel by the owner or a manager |
| Causes.EveryRowHasItsCause | internal/waitlist/service.go:367-443 | every new row was asked for by a request that passed validation, or is the closure asked for, or is an offer of a standing row's window to somebody who was waiting for it |
| Causes.RowsStayInHours | internal/booking/service.go:568-605 | in every state of every run every student's row, courts and promoted holds included, lies in its facility's opening hours of one local day and within its duration limits |
| Causes.HeldMeansHeld | internal/booking/service.go:386-496 | on a court, a create over a holding row neither succeeds nor changes anything, however its attempts go |
| Causes.StandsUntilReopened | internal/booking/closure.go:279-367 | over a run a closure keeps its row until a committed Reopen of it |
| Causes.ClosedUntilReopened | internal/booking/closure.go:192-242 | end to end: after a committed closure of a court or a shared facility was answered Created, no Create that overlaps it succeeds until that closure is reopened |
| Causes.RedeemedIsSafe | internal/checkin/service.go:166-259 | end to end: after a committed check-in was answered Done the booking is never a no-show nor due to be one, and if still CONFIRMED at its end it is due to be completed |
| Queues.EveryEntryHasItsCause | internal/waitlist/service.go:217-443 | from every reachable state an entry is claimed with its own offer, expires with it, is left by its owner while it waits, and is promoted to a new row only where a window is freed; no call does anything else to it |
| Queues.EveryCheckInHasItsCause | internal/store/queries/checkin_redeem.sql:28-36 | nothing but a check-in that was answered Done makes a check-in, and nothing removes one |
| Serving.SweepHoldsServes | internal/waitlist/sweeper.go:71-134 | after a waitlist sweep every reclaimed window is held again or nobody unlocked waits for any part of it, whatever the rest of the batch did |
| Serving.ReleaseServes | internal/checkin/service.go:420-501 | the same for every window a check-in sweep released on a court |
| Serving.CancelServes | internal/booking/cancel.go:165-191 | the same for the window of a cancelled booking on a court |
| LockOrder.PlansOrdered | internal/booking/capacity.go:142-150 | shared create, cancel, close and reopen each take their locks in ascending order |
| LockOrder.SomebodyMoves | internal/booking/capacity.go:30-54 | from any unfinished transaction the chain of holders ends at one that can move |
| LockOrder.NoDeadlock | internal/booking/service.go:283-298 | any number of ordered transactions, in any state: unless all have ended, one can move |
| LockOrder.AdvanceKeeps | internal/store/pg.go:170-195 | taking a free lock or ending keeps mutual exclusion and the order |
| LockOrder.EverybodyFinishes | internal/booking/closure.go:460-491 | from every state all transactions can be brought to their end |
| LockOrder.ScheduleLength | internal/booking/capacity.go:142-150 | every schedule makes exactly as many moves as there are lock requests and commits left, so none runs forever |
| SweepLocks.OperationsAreSinglePass | internal/booking/capacity.go:142-150 | each of the four operations ascends over the counters of one facility |
| LockPlans.SharedWritesItsPlan | internal/booking/service.go:265-361 | a shared booking writes exactly the counters its lock plan names |
| LockPlans.ReleaseWritesItsPlan | internal/booking/capacity.go:128-152 | a release writes exactly the counters of its blocks that still count somebody |
| LockPlans.ClosureWritesItsPlan | internal/booking/closure.go:204-212 | a closure writes only counters its plan names, and every one of them that was not closed yet |
| LockPlans.ReopenWritesItsPlan | internal/booking/closure.go:279-367 | a reopening writes only counters its plan names |
| SweepLocks.RetakeIsFree | internal/checkin/service.go:451-459 | asking again for a lock already held never waits, so repeated blocks can be left out of a plan |
| SweepLocks.OrderedIsExact | internal/booking/capacity.go:30-54 | a plan without repeats can be deadlocked by some ordered partners iff it is not ordered itself |
| SweepLocks.SweepOrderedIff | internal/checkin/service.go:442-459 | the sweep's counters, repeats aside, ascend in each facility iff no no-show of the batch descends |
| SweepLocks.DescentSticks | internal/checkin/service.go:442-459 | a batch that descends can end with the sweep and a closure of the same blocks waiting for each other |
| SweepLocks.SweepDeadlockIff | internal/checkin/service.go:442-459 | a sweep can be deadlocked by single-pass transactions iff some no-show gives up a new block below one an earlier no-show gave up in the same facility |
| SweepLocks.StartOrderIsSafe | internal/store/queries/booking_mark_no_show.sql:29-42 | a batch handled in order of start never deadlocks with single-pass transactions, whichever facilities it visits |
| Witness.TwoPassesCanDeadlock | internal/checkin/service.go:442-459 | a reachable state, a batch the sweep can receive, and a closure with which it can deadlock |
| SweepLocks.TwoDeadlockIff | internal/checkin/service.go:442-459 | two transactions with any plans, two sweeps among them, can deadlock iff there are points at which each wants a lock the other has taken while they have taken none in common |
| SweepLocks.OneFacilitySweepIsSafe | internal/store/queries/booking_mark_no_show.sql:29-42 | two sweeps in order of start never deadlock with each other when one stays in one shared facility |
| Witness.TwoSweepsCanDeadlock | internal/store/queries/booking_mark_no_show.sql:29-42 | a reachable state and two batches, each skipping the other's rows and in order of start, whose sweeps can deadlock |
| SkipLocked.InterleavingInv | internal/waitlist/service.go:312-443 | every interleaving of claims, holds, savepoints, rollbacks and commits keeps locks, freed windows and uncommitted rows apart |
| SkipLocked.PromotionsExclusive | internal/waitlist/service.go:367-443 | no entry is promoted twice, no two open transactions own one entry, and committed live rows never overlap |
| SkipLocked.ClaimTakesTheBest | internal/store/queries/waitlist_claim_head.sql:42-49 | if any unlocked overlapping WAITING entry exists a claim succeeds, and takes a WAITING entry of the same facility that overlaps the window and is served no later |
| SkipLocked.FirstOfferNeverLoses | internal/waitlist/service.go:386-395 | the first hold on a freed window neither waits for another transaction nor conflicts |
| SkipLocked.FailRestores | internal/waitlist/service.go:319-364 | rolling back to the savepoint restores writes and locks |
| SkipLocked.FailedPromotionLeavesNothing | internal/waitlist/service.go:312-364 | from savepoint to failure, with others running in between, entries, bookings, events, outbox and locks end as they began |
| PromotionSteps.PromotionIsAtomic | internal/waitlist/service.go:312-443 | run without interruption, the statements of a promotion leave their transaction seeing what the one-step promotion leaves: the same queue, holding rows and numbers of events and outbox rows |
| Hub.LiveHub.Register | internal/live/hub.go:141-156 | the locked part of Subscribe adds one subscription to its date and reports whether the hub had stopped |
| Hub.LiveHub.Remove | internal/live/hub.go:171-188 | removal takes the subscription and, if it was the last, its date bucket |
| Hub.LiveHub.Finish | internal/live/hub.go:72-74 | the channel is closed unless it was closed already |
| Hub.LiveHub.Deliver | internal/live/hub.go:219-234 | in any map order: every watcher with room gets the event at the end of its buffer, every full one is marked, removed and returned |
| Hub.LiveHub.Gather | internal/live/hub.go:329-340 | shutdown takes every registered subscription and leaves an empty map |
| Hub.InterleavingInv | internal/live/hub.go:141-246 | the hub invariant holds after every interleaving of subscribes, closes, dispatches, reads and shutdowns |
| Hub.HubIsSafe | internal/live/hub.go:63-74 | a registered subscription's channel is open, a channel closes at most once, no bucket is empty, and a subscription leaves only by drop, close or shutdown |
| Hub.ShutdownClosesEverything | internal/live/hub.go:329-348 | once the hub has stopped and no call is in flight every subscription ever made is closed, racing ones included |
| Hub.CallsFinish | internal/live/hub.go:141-188 | the calls in flight can always run to their end |
| Hub.CallsAlwaysFinish | internal/live/hub.go:141-188 | however their steps are interleaved the calls in flight end: their runs are bounded by their load, and one that cannot go on has left nothing in flight |
| Hub.DeliveredWithoutGaps | internal/live/hub.go:219-246 | consumed plus buffered is a contiguous run of the date's events from the subscription on, up to the latest while registered |
| Hub.OthersUnaffected | internal/live/hub.go:198-246 | what one dispatch does to a subscriber depends on that subscriber alone |
| HubFates.DeliverExact | internal/live/hub.go:219-234 | one event, in terms of the old buffers: a registered watcher of its date with room is still registered, keeps its mark and holds one event more; a full one keeps its buffer, leaves and is marked; nobody else is touched |
| HubFates.MarksHaveCauses | internal/live/hub.go:219-246 | over every interleaving a subscription is marked dropped only if an earlier dispatch for its date found it registered with its buffer full, asked only if its handler closed it, and the hub stops only by a shutdown |
| HubFates.EndsForAReason | internal/live/hub.go:63-74 | a subscription leaves the map only after one of these three |
| HubFates.ClosedIff | internal/live/hub.go:141-188 | while the hub runs and no call is in flight exactly the dropped and the closed subscriptions have a closed channel, and exactly the others are registered |
| Outbox.RunKeeps | internal/outbox/dispatcher.go:378-520 | every interleaving of claims, sends, records, requeues and crashes keeps the dispatcher invariant |
| Outbox.DispatchAccounting | internal/outbox/dispatcher.go:367-445 | a row in flight is SENT and with one dispatcher only; attempts stay under the ceiling; nothing is delivered twice; attempts are a backoff apart |
| Outbox.EveryRowHasAFate | internal/outbox/dispatcher.go:472-497 | a row nobody holds waits, rests, is a dead letter refused exactly the maximum number of times, was delivered once, or was lost |
| Outbox.SettledIsFinal | internal/store/queries/outbox_requeue_failed.sql:14-27 | a delivered, lost or dead-lettered row never changes again |
| Outbox.OnlyAccidentsLose | internal/outbox/dispatcher.go:367-445 | a row is lost only through a crash or a verdict that could not be recorded |
| Outbox.DelayExact | internal/store/queries/outbox_requeue_failed.sql:14-27 | the wait is the base after the first failure, doubles with each further one, never exceeds the cap, and reaches it |
| Outbox.DefaultsExact | internal/outbox/dispatcher.go:133-168 | an option that is not positive becomes its default and a positive one is kept; unconfigured, a row waits two, four, eight and sixteen seconds |
| OutboxProgress.EveryRowCanSettle | internal/outbox/dispatcher.go:318-347 | from every state, whatever the transport answers, a run without accidents leaves each row delivered, dead-lettered after exactly the maximum number of refusals, or lost as it already was |
| Drain.PickExact | internal/store/queries/outbox_drain.sql:18-24 | a batch is an ascending selection of waiting rows, and all of them unless the limit is reached |
| Drain.PickedFirst | internal/store/queries/outbox_drain.sql:18-24 | a row passed over comes after every row picked |
| Drain.PickedIff | internal/store/queries/outbox_drain.sql:18-24 | a row of the set is picked iff fewer than the limit come before it |
| Drain.RequeueExact | internal/store/queries/outbox_requeue_failed.sql:14-27 | the requeue makes PENDING exactly the first batch of rows that failed, have attempts left and have rested, and changes no other |
| Drain.PhasedExact | internal/outbox/dispatcher.go:378-445 | claim, sends and record change exactly the rows of the batch, each by its own verdict |
| Drain.PhasedIsOneByOne | internal/outbox/dispatcher.go:378-445 | a round on a batch equals handling its rows one by one |
| Drain.RoundIsARun | internal/outbox/dispatcher.go:378-445 | a round is one of the interleavings, so what holds of all of them holds after it |
| Drain.SettlesIff | internal/outbox/dispatcher.go:505-520 | without database errors a pass settles iff fewer rows wait than its remaining rounds take, and leaves exactly the surplus |
| Drain.DrainNowSettlesIff | internal/outbox/dispatcher.go:505-520 | DrainNow returns nil iff fewer than 20 full batches wait after the requeue, and then nothing waits |
| Drain.SentAtMostOnce | internal/outbox/dispatcher.go:499-520 | however it ends a pass sends a row at most once, and only if it was waiting when it began |
| Drain.Dispatcher.RequeueFailed | internal/outbox/dispatcher.go:477-497 | the first due failed rows return to the queue, and their number is reported |
| Drain.Dispatcher.DrainOnce | internal/outbox/dispatcher.go:378-445 | one claimed, sent and recorded batch, or nothing on a database error |
| Drain.Dispatcher.DrainNow | internal/outbox/dispatcher.go:505-520 | the requeue and up to twenty rounds, with the three ways to end |
| Pivot.CampusFromRows | internal/facility/availability.go:258-319 | the loops produce the reference grid: first-seen headers, a rectangle, the last report in each cell, holes empty and trailing cells closed |
| Pivot.CourtsAreDistinct | internal/facility/availability.go:286-292 | the row headers are the distinct courts of the stream, once each |
| Pivot.SlotsAreDistinct | internal/facility/availability.go:294-299 | the column headers are the distinct starts of the stream, once each |
| Pivot.LatestIsReported | internal/facility/availability.go:301-304 | a cell's state is that of the last row about its pair |
| Pivot.CompleteStreamsHaveNoGaps | internal/facility/availability.go:258-319 | when every court is reported for every slot each cell is that pair's last report |
| Pivot.EmptyCellsAreHoles | internal/facility/availability.go:301-316 | a cell is empty iff its pair was not reported and a later column of its court was |
| Pivot.CellsExact | internal/facility/availability.go:301-316 | every cell: the state of the last row about its pair, else empty if its court is reported in a later column, else the word "closed" |
| Alternatives.RunFree | internal/booking/alternatives.go:235-253 | true iff an unbroken chain of adjacent bookable cells from the column covers the duration |
| Alternatives.FitsIsSound | internal/booking/alternatives.go:229-253 | every moment of such a window lies in a bookable cell, on any axis |
| Alternatives.FitsIsCoverage | internal/booking/alternatives.go:229-253 | on an ascending axis the chain test is true iff every moment of the window lies in a bookable cell |
| Alternatives.SlotIndex | internal/booking/alternatives.go:256-263 | the first column that starts exactly then, or -1 |
| Alternatives.StableOrdered | internal/booking/alternatives.go:212-215 | the sort is an ordered rearrangement |
| Alternatives.StableKeepsTies | internal/booking/alternatives.go:212-215 | the sort keeps elements of one key in their order |
| Alternatives.FromGrid | internal/booking/alternatives.go:172-218 | the scan merges the sorted answers to the two questions |
| Alternatives.Merge | internal/booking/alternatives.go:267-296 | two of the same court, then other courts, then the rest of the same court, three at most |
| Alternatives.ThreeOfEachSuffice | internal/booking/alternatives.go:298-323 | merging the first three of each list equals merging the full lists |
| Alternatives.MergeIsFair | internal/booking/alternatives.go:45-57 | for any two lists: the result has min(3, total) items, keeps both orders, opens with the first list's first, and always gives the second list a place |
| Alternatives.SuggestedIsFair | internal/booking/alternatives.go:172-218 | a warm scan suggests min(3, all answers): the lost court's nearest later starts in order and first, at least two if there are two, and the first other courts by name, at least one if there is one |
| Alternatives.SuggestionsAreBookable | internal/booking/alternatives.go:172-218 | every suggestion is a later start on the lost court or the same time on another of its sport, and all of it lies in bookable cells |
| Alternatives.NearestLaterFirst | internal/booking/alternatives.go:183-215 | if a later start fits the list opens with one, and none that fits is earlier |
| Alternatives.ElsewhereIsRepresented | internal/booking/alternatives.go:49-57 | for every other court that fits, that one or one no later by name is suggested |
| Alternatives.SilentIffNothingAnswers | internal/booking/alternatives.go:172-218 | nothing is suggested iff nothing answers either question |
| ColdPath.FitsIffFree | internal/booking/alternatives.go:229-253 | on the campus day of an exclusive facility a window of whole steps fits from a column iff the facility is open for it and no holding row overlaps it |
| ColdPath.LaterAgree | internal/store/queries/alternatives_same_facility.sql:33-69 | where the facility steps with the campus axis, its query lists exactly the later starts the scan lists, and none if the duration is outside its limits |
| ColdPath.SameTimeAgrees | internal/store/queries/alternatives_same_sport.sql:14-56 | where the lost time is a column, the other query lists an exclusive facility iff the scan does and the duration is within its limits |
| Cells.BookableStates | internal/booking/alternatives.go:220-227 | a cell is bookable iff it says "free" or "filling": not when held, booked, closed, full or empty |
| Cells.SharedCellExact | internal/store/queries/availability_campus_day.sql:58-72 | in every reachable state the cell of a shared block, in terms of the bookings alone: closed outside hours or under a closure, full iff every declared place is taken, filling iff at most a fifth is left, else free |
| Cells.BookableIffBooked | internal/store/queries/availability_campus_day.sql:58-72 | in every reachable state a column is shown as bookable iff a valid request for it, with a new key and nothing else against it, is booked: on a court any column, on a shared facility one of its own blocks |
| Cells.OffGridColumnsLookFree | internal/store/queries/availability_campus_day.sql:119-123 | a column that does not begin a block of its shared facility is shown as free, hours and closures apart, however full its block is |
| Token.Encode | internal/checkin/token.go:125-138 | the shifting loop fills the buffer with the low eight bytes, most significant first |
| Token.BytesRoundTrip | internal/checkin/token.go:130-135 | the two's complement reading of the eight bytes gives back every int64 |
| Token.MessageIsInjective | internal/checkin/token.go:125-138 | two signed messages are equal iff facility and window are |
| Token.VerifiesIff | internal/checkin/token.go:74-105 | a token verifies iff the facility is the same and the window is its own or the next |
| Token.DisabledFailsClosed | internal/checkin/token.go:52-79 | without a secret nothing is minted and nothing verifies |
| Token.LifetimeIsExact | internal/checkin/token.go:107-112 | from 1970 on a token is current for `ExpiresIn` and valid for exactly one window more, over one minute and at most two |
| Token.WindowIsFloorIff | internal/checkin/token.go:114-117 | the window is the floor iff the clock is not before 1970 or reads the first second of a minute |
| Token.LifetimeFormulaIff | internal/checkin/token.go:107-117 | the promised end of life is the true one at every later clock iff the token was minted less than two minutes before 1970, or later |
| Token.TwoMinutesIff | internal/checkin/token.go:107-117 | a token is promised at most two minutes iff it was minted from 1970 on or in the first second of a minute |
| Token.EpochTokenOutlives | internal/checkin/token.go:107-117 | a token minted 59 seconds before 1970 still verifies almost three minutes later |

## Left out

- Announcements.CancelAnnounces: speaks of the order of outbox rows. A batch may be published in another order, and a refused row is published again after later ones, so what a client hears last is not modelled.
- ColdPath.LaterAgree: is about exclusive facilities, whose rows decide both answers. Where a facility steps differently from the campus axis, or the duration is not of whole steps, the scan and the queries need not list the same starts, and no condition is given.
- Service.Database.Create: fair-use policy is one boolean per attempt, and the alternatives attached to a conflict are modelled on their own, because neither changes a table.
- Service.Database.Cancel: the booking is found by index, so a nil id is not modelled, and the request's reason text is not kept.
- Service.Database.SweepHolds: the order of the batch within the rows the statement selects is a parameter, because the selection is the database's.
- Outcomes.RedeemRefusals: an empty token is refused as any invalid one, although the source gives it an answer of its own.
- LockPlans.ReopenWritesItsPlan: which of the named counters are restored depends on the other closures and is stated by `CounterLemmas.CountersRestored`.
- Service.Database.CreateClosure: the list of affected bookings and the counts in the reply are reports and not modelled.
- Grid.ClosureSlotsExact: granularity is positive, as every shared facility needs; the branch of `closureSlots` for a non-positive step blocks nothing.
- Outbox.DispatchAccounting: a claim may take any waiting rows up to the batch size, which includes every choice SKIP LOCKED can make.
- SweepLocks.SweepDeadlockIff: the rows the sweep locks with SKIP LOCKED are not locks of the model, since whoever waits for one holds no counter yet.
- SkipLocked.ClaimTakesTheBest: the exclusion constraint makes a conflicting insert wait for the other transaction to end, and the wait itself is an action that is not enabled; timeouts are failures.
- Token.VerifiesIff: the MAC is an ideal injective function and the text encoding a bijection; the two clock readings of `ExpiresIn` are one.
- Alternatives.FromGrid: names and sports are numbers in name order, because only their order and equality matter; the stable sort is a function with the library's documented properties.
- The live publish made before each send: its error is dropped and touches no row.
- Service.Release, a primitive that lowers counters without a booking, is not a transition of any service.
- Daylight-saving zones: days are 24 hours at a fixed offset.
- HTTP, authentication, rate limits, metrics, notifier transports, analytics, the demo console and the catalogue's own errors: plumbing and reporting.
- LISTEN/NOTIFY, Redis and lost commit acknowledgements: delivery of wake-ups changes no table.
- Backoff sleeps between create attempts and the alternatives' time budget: latency, not state.
- Shared-facility waitlists: Join refuses them.
- List endpoints and queue positions: reads of one table.
