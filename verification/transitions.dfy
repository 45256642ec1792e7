/** The service calls as functions of the tables. A call either commits, and the
    result is the new tables, or it does not, and the result is the old ones. */
module Transitions {
  import opened Model
  import opened Grid
  import opened Statements

  datatype Outcome =
    | Created(id: nat) | Replayed(id: nat) | Converged(id: nat) | Done(id: nat)
    | Swept(first: nat, second: nat)
    | Invalid(refusal: Refusal) | BadRequest | NotFound | Forbidden
    | Taken | CapacityFull | PolicyRefused | Deadlocked | TimedOut | ContextDone | Exhausted
    | NotCancellable | OfferExpired | AlreadyWaiting | NotWaiting
    | InvalidToken | NotCheckable | OutsideWindow
    | Aborted

  datatype Step = Step(tables: Tables, outcome: Outcome)

  // -------------------------------------------------- pieces shared by the calls

  /** An outbox row about booking i. */
  function MessageFor(t: Tables, topic: Topic, i: nat): Message
    requires i < |t.bookings|
  {
    var b := t.bookings[i];
    Message(topic, i, b.facility, b.start, b.end)
  }

  /** A new booking row with its audit event and its outbox row. */
  function Opened(t: Tables, row: Booking, topic: Topic): Tables
  {
    var n := |t.bookings|;
    t.(bookings := t.bookings + [row],
       events := t.events + [Event(n, None, row.status)],
       outbox := t.outbox + [Message(topic, n, row.facility, row.start, row.end)])
  }

  /** The audit event of booking i going from one status to another. */
  function Logged(t: Tables, i: nat, from: Status, to: Status): Tables
  {
    t.(events := t.events + [Event(i, Some(from), to)])
  }

  function Announced(t: Tables, topic: Topic, i: nat): Tables
    requires i < |t.bookings|
  {
    t.(outbox := t.outbox + [MessageFor(t, topic, i)])
  }

  /** ReleaseCapacity: nothing for an exclusive facility, one counter per block otherwise. */
  function Released(c: Campus, t: Tables, i: nat): Tables
    requires i < |t.bookings| && t.bookings[i].facility in c.facilities
  {
    var b := t.bookings[i];
    if b.exclusive then t
    else t.(capacity := ReleaseAll(t.capacity, b.facility, SlotsFor(c.facilities[b.facility].granularity, b.start, b.end)))
  }

  function HeldRow(c: Campus, f: FacilityId, user: UserId, start: Instant, end: Instant, now: Instant): Booking
  {
    Booking(f, Some(user), true, start, end, Held, None, Some(now + c.ttl))
  }

  /** promote: offer the window to the head of its queue, under a savepoint. An empty
      queue and a window somebody else holds both leave the tables as they were. */
  function Promote(c: Campus, t: Tables, f: FacilityId, start: Instant, end: Instant, now: Instant, locked: Locked): Tables
  {
    match ClaimHead(t.waitlist, f, start, end, locked.entries)
    case None => t
    case Some(w) =>
      if Conflicts(t.bookings, f, start, end) then t
      else Offered(c, t, w, f, start, end, now)
  }

  /** offerHead, once entry w is claimed and the window is free. */
  function Offered(c: Campus, t: Tables, w: nat, f: FacilityId, start: Instant, end: Instant, now: Instant): Tables
    requires w < |t.waitlist|
  {
    var e := t.waitlist[w];
    Opened(t.(waitlist := t.waitlist[w := e.(status := Promoted, booking := Some(|t.bookings|))]),
           HeldRow(c, f, e.user, start, end, now), WaitlistPromoted)
  }

  /** The promotion a freed booking triggers: exclusive facilities only. */
  function Reoffered(c: Campus, t: Tables, i: nat, now: Instant, locked: Locked): Tables
    requires i < |t.bookings|
  {
    var b := t.bookings[i];
    if c.promoting && b.exclusive then Promote(c, t, b.facility, b.start, b.end, now, locked) else t
  }

  // -------------------------------------------------------------------- create

  datatype Request = Request(facility: FacilityId, user: UserId, start: Instant, duration: int, key: string)

  datatype Fault = NoFault | Deadlock | Timeout

  /** What one attempt meets: an abort by the database, the verdict of the fair-use
      gate (never a refusal when none is wired), the order in which violated
      constraints are reported, and whether the caller gives up during the backoff. */
  datatype Conditions = Conditions(fault: Fault, policyRefuses: bool, uniqueFirst: bool, contextDone: bool)

  const MAX_ATTEMPTS: nat := 3

  function KeyOf(r: Request): Option<string>
  {
    if r.key == "" then None else Some(r.key)
  }

  function RowOf(r: Request, exclusive: bool): Booking
  {
    Booking(r.facility, Some(r.user), exclusive, r.start, r.start + r.duration, Confirmed, KeyOf(r), None)
  }

  /** findByIdemKey, after the rollback. */
  function Replay(t: Tables, r: Request): Outcome
  {
    match FindKey(t.bookings, Some(r.user), KeyOf(r))
    case Some(i) => Replayed(i)
    case None => NotFound
  }

  function AttemptExclusive(t: Tables, r: Request, k: Conditions): Step
  {
    var row := RowOf(r, true);
    if k.fault == Deadlock then Step(t, Deadlocked)
    else if k.fault == Timeout then Step(t, TimedOut)
    else if k.policyRefuses then Step(t, PolicyRefused)
    else match CheckInsert(t.bookings, row, k.uniqueFirst)
      case Admitted => Step(Opened(t, row, BookingConfirmed), Created(|t.bookings|))
      case DuplicateKey => Step(t, Replay(t, r))
      case SlotTaken => Step(t, if Replay(t, r).Replayed? then Replay(t, r) else Taken)
  }

  function AttemptShared(f: Facility, t: Tables, r: Request, k: Conditions): Step
  {
    var row := RowOf(r, false);
    if k.fault == Deadlock then Step(t, Deadlocked)
    else if k.fault == Timeout then Step(t, TimedOut)
    else if k.policyRefuses then Step(t, PolicyRefused)
    else match TakeAll(t.capacity, r.facility, SlotsFor(f.granularity, r.start, r.start + r.duration), f.capacity)
      case None => Step(t, CapacityFull)
      case Some(cap) =>
        match CheckInsert(t.bookings, row, k.uniqueFirst)
        case Admitted => Step(Opened(t.(capacity := cap), row, BookingConfirmed), Created(|t.bookings|))
        case _ => Step(t, Replay(t, r))
  }

  function Attempt(f: Facility, t: Tables, r: Request, k: Conditions): Step
  {
    if f.exclusive then AttemptExclusive(t, r, k) else AttemptShared(f, t, r, k)
  }

  /** createExclusive and createShared: only a deadlock is tried again. */
  function Attempts(f: Facility, t: Tables, r: Request, ks: seq<Conditions>): Step
  {
    if |ks| == 0 then Step(t, Exhausted)
    else
      var s := Attempt(f, t, r, ks[0]);
      if s.outcome != Deadlocked then s
      else if ks[0].contextDone then Step(s.tables, ContextDone)
      else Attempts(f, s.tables, r, ks[1..])
  }

  function Create(c: Campus, t: Tables, r: Request, now: Instant, ks: seq<Conditions>): Step
  {
    if r.facility !in c.facilities then Step(t, NotFound)
    else
      var f := c.facilities[r.facility];
      match Validate(f, c.zone, r.user, r.start, r.duration, now)
      case Some(refusal) => Step(t, Invalid(refusal))
      case None => Attempts(f, t, r, ks)
  }

  // ---------------------------------------------------------- cancel and claim

  /** Cancel. A row that the guarded UPDATE leaves in violation of the CHECK aborts the
      transaction. */
  function Cancel(c: Campus, t: Tables, i: nat, actor: UserId, manager: bool, now: Instant, locked: Locked): Step
    requires i < |t.bookings| ==> t.bookings[i].facility in c.facilities
  {
    if actor == NIL_USER then Step(t, BadRequest)
    else if i >= |t.bookings| then Step(t, NotFound)
    else
      var b := t.bookings[i];
      if b.user != Some(actor) && !manager then Step(t, Forbidden)
      else match CancelUpdate(b)
        case None => if b.status == Cancelled then Step(t, Converged(i)) else Step(t, NotCancellable)
        case Some(row) =>
          if !HeldCheck(row) then Step(t, Aborted)
          else
            var freed := Logged(Released(c, t.(bookings := t.bookings[i := row]), i), i, b.status, Cancelled);
            Step(Announced(Reoffered(c, freed, i, now, locked), BookingCancelled, i), Done(i))
  }

  function Claim(t: Tables, i: nat, actor: UserId, now: Instant): Step
  {
    if actor == NIL_USER then Step(t, BadRequest)
    else if i >= |t.bookings| then Step(t, NotFound)
    else
      var b := t.bookings[i];
      if b.user != Some(actor) then Step(t, Forbidden)
      else if b.status == Held && b.heldUntil.Some? && b.heldUntil.value > now then
        var claimed := t.(bookings := Marked(t.bookings, {i}, Confirmed), waitlist := Retired(t.waitlist, i, EntryStatus.Claimed));
        Step(Announced(Logged(claimed, i, Held, Confirmed), BookingConfirmed, i), Done(i))
      else if b.status == Confirmed then Step(t, Converged(i))
      else Step(t, OfferExpired)
  }

  // ------------------------------------------------------------------ waitlist

  function Join(c: Campus, t: Tables, user: UserId, f: FacilityId, start: Instant, end: Instant, priority: int): Step
  {
    if user == NIL_USER || end <= start then Step(t, BadRequest)
    else if f !in c.facilities then Step(t, NotFound)
    else if !c.facilities[f].active || !c.facilities[f].exclusive then Step(t, BadRequest)
    else if LiveEntry(t.waitlist, f, user, start, end) then Step(t, AlreadyWaiting)
    else Step(t.(waitlist := t.waitlist + [Entry(f, user, start, end, priority, Waiting, None)]), Created(|t.waitlist|))
  }

  function Leave(t: Tables, w: nat, actor: UserId): Step
  {
    if actor == NIL_USER then Step(t, BadRequest)
    else if w >= |t.waitlist| then Step(t, NotFound)
    else
      var e := t.waitlist[w];
      if e.user != actor then Step(t, Forbidden)
      else match e.status
        case Waiting => Step(t.(waitlist := t.waitlist[w := e.(status := Left)]), Done(w))
        case Left => Step(t, Converged(w))
        case _ => Step(t, NotWaiting)
  }

  predicate RowsKnown(c: Campus, t: Tables)
  {
    forall i :: 0 <= i < |t.bookings| ==> t.bookings[i].facility in c.facilities
  }

  // ------------------------------------------------------------ waitlist sweep

  predicate InTable(batch: seq<nat>, t: Tables)
  {
    forall k :: 0 <= k < |batch| ==> batch[k] < |t.bookings|
  }

  ghost function DueHolds(t: Tables, now: Instant): set<nat>
  {
    set i: nat | i < |t.bookings| && DueHold(t.bookings[i], now)
  }

  /** ORDER BY held_until, upper(during) and lower(during). */
  ghost function DeadlineOrder(t: Tables): nat -> int
  {
    (i: nat) => if i < |t.bookings| && t.bookings[i].heldUntil.Some? then t.bookings[i].heldUntil.value else 0
  }

  ghost function EndOrder(t: Tables): nat -> int
  {
    (i: nat) => if i < |t.bookings| then t.bookings[i].end else 0
  }

  ghost function StartOrder(t: Tables): nat -> int
  {
    (i: nat) => if i < |t.bookings| then t.bookings[i].start else 0
  }

  ghost predicate HoldBatch(t: Tables, now: Instant, locked: Locked, batch: seq<nat>)
  {
    IsBatch(batch, DueHolds(t, now), DeadlineOrder(t), locked.bookings)
  }

  /** The loop body of the waitlist Sweep: retire the entry, log, announce, promote. */
  function ExpireBody(c: Campus, t: Tables, i: nat, now: Instant, locked: Locked): Tables
    requires i < |t.bookings|
  {
    var u := Announced(Logged(t.(waitlist := Retired(t.waitlist, i, EntryStatus.Expired)), i, Held, Cancelled), WaitlistExpired, i);
    Promote(c, u, u.bookings[i].facility, u.bookings[i].start, u.bookings[i].end, now, locked)
  }

  function ExpirePass(c: Campus, t: Tables, batch: seq<nat>, now: Instant, locked: Locked): (r: Tables)
    requires InTable(batch, t)
    ensures t.bookings <= r.bookings
  {
    if |batch| == 0 then t
    else ExpireBody(c, ExpirePass(c, t, batch[..|batch| - 1], now, locked), batch[|batch| - 1], now, locked)
  }

  function SweepHolds(c: Campus, t: Tables, batch: seq<nat>, now: Instant, locked: Locked): Tables
    requires InTable(batch, t)
  {
    ExpirePass(c, t.(bookings := Marked(t.bookings, Ids(batch), Cancelled)), batch, now, locked)
  }

  // ------------------------------------------------------------------ check-in

  function Redeem(c: Campus, t: Tables, i: nat, actor: UserId, tokenValid: bool, now: Instant): Step
  {
    if actor == NIL_USER then Step(t, BadRequest)
    else if i >= |t.bookings| then Step(t, NotFound)
    else
      var b := t.bookings[i];
      if !tokenValid then Step(t, InvalidToken)
      else if b.user != Some(actor) then Step(t, Forbidden)
      else if b.status == Confirmed && b.start - c.early <= now <= b.start + c.grace && i !in t.checkIns
        then Step(t.(checkIns := t.checkIns + {i}), Done(i))
      else if i in t.checkIns then Step(t, Converged(i))
      else if b.status != Confirmed then Step(t, NotCheckable)
      else Step(t, OutsideWindow)
  }

  ghost function DueCompletes(t: Tables, now: Instant): set<nat>
  {
    set i: nat | i < |t.bookings| && DueComplete(t, i, now)
  }

  ghost function DueNoShows(c: Campus, t: Tables, now: Instant): set<nat>
  {
    set i: nat | i < |t.bookings| && DueNoShow(t, i, now, c.grace)
  }

  ghost predicate CompleteBatch(t: Tables, now: Instant, locked: Locked, batch: seq<nat>)
  {
    IsBatch(batch, DueCompletes(t, now), EndOrder(t), locked.bookings)
  }

  ghost predicate NoShowBatch(c: Campus, t: Tables, now: Instant, locked: Locked, batch: seq<nat>)
  {
    IsBatch(batch, DueNoShows(c, t, now), StartOrder(t), locked.bookings)
  }

  function CompletePass(t: Tables, batch: seq<nat>): Tables
  {
    if |batch| == 0 then t
    else Logged(CompletePass(t, batch[..|batch| - 1]), batch[|batch| - 1], Confirmed, Completed)
  }

  /** The first half of the check-in Sweep. */
  function Complete(t: Tables, batch: seq<nat>): Tables
  {
    CompletePass(t.(bookings := Marked(t.bookings, Ids(batch), Completed)), batch)
  }

  /** The loop body of its second half: log, release, announce, promote. */
  function NoShowBody(c: Campus, t: Tables, i: nat, now: Instant, locked: Locked): Tables
    requires i < |t.bookings| && t.bookings[i].facility in c.facilities
  {
    Reoffered(c, Announced(Released(c, Logged(t, i, Confirmed, NoShow), i), BookingNoShow, i), i, now, locked)
  }

  function NoShowPass(c: Campus, t: Tables, batch: seq<nat>, now: Instant, locked: Locked): (r: Tables)
    requires InTable(batch, t) && RowsKnown(c, t)
    ensures t.bookings <= r.bookings
  {
    if |batch| == 0 then t
    else NoShowBody(c, NoShowPass(c, t, batch[..|batch| - 1], now, locked), batch[|batch| - 1], now, locked)
  }

  function ReleaseNoShows(c: Campus, t: Tables, batch: seq<nat>, now: Instant, locked: Locked): Tables
    requires InTable(batch, t) && RowsKnown(c, t)
  {
    NoShowPass(c, t.(bookings := Marked(t.bookings, Ids(batch), NoShow)), batch, now, locked)
  }

  // ------------------------------------------------------------------ closures

  function FindClosure(bs: seq<Booking>, f: FacilityId, start: Instant, end: Instant): (r: Option<nat>)
    ensures r.Some? ==> r.value < |bs| && bs[r.value].facility == f && bs[r.value].status == Blocked
                        && bs[r.value].start == start && bs[r.value].end == end
  {
    if |bs| == 0 then None
    else
      var n := |bs| - 1;
      match FindClosure(bs[..n], f, start, end)
      case Some(i) => Some(i)
      case None =>
        if bs[n].facility == f && bs[n].status == Blocked && bs[n].start == start && bs[n].end == end then Some(n) else None
  }

  function CreateClosure(c: Campus, t: Tables, f: FacilityId, actor: UserId, start: Instant, end: Instant): Step
  {
    if f !in c.facilities then Step(t, NotFound)
    else if actor == NIL_USER || end <= start then Step(t, BadRequest)
    else
      var fac := c.facilities[f];
      match FindClosure(t.bookings, f, start, end)
      case Some(i) => Step(t, Replayed(i))
      case None =>
        var row := Booking(f, None, fac.exclusive, start, end, Blocked, None, None);
        if CheckInsert(t.bookings, row, true) != Admitted then Step(t, Taken)
        else
          var cap := if fac.exclusive then t.capacity else ZeroAll(t.capacity, f, ClosureSlots(fac, c.zone, start, end));
          Step(Opened(t.(capacity := cap), row, ClosureCreated), Created(|t.bookings|))
  }

  function Reopen(c: Campus, t: Tables, i: nat, actor: UserId): Step
    requires i < |t.bookings| ==> t.bookings[i].facility in c.facilities
  {
    if actor == NIL_USER then Step(t, BadRequest)
    else if i >= |t.bookings| || t.bookings[i].user.Some? then Step(t, NotFound)
    else if t.bookings[i].status != Blocked then Step(t, Converged(i))
    else
      var b := t.bookings[i];
      var fac := c.facilities[b.facility];
      var bs := Marked(t.bookings, {i}, Cancelled);
      var cap := if fac.exclusive then t.capacity
                 else RestoreAll(t.capacity, bs, b.facility, ClosureSlots(fac, c.zone, b.start, b.end), fac.capacity);
      Step(Announced(Logged(t.(bookings := bs, capacity := cap), i, Blocked, Cancelled), BookingCancelled, i), Done(i))
  }

  // ----------------------------------------------------------------- all calls

  datatype Call =
    | DoCreate(request: Request, now: Instant, conditions: seq<Conditions>)
    | DoCancel(id: nat, actor: UserId, manager: bool, now: Instant, locked: Locked)
    | DoClaim(id: nat, actor: UserId, now: Instant)
    | DoJoin(user: UserId, facility: FacilityId, start: Instant, end: Instant, priority: int)
    | DoLeave(entry: nat, actor: UserId)
    | DoSweepHolds(now: Instant, locked: Locked, holds: seq<nat>)
    | DoRedeem(id: nat, actor: UserId, tokenValid: bool, now: Instant)
    | DoSweepCheckIns(now: Instant, locked: Locked, attended: seq<nat>, absent: seq<nat>)
    | DoCreateClosure(facility: FacilityId, actor: UserId, start: Instant, end: Instant)
    | DoReopen(id: nat, actor: UserId)

  /** The batches a sweep is given are the ones the database would select. */
  ghost predicate Enabled(c: Campus, t: Tables, call: Call)
  {
    && RowsKnown(c, t)
    && match call
       case DoCreate(_, _, ks) => |ks| == MAX_ATTEMPTS
       case DoSweepHolds(now, locked, holds) => HoldBatch(t, now, locked, holds)
       case DoSweepCheckIns(now, locked, attended, absent) =>
         CompleteBatch(t, now, locked, attended) && NoShowBatch(c, Complete(t, attended), now, locked, absent)
       case _ => true
  }

  lemma BatchDue(batch: seq<nat>, due: set<nat>, rank: nat -> int, locked: set<nat>)
    requires IsBatch(batch, due, rank, locked)
    ensures Distinct(batch) && forall k :: 0 <= k < |batch| ==> batch[k] in due
  {
    forall k | 0 <= k < |batch| ensures batch[k] in due { assert batch[k] in Ids(batch); }
  }

  ghost predicate AllDueHolds(t: Tables, now: Instant, batch: seq<nat>)
  {
    Distinct(batch) && InTable(batch, t) && forall k :: 0 <= k < |batch| ==> DueHold(t.bookings[batch[k]], now)
  }

  ghost predicate AllDueCompletes(t: Tables, now: Instant, batch: seq<nat>)
  {
    Distinct(batch) && InTable(batch, t) && forall k :: 0 <= k < |batch| ==> DueComplete(t, batch[k], now)
  }

  ghost predicate AllDueNoShows(t: Tables, now: Instant, grace: int, batch: seq<nat>)
  {
    Distinct(batch) && InTable(batch, t) && forall k :: 0 <= k < |batch| ==> DueNoShow(t, batch[k], now, grace)
  }

  lemma BatchesDue(c: Campus, t: Tables, call: Call)
    requires Enabled(c, t, call)
    ensures call.DoSweepHolds? ==> AllDueHolds(t, call.now, call.holds)
    ensures call.DoSweepCheckIns? ==> AllDueCompletes(t, call.now, call.attended)
    ensures call.DoSweepCheckIns? ==> AllDueNoShows(Complete(t, call.attended), call.now, c.grace, call.absent)
    ensures call.DoSweepCheckIns? ==> RowsKnown(c, Complete(t, call.attended))
  {
    match call
    case DoSweepHolds(now, locked, holds) =>
      BatchDue(holds, DueHolds(t, now), DeadlineOrder(t), locked.bookings);
    case DoSweepCheckIns(now, locked, attended, absent) =>
      var u := Complete(t, attended);
      BatchDue(attended, DueCompletes(t, now), EndOrder(t), locked.bookings);
      BatchDue(absent, DueNoShows(c, u, now), StartOrder(u), locked.bookings);
      CompletePassBookings(t.(bookings := Marked(t.bookings, Ids(attended), Completed)), attended);
    case _ =>
  }

  lemma {:induction false} CompletePassBookings(t: Tables, batch: seq<nat>)
    ensures CompletePass(t, batch) == t.(events := CompletePass(t, batch).events)
  {
    if |batch| > 0 { CompletePassBookings(t, batch[..|batch| - 1]); }
  }

  /** The tables after a call that was not aborted from outside. */
  ghost function Apply(c: Campus, t: Tables, call: Call): Tables
    requires Enabled(c, t, call)
  {
    BatchesDue(c, t, call);
    match call
    case DoCreate(r, now, ks) => Create(c, t, r, now, ks).tables
    case DoCancel(i, actor, manager, now, locked) => Cancel(c, t, i, actor, manager, now, locked).tables
    case DoClaim(i, actor, now) => Claim(t, i, actor, now).tables
    case DoJoin(user, f, start, end, priority) => Join(c, t, user, f, start, end, priority).tables
    case DoLeave(w, actor) => Leave(t, w, actor).tables
    case DoSweepHolds(now, locked, holds) => SweepHolds(c, t, holds, now, locked)
    case DoRedeem(i, actor, ok, now) => Redeem(c, t, i, actor, ok, now).tables
    case DoSweepCheckIns(now, locked, attended, absent) =>
      ReleaseNoShows(c, Complete(t, attended), absent, now, locked)
    case DoCreateClosure(f, actor, start, end) => CreateClosure(c, t, f, actor, start, end).tables
    case DoReopen(i, actor) => Reopen(c, t, i, actor).tables
  }
}
