/** The tables as mutable state, and each service call as the sequence of statements it
    runs on them inside a transaction. Every method is proved against the function of
    module Transitions that specifies it. */
module Service {
  import opened Model
  import opened Grid
  import opened Statements
  import opened Transitions
  import opened Runs

  class Database {
    const campus: Campus

    var bookings: seq<Booking>
    var waitlist: seq<Entry>
    var capacity: map<SlotKey, Counter>
    var checkIns: set<nat>
    var events: seq<Event>
    var outbox: seq<Message>

    constructor (campus: Campus)
      ensures this.campus == campus && Snapshot() == EMPTY
      ensures Reachable(campus, Snapshot())
    {
      this.campus := campus;
      bookings, waitlist, capacity, checkIns, events, outbox := [], [], map[], {}, [], [];
      EmptyIsReachable(campus);
    }

    function Snapshot(): Tables
      reads this
    {
      Tables(bookings, waitlist, capacity, checkIns, events, outbox)
    }

    /** ROLLBACK, or ROLLBACK TO a savepoint. */
    method Rollback(saved: Tables)
      modifies this
      ensures Snapshot() == saved
    {
      bookings, waitlist, capacity := saved.bookings, saved.waitlist, saved.capacity;
      checkIns, events, outbox := saved.checkIns, saved.events, saved.outbox;
    }

    /** What a committed call reaches is reachable: the theorems of Runs hold of this object. */
    ghost method Keeps(call: Call)
      requires call.DoSweepHolds? || call.DoSweepCheckIns? ==> Enabled(campus, Snapshot(), call)
      requires call.DoCreate? ==> |call.conditions| == MAX_ATTEMPTS
      ensures ValidCampus(campus) && Reachable(campus, Snapshot()) ==>
                Enabled(campus, Snapshot(), call) && Reachable(campus, Apply(campus, Snapshot(), call))
    {
      if ValidCampus(campus) && Reachable(campus, Snapshot()) {
        if call.DoSweepHolds? || call.DoSweepCheckIns? {
          CallReaches(campus, Snapshot(), call);
        } else {
          CallReachesFrom(campus, Snapshot(), call);
        }
      }
    }

    // ------------------------------------------------------------- statements

    /** A plain INSERT: the constraints decide. */
    method Insert(row: Booking, uniqueFirst: bool) returns (verdict: InsertVerdict)
      modifies this`bookings
      ensures verdict == CheckInsert(old(bookings), row, uniqueFirst)
      ensures verdict == Admitted <==> forall i :: 0 <= i < |old(bookings)| ==>
                !Clash(old(bookings)[i], row) && !SameKey(old(bookings)[i], row)
      ensures verdict == SlotTaken ==> exists i :: 0 <= i < |old(bookings)| && Clash(old(bookings)[i], row)
      ensures verdict == DuplicateKey ==> exists i :: 0 <= i < |old(bookings)| && SameKey(old(bookings)[i], row)
      ensures bookings == if verdict == Admitted then old(bookings) + [row] else old(bookings)
    {
      InsertExact(bookings, row, uniqueFirst);
      verdict := CheckInsert(bookings, row, uniqueFirst);
      if verdict == Admitted {
        bookings := bookings + [row];
      }
    }

    method InsertEvent(i: nat, from: Option<Status>, to: Status)
      modifies this`events
      ensures events == old(events) + [Event(i, from, to)]
    {
      events := events + [Event(i, from, to)];
    }

    method Enqueue(topic: Topic, i: nat)
      requires i < |bookings|
      modifies this`outbox
      ensures outbox == old(outbox) + [MessageFor(Snapshot(), topic, i)]
    {
      var b := bookings[i];
      outbox := outbox + [Message(topic, i, b.facility, b.start, b.end)];
    }

    // --------------------------------------------------------------- capacity

    /** One capacity_take per block, ascending; stops at the first full one. */
    method TakeSlots(f: FacilityId, slots: seq<Slot>, declared: int) returns (full: bool)
      modifies this`capacity
      ensures full <==> TakeAll(old(capacity), f, slots, declared).None?
      ensures !full ==> Some(capacity) == TakeAll(old(capacity), f, slots, declared)
    {
      var i := 0;
      while i < |slots|
        invariant 0 <= i <= |slots|
        invariant TakeAll(old(capacity), f, slots[..i], declared) == Some(capacity)
      {
        assert slots[..i + 1][..i] == slots[..i];
        var taken := Take(capacity, f, slots[i], declared);
        if taken.None? {
          TakeAllStuck(old(capacity), f, slots, i + 1, declared);
          return true;
        }
        capacity := taken.value;
        i := i + 1;
      }
      assert slots[..i] == slots;
      return false;
    }

    /** ReleaseCapacity. */
    method ReleaseCapacity(i: nat)
      requires i < |bookings| && bookings[i].facility in campus.facilities
      modifies this`capacity
      ensures capacity == Released(campus, old(Snapshot()), i).capacity
    {
      var b := bookings[i];
      if b.exclusive {
        return;
      }
      var slots := ComputeSlotsFor(campus.facilities[b.facility].granularity, b.start, b.end);
      var k := 0;
      while k < |slots|
        invariant 0 <= k <= |slots|
        invariant capacity == ReleaseAll(old(capacity), b.facility, slots[..k])
      {
        assert slots[..k + 1][..k] == slots[..k];
        capacity := Release(capacity, b.facility, slots[k]);
        k := k + 1;
      }
      assert slots[..k] == slots;
    }

    method ZeroSlots(f: FacilityId, slots: seq<Slot>)
      modifies this`capacity
      ensures capacity == ZeroAll(old(capacity), f, slots)
    {
      var k := 0;
      while k < |slots|
        invariant 0 <= k <= |slots|
        invariant capacity == ZeroAll(old(capacity), f, slots[..k])
      {
        assert slots[..k + 1][..k] == slots[..k];
        capacity := Zero(capacity, f, slots[k]);
        k := k + 1;
      }
      assert slots[..k] == slots;
    }

    method RestoreSlots(f: FacilityId, slots: seq<Slot>, declared: int)
      modifies this`capacity
      ensures capacity == RestoreAll(old(capacity), bookings, f, slots, declared)
    {
      var k := 0;
      while k < |slots|
        invariant 0 <= k <= |slots|
        invariant capacity == RestoreAll(old(capacity), bookings, f, slots[..k], declared)
      {
        assert slots[..k + 1][..k] == slots[..k];
        capacity := Restore(capacity, bookings, f, slots[k], declared);
        k := k + 1;
      }
      assert slots[..k] == slots;
    }

    // ----------------------------------------------------------------- create

    method AttemptExclusive(r: Request, k: Conditions) returns (outcome: Outcome)
      modifies this
      ensures Step(Snapshot(), outcome) == Transitions.AttemptExclusive(old(Snapshot()), r, k)
    {
      var saved := Snapshot();
      outcome := PolicyRefused;
      if !k.policyRefuses {
        var n := |bookings|;
        var verdict := Insert(RowOf(r, true), k.uniqueFirst);
        match verdict {
          case Admitted =>
            InsertEvent(n, None, Confirmed);
            Enqueue(BookingConfirmed, n);
            outcome := Created(n);
          case DuplicateKey =>
            outcome := Replay(saved, r);
          case SlotTaken =>
            outcome := Replay(saved, r);
            if !outcome.Replayed? {
              outcome := Taken;
            }
        }
      }
      if k.fault != NoFault {
        outcome := if k.fault == Deadlock then Deadlocked else TimedOut;
      }
      if !outcome.Created? {
        Rollback(saved);
      }
    }

    method AttemptShared(f: Facility, r: Request, k: Conditions) returns (outcome: Outcome)
      modifies this
      ensures Step(Snapshot(), outcome) == Transitions.AttemptShared(f, old(Snapshot()), r, k)
    {
      var saved := Snapshot();
      var slots := ComputeSlotsFor(f.granularity, r.start, r.start + r.duration);
      outcome := PolicyRefused;
      if !k.policyRefuses {
        var full := TakeSlots(r.facility, slots, f.capacity);
        if full {
          outcome := CapacityFull;
        } else {
          var n := |bookings|;
          var verdict := Insert(RowOf(r, false), k.uniqueFirst);
          if verdict == Admitted {
            InsertEvent(n, None, Confirmed);
            Enqueue(BookingConfirmed, n);
            outcome := Created(n);
          } else {
            outcome := Replay(saved, r);
          }
        }
      }
      if k.fault != NoFault {
        outcome := if k.fault == Deadlock then Deadlocked else TimedOut;
      }
      if !outcome.Created? {
        Rollback(saved);
      }
    }

    /** createExclusive and createShared. */
    method CreateRetrying(f: Facility, r: Request, ks: seq<Conditions>) returns (outcome: Outcome)
      requires |ks| == MAX_ATTEMPTS
      modifies this
      ensures Step(Snapshot(), outcome) == Attempts(f, old(Snapshot()), r, ks)
    {
      var attempt := 0;
      while attempt < MAX_ATTEMPTS
        invariant 0 <= attempt <= MAX_ATTEMPTS
        invariant Snapshot() == old(Snapshot())
        invariant Attempts(f, old(Snapshot()), r, ks) == Attempts(f, old(Snapshot()), r, ks[attempt..])
      {
        if f.exclusive {
          outcome := AttemptExclusive(r, ks[attempt]);
        } else {
          outcome := AttemptShared(f, r, ks[attempt]);
        }
        if outcome != Deadlocked {
          return;
        }
        if ks[attempt].contextDone {
          return ContextDone;
        }
        attempt := attempt + 1;
      }
      return Exhausted;
    }

    method Create(r: Request, now: Instant, ks: seq<Conditions>) returns (outcome: Outcome)
      requires |ks| == MAX_ATTEMPTS
      modifies this
      ensures Step(Snapshot(), outcome) == Transitions.Create(campus, old(Snapshot()), r, now, ks)
      ensures ValidCampus(campus) && Reachable(campus, old(Snapshot())) ==> Reachable(campus, Snapshot())
    {
      Keeps(DoCreate(r, now, ks));
      if r.facility !in campus.facilities {
        return NotFound;
      }
      var f := campus.facilities[r.facility];
      var refusal := Validate(f, campus.zone, r.user, r.start, r.duration, now);
      if refusal.Some? {
        return Invalid(refusal.value);
      }
      outcome := CreateRetrying(f, r, ks);
    }

    // -------------------------------------------------------------- promotion

    /** promote: claim the head, hold the window, point the entry at the hold. */
    method Promote(f: FacilityId, start: Instant, end: Instant, now: Instant, locked: Locked) returns (promoted: bool)
      modifies this
      ensures Snapshot() == Transitions.Promote(campus, old(Snapshot()), f, start, end, now, locked)
      ensures promoted <==> |bookings| == |old(bookings)| + 1
    {
      var savepoint := Snapshot();
      var head := ClaimHead(waitlist, f, start, end, locked.entries);
      if head.None? {
        Rollback(savepoint);
        return false;
      }
      var w, n := head.value, |bookings|;
      var e := waitlist[w];
      var verdict := Insert(HeldRow(campus, f, e.user, start, end, now), true);
      if verdict != Admitted {
        Rollback(savepoint);
        return false;
      }
      waitlist := waitlist[w := e.(status := Promoted, booking := Some(n))];
      InsertEvent(n, None, Held);
      Enqueue(WaitlistPromoted, n);
      return true;
    }

    method Reoffer(i: nat, now: Instant, locked: Locked)
      requires i < |bookings|
      modifies this
      ensures Snapshot() == Reoffered(campus, old(Snapshot()), i, now, locked)
    {
      var b := bookings[i];
      if campus.promoting && b.exclusive {
        var _ := Promote(b.facility, b.start, b.end, now, locked);
      }
    }

    // ------------------------------------------------------- cancel and claim

    method Cancel(i: nat, actor: UserId, manager: bool, now: Instant, locked: Locked, aborts: bool) returns (outcome: Outcome)
      requires RowsKnown(campus, Snapshot())
      modifies this
      ensures Step(Snapshot(), outcome) ==
              if aborts then Step(old(Snapshot()), Aborted)
              else Transitions.Cancel(campus, old(Snapshot()), i, actor, manager, now, locked)
      ensures ValidCampus(campus) && Reachable(campus, old(Snapshot())) ==> Reachable(campus, Snapshot())
    {
      Keeps(DoCancel(i, actor, manager, now, locked));
      var saved := Snapshot();
      outcome := CancelTx(i, actor, manager, now, locked);
      if aborts {
        Rollback(saved);
        return Aborted;
      }
    }

    method CancelTx(i: nat, actor: UserId, manager: bool, now: Instant, locked: Locked) returns (outcome: Outcome)
      requires RowsKnown(campus, Snapshot())
      modifies this
      ensures Step(Snapshot(), outcome) == Transitions.Cancel(campus, old(Snapshot()), i, actor, manager, now, locked)
    {
      if actor == NIL_USER {
        return BadRequest;
      }
      if i >= |bookings| {
        return NotFound;
      }
      var b := bookings[i];
      if b.user != Some(actor) && !manager {
        return Forbidden;
      }
      var updated := CancelUpdate(b);
      match updated {
        case None =>
          return if b.status == Cancelled then Converged(i) else NotCancellable;
        case Some(row) =>
          if !HeldCheck(row) {
            return Aborted;
          }
          bookings := bookings[i := row];
          ReleaseCapacity(i);
          InsertEvent(i, Some(b.status), Cancelled);
          Reoffer(i, now, locked);
          Enqueue(BookingCancelled, i);
          return Done(i);
      }
    }

    method Claim(i: nat, actor: UserId, now: Instant, aborts: bool) returns (outcome: Outcome)
      modifies this
      ensures Step(Snapshot(), outcome) ==
              if aborts then Step(old(Snapshot()), Aborted) else Transitions.Claim(old(Snapshot()), i, actor, now)
      ensures ValidCampus(campus) && Reachable(campus, old(Snapshot())) ==> Reachable(campus, Snapshot())
    {
      Keeps(DoClaim(i, actor, now));
      var saved := Snapshot();
      if actor == NIL_USER {
        outcome := BadRequest;
      } else if i >= |bookings| {
        outcome := NotFound;
      } else if bookings[i].user != Some(actor) {
        outcome := Forbidden;
      } else if bookings[i].status == Held && bookings[i].heldUntil.Some? && bookings[i].heldUntil.value > now {
        bookings := Marked(bookings, {i}, Confirmed);
        waitlist := Retired(waitlist, i, EntryStatus.Claimed);
        InsertEvent(i, Some(Held), Confirmed);
        Enqueue(BookingConfirmed, i);
        outcome := Done(i);
      } else if bookings[i].status == Confirmed {
        outcome := Converged(i);
      } else {
        outcome := OfferExpired;
      }
      if aborts {
        Rollback(saved);
        outcome := Aborted;
      }
    }

    // --------------------------------------------------------------- waitlist

    method Join(user: UserId, f: FacilityId, start: Instant, end: Instant, priority: int) returns (outcome: Outcome)
      modifies this
      ensures Step(Snapshot(), outcome) == Transitions.Join(campus, old(Snapshot()), user, f, start, end, priority)
      ensures ValidCampus(campus) && Reachable(campus, old(Snapshot())) ==> Reachable(campus, Snapshot())
    {
      Keeps(DoJoin(user, f, start, end, priority));
      if user == NIL_USER || end <= start {
        return BadRequest;
      }
      if f !in campus.facilities {
        return NotFound;
      }
      if !campus.facilities[f].active || !campus.facilities[f].exclusive {
        return BadRequest;
      }
      if LiveEntry(waitlist, f, user, start, end) {
        return AlreadyWaiting;
      }
      waitlist := waitlist + [Entry(f, user, start, end, priority, Waiting, None)];
      return Created(|waitlist| - 1);
    }

    method Leave(w: nat, actor: UserId) returns (outcome: Outcome)
      modifies this
      ensures Step(Snapshot(), outcome) == Transitions.Leave(old(Snapshot()), w, actor)
      ensures ValidCampus(campus) && Reachable(campus, old(Snapshot())) ==> Reachable(campus, Snapshot())
    {
      Keeps(DoLeave(w, actor));
      if actor == NIL_USER {
        return BadRequest;
      }
      if w >= |waitlist| {
        return NotFound;
      }
      var e := waitlist[w];
      if e.user == actor && e.status == Waiting {
        waitlist := waitlist[w := e.(status := Left)];
        return Done(w);
      }
      if e.user != actor {
        return Forbidden;
      }
      if e.status == Left {
        return Converged(w);
      }
      return NotWaiting;
    }

    /** The waitlist sweep's work on one reclaimed hold. */
    method ExpireBooking(i: nat, now: Instant, locked: Locked) returns (promoted: bool)
      requires i < |bookings|
      modifies this
      ensures Snapshot() == ExpireBody(campus, old(Snapshot()), i, now, locked)
      ensures promoted <==> |bookings| == |old(bookings)| + 1
      ensures |bookings| == |old(bookings)| + if promoted then 1 else 0
    {
      waitlist := Retired(waitlist, i, EntryStatus.Expired);
      InsertEvent(i, Some(Held), Cancelled);
      Enqueue(WaitlistExpired, i);
      promoted := Promote(bookings[i].facility, bookings[i].start, bookings[i].end, now, locked);
    }

    /** The waitlist sweep over one batch of expired holds; counts expired and promoted. */
    method SweepHolds(batch: seq<nat>, now: Instant, locked: Locked, aborts: bool) returns (outcome: Outcome)
      requires Enabled(campus, Snapshot(), DoSweepHolds(now, locked, batch))
      modifies this
      ensures aborts ==> Snapshot() == old(Snapshot()) && outcome == Aborted
      ensures !aborts ==> Snapshot() == Apply(campus, old(Snapshot()), DoSweepHolds(now, locked, batch))
      ensures !aborts ==> |bookings| >= |old(bookings)| && outcome == Swept(|batch|, |bookings| - |old(bookings)|)
      ensures ValidCampus(campus) && Reachable(campus, old(Snapshot())) ==> Reachable(campus, Snapshot())
    {
      Keeps(DoSweepHolds(now, locked, batch));
      var saved := Snapshot();
      var promoted := SweepHoldsTx(batch, now, locked);
      if aborts {
        Rollback(saved);
        return Aborted;
      }
      return Swept(|batch|, promoted);
    }

    method SweepHoldsTx(batch: seq<nat>, now: Instant, locked: Locked) returns (promoted: nat)
      requires Enabled(campus, Snapshot(), DoSweepHolds(now, locked, batch))
      modifies this
      ensures Snapshot() == Apply(campus, old(Snapshot()), DoSweepHolds(now, locked, batch))
      ensures |bookings| == |old(bookings)| + promoted
    {
      BatchesDue(campus, Snapshot(), DoSweepHolds(now, locked, batch));
      promoted := ExpireAll(batch, now, locked);
    }

    method ExpireAll(batch: seq<nat>, now: Instant, locked: Locked) returns (promoted: nat)
      requires InTable(batch, Snapshot())
      modifies this
      ensures Snapshot() == Transitions.SweepHolds(campus, old(Snapshot()), batch, now, locked)
      ensures |bookings| == |old(bookings)| + promoted
    {
      bookings := Marked(bookings, Ids(batch), Cancelled);
      promoted := ExpireEach(batch, now, locked);
    }

    /** The loop body, after the bookings in done. */
    method ExpireNext(ghost marked: Tables, ghost done: seq<nat>, i: nat, now: Instant, locked: Locked) returns (promoted: bool)
      requires InTable(done, marked) && i < |marked.bookings| && Snapshot() == ExpirePass(campus, marked, done, now, locked)
      modifies this
      ensures Snapshot() == ExpirePass(campus, marked, done + [i], now, locked)
      ensures |bookings| == |old(bookings)| + if promoted then 1 else 0
    {
      ExpirePassGrows(campus, marked, done, i, now, locked);
      promoted := ExpireBooking(i, now, locked);
    }

    method ExpireEach(batch: seq<nat>, now: Instant, locked: Locked) returns (promoted: nat)
      requires InTable(batch, Snapshot())
      modifies this
      ensures Snapshot() == ExpirePass(campus, old(Snapshot()), batch, now, locked)
      ensures |bookings| == |old(bookings)| + promoted
    {
      ghost var marked := Snapshot();
      ghost var done: seq<nat> := [];
      promoted := 0;
      var k := 0;
      while k < |batch|
        invariant 0 <= k <= |batch| && done == batch[..k] && InTable(done, marked)
        invariant Snapshot() == ExpirePass(campus, marked, done, now, locked)
        invariant |bookings| == |marked.bookings| + promoted
      {
        var offered := ExpireNext(marked, done, batch[k], now, locked);
        done := done + [batch[k]];
        promoted := if offered then promoted + 1 else promoted;
        k := k + 1;
      }
      assert done == batch;
    }

    // --------------------------------------------------------------- check-in

    method Redeem(i: nat, actor: UserId, tokenValid: bool, now: Instant) returns (outcome: Outcome)
      modifies this
      ensures Step(Snapshot(), outcome) == Transitions.Redeem(campus, old(Snapshot()), i, actor, tokenValid, now)
      ensures ValidCampus(campus) && Reachable(campus, old(Snapshot())) ==> Reachable(campus, Snapshot())
    {
      Keeps(DoRedeem(i, actor, tokenValid, now));
      if actor == NIL_USER {
        return BadRequest;
      }
      if i >= |bookings| {
        return NotFound;
      }
      var b := bookings[i];
      if !tokenValid {
        return InvalidToken;
      }
      if b.user != Some(actor) {
        return Forbidden;
      }
      if b.status == Confirmed && b.start - campus.early <= now <= b.start + campus.grace && i !in checkIns {
        checkIns := checkIns + {i};
        return Done(i);
      }
      if i in checkIns {
        return Converged(i);
      }
      if b.status != Confirmed {
        return NotCheckable;
      }
      return OutsideWindow;
    }

    /** The check-in sweep: complete the attended, then release the absent. */
    method SweepCheckIns(attended: seq<nat>, absent: seq<nat>, now: Instant, locked: Locked, aborts: bool) returns (outcome: Outcome)
      requires Enabled(campus, Snapshot(), DoSweepCheckIns(now, locked, attended, absent))
      modifies this
      ensures aborts ==> Snapshot() == old(Snapshot()) && outcome == Aborted
      ensures !aborts ==> Snapshot() == Apply(campus, old(Snapshot()), DoSweepCheckIns(now, locked, attended, absent))
      ensures !aborts ==> outcome == Swept(|attended|, |absent|)
      ensures ValidCampus(campus) && Reachable(campus, old(Snapshot())) ==> Reachable(campus, Snapshot())
    {
      Keeps(DoSweepCheckIns(now, locked, attended, absent));
      BatchesDue(campus, Snapshot(), DoSweepCheckIns(now, locked, attended, absent));
      var saved := Snapshot();
      CompleteAttended(attended);
      ReleaseAbsent(absent, now, locked);
      if aborts {
        Rollback(saved);
        return Aborted;
      }
      return Swept(|attended|, |absent|);
    }

    method CompleteAttended(batch: seq<nat>)
      modifies this
      ensures Snapshot() == Complete(old(Snapshot()), batch)
    {
      bookings := Marked(bookings, Ids(batch), Completed);
      ghost var marked := Snapshot();
      var k := 0;
      while k < |batch|
        invariant 0 <= k <= |batch|
        invariant Snapshot() == CompletePass(marked, batch[..k])
      {
        assert batch[..k + 1][..k] == batch[..k];
        InsertEvent(batch[k], Some(Confirmed), Completed);
        k := k + 1;
      }
      assert batch[..k] == batch;
    }

    /** The check-in sweep's work on one no-show. */
    method ReleaseNoShow(i: nat, now: Instant, locked: Locked)
      requires i < |bookings| && bookings[i].facility in campus.facilities
      modifies this
      ensures Snapshot() == NoShowBody(campus, old(Snapshot()), i, now, locked)
    {
      InsertEvent(i, Some(Confirmed), NoShow);
      ReleaseCapacity(i);
      Enqueue(BookingNoShow, i);
      Reoffer(i, now, locked);
    }

    method ReleaseAbsent(batch: seq<nat>, now: Instant, locked: Locked)
      requires InTable(batch, Snapshot()) && RowsKnown(campus, Snapshot())
      modifies this
      ensures Snapshot() == ReleaseNoShows(campus, old(Snapshot()), batch, now, locked)
    {
      bookings := Marked(bookings, Ids(batch), NoShow);
      ReleaseEach(batch, now, locked);
    }

    method ReleaseNext(ghost marked: Tables, ghost done: seq<nat>, i: nat, now: Instant, locked: Locked)
      requires InTable(done, marked) && RowsKnown(campus, marked) && i < |marked.bookings|
      requires Snapshot() == NoShowPass(campus, marked, done, now, locked)
      modifies this
      ensures Snapshot() == NoShowPass(campus, marked, done + [i], now, locked)
    {
      NoShowPassGrows(campus, marked, done, i, now, locked);
      ReleaseNoShow(i, now, locked);
    }

    method ReleaseEach(batch: seq<nat>, now: Instant, locked: Locked)
      requires InTable(batch, Snapshot()) && RowsKnown(campus, Snapshot())
      modifies this
      ensures Snapshot() == NoShowPass(campus, old(Snapshot()), batch, now, locked)
    {
      ghost var marked := Snapshot();
      ghost var done: seq<nat> := [];
      var k := 0;
      while k < |batch|
        invariant 0 <= k <= |batch| && done == batch[..k] && InTable(done, marked)
        invariant Snapshot() == NoShowPass(campus, marked, done, now, locked)
      {
        ReleaseNext(marked, done, batch[k], now, locked);
        done := done + [batch[k]];
        k := k + 1;
      }
      assert done == batch;
    }

    // --------------------------------------------------------------- closures

    method CreateClosure(f: FacilityId, actor: UserId, start: Instant, end: Instant, aborts: bool) returns (outcome: Outcome)
      modifies this
      ensures Step(Snapshot(), outcome) ==
              if aborts then Step(old(Snapshot()), Aborted)
              else Transitions.CreateClosure(campus, old(Snapshot()), f, actor, start, end)
      ensures ValidCampus(campus) && Reachable(campus, old(Snapshot())) ==> Reachable(campus, Snapshot())
    {
      Keeps(DoCreateClosure(f, actor, start, end));
      var saved := Snapshot();
      outcome := CreateClosureTx(f, actor, start, end);
      if aborts {
        Rollback(saved);
        return Aborted;
      }
    }

    method CreateClosureTx(f: FacilityId, actor: UserId, start: Instant, end: Instant) returns (outcome: Outcome)
      modifies this
      ensures Step(Snapshot(), outcome) == Transitions.CreateClosure(campus, old(Snapshot()), f, actor, start, end)
    {
      if f !in campus.facilities {
        return NotFound;
      }
      if actor == NIL_USER || end <= start {
        return BadRequest;
      }
      var fac := campus.facilities[f];
      var existing := FindClosure(bookings, f, start, end);
      if existing.Some? {
        return Replayed(existing.value);
      }
      var n := |bookings|;
      var verdict := Insert(Booking(f, None, fac.exclusive, start, end, Blocked, None, None), true);
      if verdict != Admitted {
        return Taken;
      }
      if !fac.exclusive {
        var slots := ComputeClosureSlots(fac, campus.zone, start, end);
        ZeroSlots(f, slots);
      }
      InsertEvent(n, None, Blocked);
      Enqueue(ClosureCreated, n);
      return Created(n);
    }

    method Reopen(i: nat, actor: UserId, aborts: bool) returns (outcome: Outcome)
      requires RowsKnown(campus, Snapshot())
      modifies this
      ensures Step(Snapshot(), outcome) ==
              if aborts then Step(old(Snapshot()), Aborted) else Transitions.Reopen(campus, old(Snapshot()), i, actor)
      ensures ValidCampus(campus) && Reachable(campus, old(Snapshot())) ==> Reachable(campus, Snapshot())
    {
      Keeps(DoReopen(i, actor));
      var saved := Snapshot();
      outcome := ReopenTx(i, actor);
      if aborts {
        Rollback(saved);
        return Aborted;
      }
    }

    method ReopenTx(i: nat, actor: UserId) returns (outcome: Outcome)
      requires RowsKnown(campus, Snapshot())
      modifies this
      ensures Step(Snapshot(), outcome) == Transitions.Reopen(campus, old(Snapshot()), i, actor)
    {
      if actor == NIL_USER {
        return BadRequest;
      }
      if i >= |bookings| || bookings[i].user.Some? {
        return NotFound;
      }
      if bookings[i].status != Blocked {
        return Converged(i);
      }
      var b := bookings[i];
      var fac := campus.facilities[b.facility];
      bookings := Marked(bookings, {i}, Cancelled);
      if !fac.exclusive {
        var slots := ComputeClosureSlots(fac, campus.zone, b.start, b.end);
        RestoreSlots(b.facility, slots, fac.capacity);
      }
      InsertEvent(i, Some(Blocked), Cancelled);
      Enqueue(BookingCancelled, i);
      return Done(i);
    }
  }

  lemma ExpirePassGrows(c: Campus, t: Tables, done: seq<nat>, i: nat, now: Instant, locked: Locked)
    requires InTable(done, t) && i < |t.bookings|
    ensures i < |ExpirePass(c, t, done, now, locked).bookings|
    ensures ExpirePass(c, t, done + [i], now, locked) == ExpireBody(c, ExpirePass(c, t, done, now, locked), i, now, locked)
  {
    assert (done + [i])[..|done|] == done;
  }

  lemma NoShowPassGrows(c: Campus, t: Tables, done: seq<nat>, i: nat, now: Instant, locked: Locked)
    requires InTable(done, t) && RowsKnown(c, t) && i < |t.bookings|
    ensures var u := NoShowPass(c, t, done, now, locked);
            && i < |u.bookings| && u.bookings[i].facility in c.facilities
            && NoShowPass(c, t, done + [i], now, locked) == NoShowBody(c, u, i, now, locked)
  {
    assert (done + [i])[..|done|] == done;
    assert NoShowPass(c, t, done, now, locked).bookings[i] == t.bookings[i];
  }

  /** Once one block of a pass is full, the whole pass is. */
  lemma {:induction false} TakeAllStuck(cap: CapacityTable, f: FacilityId, slots: seq<Slot>, n: nat, declared: int)
    requires n <= |slots| && TakeAll(cap, f, slots[..n], declared).None?
    ensures TakeAll(cap, f, slots, declared).None?
    decreases |slots| - n
  {
    if n == |slots| {
      assert slots[..n] == slots;
    } else {
      assert slots[..n + 1][..n] == slots[..n];
      TakeAllStuck(cap, f, slots, n + 1, declared);
    }
  }
}
