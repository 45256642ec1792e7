/** The locks an operation takes are the counters it writes: the plans of LockOrder and
    SweepLocks against what the operations do to the capacity table. */
module LockPlans {
  import opened Model
  import opened Grid
  import opened Statements
  import opened Transitions
  import opened Invariants
  import opened CounterLemmas
  import opened LockOrder
  import opened SweepLocks

  /** The operation left counter k another one than it was. */
  predicate Written(before: CapacityTable, after: CapacityTable, k: SlotKey)
  {
    (k in before) != (k in after) || (k in before && k in after && before[k] != after[k])
  }

  predicate Locks(plan: seq<Lock>, k: SlotKey)
  {
    CounterLock(k.facility, k.start) in plan
  }

  lemma CounterLocksExact(f: FacilityId, slots: seq<Slot>, k: SlotKey)
    ensures Locks(CounterLocks(f, slots), k) <==> InPass(f, slots, k)
  {
    var locks := CounterLocks(f, slots);
    if k.facility == f && Has(slots, k.start) {
      var i :| 0 <= i < |slots| && slots[i].start == k.start;
      assert locks[i] == CounterLock(f, k.start);
    }
    if Locks(locks, k) {
      var i :| 0 <= i < |locks| && locks[i] == CounterLock(k.facility, k.start);
      assert slots[i].start == k.start;
    }
  }

  lemma PlanLocks(prefix: seq<Lock>, f: FacilityId, slots: seq<Slot>, suffix: seq<Lock>, k: SlotKey)
    requires forall l :: l in prefix || l in suffix ==> !l.CounterLock?
    ensures Locks(prefix + CounterLocks(f, slots) + suffix, k) <==> InPass(f, slots, k)
  {
    CounterLocksExact(f, slots, k);
  }

  lemma CreatedTakes(f: Facility, t: Tables, r: Request, c: Conditions)
    requires AttemptShared(f, t, r, c).outcome.Created?
    ensures TakeAll(t.capacity, r.facility, SlotsFor(f.granularity, r.start, r.start + r.duration), f.capacity)
            == Some(AttemptShared(f, t, r, c).tables.capacity)
  {
  }

  /** A successful shared booking writes exactly the counters it locks. */
  lemma SharedWritesItsPlan(f: Facility, t: Tables, r: Request, c: Conditions, key: Option<nat>, k: SlotKey)
    requires f.granularity > 0 && OnStep(f.granularity, r.duration) && AttemptShared(f, t, r, c).outcome.Created?
    ensures Written(t.capacity, AttemptShared(f, t, r, c).tables.capacity, k)
            <==> Locks(SharedPlan(r.facility, f.granularity, r.start, r.start + r.duration, key), k)
  {
    var slots := SlotsFor(f.granularity, r.start, r.start + r.duration);
    SlotsForAscending(f.granularity, r.start, r.start + r.duration);
    SlotsForFull(f.granularity, r.start, r.start + r.duration);
    CreatedTakes(f, t, r, c);
    TakeAllAt(t.capacity, r.facility, slots, f.capacity, f.granularity, k);
    var suffix: seq<Lock> := match key { case Some(e) => [KeyLock(e)] case None => [] };
    PlanLocks([], r.facility, slots, suffix, k);
    assert [] + CounterLocks(r.facility, slots) + suffix == SharedPlan(r.facility, f.granularity, r.start, r.start + r.duration, key);
  }

  /** A release writes exactly the counters of its booking that still count somebody. */
  lemma ReleaseWritesItsPlan(c: Campus, t: Tables, i: nat, k: SlotKey)
    requires i < |t.bookings| && t.bookings[i].facility in c.facilities && ValidFacility(c.facilities[t.bookings[i].facility])
    ensures Written(t.capacity, Released(c, t, i).capacity, k)
            <==> Locks(BookingLocks(c, t.bookings[i]), k) && k in t.capacity && t.capacity[k].booked > 0
  {
    var b := t.bookings[i];
    if !b.exclusive {
      var slots := SlotsFor(c.facilities[b.facility].granularity, b.start, b.end);
      SlotsForAscending(c.facilities[b.facility].granularity, b.start, b.end);
      ReleaseAllAt(t.capacity, b.facility, slots, k);
      CounterLocksExact(b.facility, slots, k);
    }
  }

  /** A cancel of a shared booking locks, besides its row, the locks of that release. */
  lemma CancelPlanIsRelease(c: Campus, b: Booking, id: nat, k: SlotKey)
    requires b.facility in c.facilities && !b.exclusive
    ensures Locks(CancelPlan(b.facility, c.facilities[b.facility].granularity, id, b.start, b.end), k) <==> Locks(BookingLocks(c, b), k)
  {
  }

  /** A closure writes only counters it locks, and every one of them that was not closed. */
  lemma ClosureWritesItsPlan(c: Campus, t: Tables, f: FacilityId, actor: UserId, start: Instant, end: Instant, key: int, k: SlotKey)
    requires f in c.facilities && ValidFacility(c.facilities[f]) && !c.facilities[f].exclusive
    requires CreateClosure(c, t, f, actor, start, end).outcome.Created?
    ensures Written(t.capacity, CreateClosure(c, t, f, actor, start, end).tables.capacity, k)
            <==> Locks(ClosurePlan(f, c.facilities[f], c.zone, key, start, end), k) && (k in t.capacity ==> t.capacity[k].capacity != 0)
  {
    var slots := ClosureSlots(c.facilities[f], c.zone, start, end);
    ClosureSlotsAscending(c.facilities[f], c.zone, start, end);
    ZeroAllAt(t.capacity, f, slots, c.facilities[f].granularity, k);
    PlanLocks([FacilityLock(key)], f, slots, [], k);
    assert [FacilityLock(key)] + CounterLocks(f, slots) + [] == ClosurePlan(f, c.facilities[f], c.zone, key, start, end);
  }

  /** Reopening writes only counters it locks. */
  lemma ReopenWritesItsPlan(c: Campus, t: Tables, i: nat, actor: UserId, key: int, k: SlotKey)
    requires i < |t.bookings| && t.bookings[i].facility in c.facilities && ValidFacility(c.facilities[t.bookings[i].facility])
    requires !c.facilities[t.bookings[i].facility].exclusive && Reopen(c, t, i, actor).outcome == Done(i)
    ensures var b := t.bookings[i];
            Written(t.capacity, Reopen(c, t, i, actor).tables.capacity, k) ==>
              Locks(ReopenPlan(b.facility, c.facilities[b.facility], c.zone, key, i, b.start, b.end), k)
  {
    var b := t.bookings[i];
    var f := c.facilities[b.facility];
    var slots := ClosureSlots(f, c.zone, b.start, b.end);
    ClosureSlotsAscending(f, c.zone, b.start, b.end);
    RestoreAllAt(t.capacity, Marked(t.bookings, {i}, Cancelled), b.facility, slots, f.capacity, k);
    PlanLocks([FacilityLock(key), RowLock(i)], b.facility, slots, [], k);
    assert [FacilityLock(key), RowLock(i)] + CounterLocks(b.facility, slots) + [] == ReopenPlan(b.facility, f, c.zone, key, i, b.start, b.end);
  }
}
