/** Concrete runs, on one small campus: a gym and a studio of thirty places each, a booth of
    two, and one court. */
module Witness {
  import opened Model
  import opened Grid
  import opened Statements
  import opened Transitions
  import opened Invariants
  import opened CounterLemmas
  import opened Runs
  import opened Announcements
  import opened LockOrder
  import opened SweepLocks

  const HOUR: int := 3_600_000_000_000
  const GYM: Facility := Facility(true, false, 30, 6 * HOUR, 22 * HOUR, HOUR, HOUR, 2 * HOUR)
  const BOOTH: Facility := Facility(true, false, 2, 6 * HOUR, 22 * HOUR, HOUR, HOUR, 2 * HOUR)
  const COURT: Facility := Facility(true, true, 1, 6 * HOUR, 22 * HOUR, HOUR, HOUR, 2 * HOUR)
  const CAMPUS: Campus := Campus(map[0 := GYM, 1 := COURT, 2 := GYM, 3 := BOOTH], 0, 900_000_000_000, 900_000_000_000, 900_000_000_000, true)
  const CALM: Conditions := Conditions(NoFault, false, false, false)
  const NOBODY: Locked := Locked({}, {})

  lemma CampusIsValid()
    ensures ValidCampus(CAMPUS)
  {
  }

  predicate Usual(r: Request)
  {
    && r.facility in CAMPUS.facilities && r.user != NIL_USER && (r.duration == HOUR || r.duration == 2 * HOUR)
    && 6 * HOUR <= r.start && r.start + r.duration <= 22 * HOUR && (r.start - 6 * HOUR) % HOUR == 0
  }

  lemma UsualIsValid(r: Request, now: Instant)
    requires Usual(r) && now <= r.start
    ensures Validate(CAMPUS.facilities[r.facility], CAMPUS.zone, r.user, r.start, r.duration, now) == None
  {
  }

  lemma {:induction false} FewHold(c: Campus, bs: seq<Booking>, k: SlotKey)
    ensures |Holders(c, bs, k)| <= |bs|
  {
    if bs != [] {
      var n := |bs| - 1;
      FewHold(c, bs[..n], k);
      assert Holders(c, bs, k) == Holders(c, bs[..n], k) + (if TakesPlace(c, bs[n], k) then {n as nat} else {});
    }
  }

  ghost predicate NothingClosed(t: Tables)
  {
    forall i :: 0 <= i < |t.bookings| ==> t.bookings[i].status != Blocked
  }

  /** Where fewer bookings were ever made than there are places, there is room. */
  lemma FewLeaveRoom(t: Tables, r: Request)
    requires Reachable(CAMPUS, t) && Usual(r) && !CAMPUS.facilities[r.facility].exclusive
    requires NothingClosed(t) && |t.bookings| < CAMPUS.facilities[r.facility].capacity
    ensures var f := CAMPUS.facilities[r.facility];
            TakeAll(t.capacity, r.facility, SlotsFor(f.granularity, r.start, r.start + r.duration), f.capacity).Some?
  {
    CampusIsValid();
    UsualIsValid(r, 0);
    var f := CAMPUS.facilities[r.facility];
    forall x | Has(SlotsFor(f.granularity, r.start, r.start + r.duration), x)
      ensures PlacesTaken(CAMPUS, t, SlotKey(r.facility, x)) < f.capacity && !ClosureOver(CAMPUS, t, SlotKey(r.facility, x))
    {
      FewHold(CAMPUS, t.bookings, SlotKey(r.facility, x));
    }
    RoomMeansPlaces(CAMPUS, t, r, 0);
    RoomIsTakeable(CAMPUS, t, r, 0);
  }

  ghost predicate KeyIsFree(t: Tables, r: Request)
  {
    forall i :: 0 <= i < |t.bookings| ==> KeyOf(r).None? || t.bookings[i].user != Some(r.user) || t.bookings[i].key != KeyOf(r)
  }

  /** A booking on a quiet day succeeds. */
  lemma Book(t: Tables, r: Request) returns (u: Tables)
    requires Reachable(CAMPUS, t) && Usual(r) && NothingClosed(t) && KeyIsFree(t, r)
    requires if CAMPUS.facilities[r.facility].exclusive then !Conflicts(t.bookings, r.facility, r.start, r.start + r.duration)
             else |t.bookings| < CAMPUS.facilities[r.facility].capacity
    ensures Reachable(CAMPUS, u)
    ensures u.bookings == t.bookings + [RowOf(r, CAMPUS.facilities[r.facility].exclusive)]
    ensures u.waitlist == t.waitlist && u.checkIns == t.checkIns
  {
    CampusIsValid();
    var f := CAMPUS.facilities[r.facility];
    UsualIsValid(r, 0);
    CallReachesFrom(CAMPUS, t, DoCreate(r, 0, [CALM, CALM, CALM]));
    u := Apply(CAMPUS, t, DoCreate(r, 0, [CALM, CALM, CALM]));
    if !f.exclusive {
      FewLeaveRoom(t, r);
    }
    FirstAttempt(f, t, r);
  }

  lemma FirstAttempt(f: Facility, t: Tables, r: Request)
    requires KeyIsFree(t, r)
    requires if f.exclusive then !Conflicts(t.bookings, r.facility, r.start, r.start + r.duration)
             else TakeAll(t.capacity, r.facility, SlotsFor(f.granularity, r.start, r.start + r.duration), f.capacity).Some?
    ensures var s := Attempts(f, t, r, [CALM, CALM, CALM]);
            && s.tables.bookings == t.bookings + [RowOf(r, f.exclusive)]
            && s.tables.waitlist == t.waitlist && s.tables.checkIns == t.checkIns
  {
    Admits(t, r, f.exclusive);
    assert Attempt(f, t, r, CALM).outcome == Created(|t.bookings|);
  }

  lemma Admits(t: Tables, r: Request, exclusive: bool)
    requires KeyIsFree(t, r) && (exclusive ==> !Conflicts(t.bookings, r.facility, r.start, r.start + r.duration))
    ensures CheckInsert(t.bookings, RowOf(r, exclusive), false) == Admitted
  {
    InsertExact(t.bookings, RowOf(r, exclusive), false);
    assert forall i :: 0 <= i < |t.bookings| ==> !Clash(t.bookings[i], RowOf(r, exclusive));
  }

  function Hour(f: FacilityId, user: UserId, start: Instant): Request
  {
    Request(f, user, start, HOUR, "")
  }

  /** Student 1 has the court at nine, and student 2 queues for it. */
  lemma Queued() returns (t: Tables)
    ensures Reachable(CAMPUS, t)
    ensures t.bookings == [Booking(1, Some(1), true, 9 * HOUR, 10 * HOUR, Confirmed, None, None)]
    ensures t.waitlist == [Entry(1, 2, 9 * HOUR, 10 * HOUR, 0, Waiting, None)]
  {
    EmptyIsReachable(CAMPUS);
    CampusIsValid();
    var booked := Book(EMPTY, Hour(1, 1, 9 * HOUR));
    CallReachesFrom(CAMPUS, booked, DoJoin(2, 1, 9 * HOUR, 10 * HOUR, 0));
    t := Apply(CAMPUS, booked, DoJoin(2, 1, 9 * HOUR, 10 * HOUR, 0));
  }

  /** Student 1 cancels at eight; student 2 holds the court. */
  lemma Offered() returns (t: Tables, u: Tables)
    ensures Reachable(CAMPUS, t) && Reachable(CAMPUS, u)
    ensures t.bookings == [Booking(1, Some(1), true, 9 * HOUR, 10 * HOUR, Confirmed, None, None)]
    ensures Cancel(CAMPUS, t, 0, 1, false, 8 * HOUR, NOBODY) == Step(u, Done(0)) && SomebodyWaits(t, 0, NOBODY)
    ensures |u.bookings| == 2 && u.bookings[1].status == Held && u.bookings[1].user == Some(2) && u.bookings[1].facility == 1
  {
    CampusIsValid();
    t := Queued();
    CallReachesFrom(CAMPUS, t, DoCancel(0, 1, false, 8 * HOUR, NOBODY));
    u := Apply(CAMPUS, t, DoCancel(0, 1, false, 8 * HOUR, NOBODY));
    var e := t.waitlist[0];
    assert Eligible(e, 1, 9 * HOUR, 10 * HOUR);
    assert t.waitlist[..0] == [];
    assert ClaimHead(t.waitlist, 1, 9 * HOUR, 10 * HOUR, {}) == Some(0);
    ReachableInv(CAMPUS, t);
    assert HeldCheck(t.bookings[0].(status := Cancelled));
    assert SomebodyQueues(t, 1, 9 * HOUR, 10 * HOUR, NOBODY);
  }

  /** A student's cancel of the hold that was offered aborts, in a state the system reaches. */
  lemma CancelOfAHoldAborts() returns (t: Tables)
    ensures Reachable(CAMPUS, t) && |t.bookings| == 2
    ensures t.bookings[1].status == Held && t.bookings[1].user == Some(2) && t.bookings[1].facility in CAMPUS.facilities
    ensures Cancel(CAMPUS, t, 1, 2, false, 8 * HOUR, NOBODY) == Step(t, Aborted)
  {
    var before;
    before, t := Offered();
    CampusIsValid();
    CancelNeverEndsAHold(CAMPUS, t, 1, 2, false, 8 * HOUR, NOBODY);
  }

  /** A cancel after which the last announcement about the window is false. */
  lemma CancelCanMislead() returns (t: Tables)
    ensures Reachable(CAMPUS, t) && |t.bookings| == 1 && t.bookings[0].facility in CAMPUS.facilities
    ensures Cancel(CAMPUS, t, 0, 1, false, 8 * HOUR, NOBODY).outcome == Done(0)
    ensures !AnnouncedTruly(Cancel(CAMPUS, t, 0, 1, false, 8 * HOUR, NOBODY).tables, 1, 9 * HOUR, 10 * HOUR)
  {
    var after;
    t, after := Offered();
    CampusIsValid();
    ReachableInv(CAMPUS, t);
    CancelAnnounces(CAMPUS, t, 0, 1, false, 8 * HOUR, NOBODY);
  }

  /** Two gym bookings nobody came to, at nine and at ten. */
  lemma TwoNoShows() returns (t: Tables)
    ensures Reachable(CAMPUS, t) && IsTwoNoShows(t)
  {
    EmptyIsReachable(CAMPUS);
    var one := Book(EMPTY, Hour(0, 1, 9 * HOUR));
    t := Book(one, Hour(0, 2, 10 * HOUR));
  }

  predicate IsTwoNoShows(t: Tables)
  {
    && t.checkIns == {}
    && t.bookings == [Booking(0, Some(1), false, 9 * HOUR, 10 * HOUR, Confirmed, None, None),
                      Booking(0, Some(2), false, 10 * HOUR, 11 * HOUR, Confirmed, None, None)]
  }

  lemma BothReleased(t: Tables)
    requires IsTwoNoShows(t)
    ensures RowsKnown(CAMPUS, t) && Enabled(CAMPUS, t, DoSweepCheckIns(12 * HOUR, NOBODY, [], [1, 0]))
    ensures AllDueNoShows(t, 12 * HOUR, CAMPUS.grace, [1, 0])
  {
    assert DueNoShow(t, 0, 12 * HOUR, CAMPUS.grace) && DueNoShow(t, 1, 12 * HOUR, CAMPUS.grace);
    assert Ids([1, 0]) == {0, 1} && DueNoShows(CAMPUS, t, 12 * HOUR) == {0, 1};
    BatchOfTwo(t, [1, 0], {});
  }

  lemma LaterOneFirst(t: Tables)
    requires IsTwoNoShows(t) && RowsKnown(CAMPUS, t) && InTable([1, 0], t)
    ensures Descends(CAMPUS, t, [1, 0], 1, 0, 9 * HOUR, 10 * HOUR)
  {
    var batch: seq<nat> := [1, 0];
    var early, late := t.bookings[0], t.bookings[1];
    SlotsForExact(HOUR, early.start, early.end, 9 * HOUR);
    SlotsForExact(HOUR, late.start, late.end, 10 * HOUR);
    SlotsForExact(HOUR, late.start, late.end, 9 * HOUR);
    assert batch[0] == 1 && batch[1] == 0;
    assert GivesUp(CAMPUS, t.bookings[batch[0]], 0, 10 * HOUR) && !GivesUp(CAMPUS, t.bookings[batch[0]], 0, 9 * HOUR);
  }

  lemma LaterOneComesFirst() returns (t: Tables, from: Instant, late: Instant)
    ensures Reachable(CAMPUS, t) && Enabled(CAMPUS, t, DoSweepCheckIns(12 * HOUR, NOBODY, [], [1, 0]))
    ensures ValidCampus(CAMPUS) && Inv(CAMPUS, t) && RowsKnown(CAMPUS, t) && AllDueNoShows(t, 12 * HOUR, CAMPUS.grace, [1, 0])
    ensures from == 9 * HOUR && late == 10 * HOUR && Descends(CAMPUS, t, [1, 0], 1, 0, from, late)
  {
    t := TwoNoShows();
    CampusIsValid();
    ReachableInv(CAMPUS, t);
    BothReleased(t);
    LaterOneFirst(t);
    from, late := 9 * HOUR, 10 * HOUR;
  }

  /** The UPDATE may return the rows it selected in any order. Returned with the later one
      first, the two no-shows are a batch the sweep can receive, and releasing them in that
      order can deadlock with a closure of the two blocks, from nine to eleven. */
  lemma TwoPassesCanDeadlock() returns (t: Tables, sweep: seq<Lock>, from: Instant, to: Instant, closure: seq<Lock>)
    ensures Reachable(CAMPUS, t) && Enabled(CAMPUS, t, DoSweepCheckIns(12 * HOUR, NOBODY, [], [1, 0]))
    ensures InTable([1, 0], t) && RowsKnown(CAMPUS, t) && sweep == Deduped(SweepPlan(CAMPUS, t, [1, 0]))
    ensures from == 9 * HOUR && to == 11 * HOUR && closure == ClosurePlan(0, CAMPUS.facilities[0], CAMPUS.zone, 0, from, to)
    ensures CanStick(sweep, [closure])
  {
    var late;
    t, from, late := LaterOneComesFirst();
    to := late + CAMPUS.facilities[0].granularity;
    sweep, closure := DescentSticks(CAMPUS, t, [1, 0], 12 * HOUR, 1, 0, from, late, 0);
  }

  // ------------------------------------------------------------------- replays

  const MINE: Request := Request(3, 1, 9 * HOUR, HOUR, "again")

  /** Students 1 and 2 have the two places of the booth at nine; student 1 kept the key. */
  lemma BoothIsFull() returns (t: Tables)
    ensures Reachable(CAMPUS, t) && OwnsKey(t, MINE, 0)
    ensures t.bookings == [RowOf(MINE, false), RowOf(Hour(3, 2, 9 * HOUR), false)]
  {
    EmptyIsReachable(CAMPUS);
    var one := Book(EMPTY, MINE);
    t := Book(one, Hour(3, 2, 9 * HOUR));
  }

  /** Student 1 sends the request again: the slot is full, with the booking itself. */
  lemma FullReplayIsRefused() returns (t: Tables)
    ensures Reachable(CAMPUS, t) && OwnsKey(t, MINE, 0)
    ensures Create(CAMPUS, t, MINE, 0, [CALM, CALM, CALM]) == Step(t, CapacityFull)
  {
    CampusIsValid();
    t := BoothIsFull();
    UsualIsValid(MINE, 0);
    BoothCounts(t);
    NoRoomLeft(t, MINE, 9 * HOUR);
  }

  lemma NoRoomLeft(t: Tables, r: Request, x: Instant)
    requires ValidCampus(CAMPUS) && Reachable(CAMPUS, t) && Usual(r) && r.facility == 3
    requires Has(SlotsFor(BOOTH.granularity, r.start, r.start + r.duration), x) && PlacesTaken(CAMPUS, t, SlotKey(3, x)) == 2
    ensures TakeAll(t.capacity, 3, SlotsFor(BOOTH.granularity, r.start, r.start + r.duration), 2) == None
  {
    UsualIsValid(r, 0);
    RoomMeansPlaces(CAMPUS, t, r, 0);
    RoomIsTakeable(CAMPUS, t, r, 0);
  }

  lemma BoothCounts(t: Tables)
    requires t.bookings == [RowOf(MINE, false), RowOf(Hour(3, 2, 9 * HOUR), false)]
    ensures Has(SlotsFor(BOOTH.granularity, MINE.start, MINE.start + MINE.duration), 9 * HOUR)
    ensures PlacesTaken(CAMPUS, t, SlotKey(3, 9 * HOUR)) == 2
  {
    SlotsForExact(HOUR, 9 * HOUR, 10 * HOUR, 9 * HOUR);
    assert Holders(CAMPUS, t.bookings, SlotKey(3, 9 * HOUR)) == {0, 1};
  }

  /** The same request sent again while policy refuses, and again once its start has passed. */
  lemma RefusedReplays() returns (t: Tables)
    ensures Reachable(CAMPUS, t) && OwnsKey(t, MINE, 0)
    ensures Create(CAMPUS, t, MINE, 0, [CALM.(policyRefuses := true), CALM, CALM]) == Step(t, PolicyRefused)
    ensures Create(CAMPUS, t, MINE, 10 * HOUR, [CALM, CALM, CALM]) == Step(t, Invalid(InThePast))
  {
    t := BoothIsFull();
    UsualIsValid(MINE, 0);
  }

  // ---------------------------------------------------------------- two sweeps

  /** Four no-shows: the gym at nine and the studio at ten, the studio from nine to eleven and
      the gym at nine. */
  predicate IsFourNoShows(t: Tables)
  {
    && t.checkIns == {}
    && t.bookings == [RowOf(Hour(0, 1, 9 * HOUR), false), RowOf(Hour(2, 2, 10 * HOUR), false),
                      RowOf(Request(2, 3, 9 * HOUR, 2 * HOUR, ""), false), RowOf(Hour(0, 4, 9 * HOUR), false)]
  }

  lemma FourNoShows() returns (t: Tables)
    ensures Reachable(CAMPUS, t) && IsFourNoShows(t)
  {
    EmptyIsReachable(CAMPUS);
    var one := Book(EMPTY, Hour(0, 1, 9 * HOUR));
    var two := Book(one, Hour(2, 2, 10 * HOUR));
    var three := Book(two, Request(2, 3, 9 * HOUR, 2 * HOUR, ""));
    t := Book(three, Hour(0, 4, 9 * HOUR));
  }

  lemma NothingToComplete(t: Tables)
    requires t.checkIns == {}
    ensures Complete(t, []) == t && Ids([]) == {} && DueCompletes(t, 12 * HOUR) == {}
  {
    assert Marked(t.bookings, Ids([]), Completed) == t.bookings;
  }

  /** Any order of the due rows that are not locked is a batch the sweep can receive. */
  lemma BatchOfTwo(t: Tables, batch: seq<nat>, other: set<nat>)
    requires t.checkIns == {} && RowsKnown(CAMPUS, t) && Distinct(batch) && |batch| == 2
    requires DueNoShows(CAMPUS, t, 12 * HOUR) - other == Ids(batch)
    ensures Enabled(CAMPUS, t, DoSweepCheckIns(12 * HOUR, Locked(other, {}), [], batch))
  {
    NothingToComplete(t);
    var locked := Locked(other, {});
    assert CompleteBatch(t, 12 * HOUR, locked, []);
    assert NoShowBatch(CAMPUS, t, 12 * HOUR, locked, batch);
  }

  lemma AllFourDue(t: Tables)
    requires IsFourNoShows(t)
    ensures RowsKnown(CAMPUS, t) && DueNoShows(CAMPUS, t, 12 * HOUR) == {0, 1, 2, 3}
  {
    assert forall i: nat :: i < 4 ==> DueNoShow(t, i, 12 * HOUR, CAMPUS.grace);
  }

  lemma BothHalvesReceivable(t: Tables)
    requires IsFourNoShows(t)
    ensures RowsKnown(CAMPUS, t) && InTable([0, 1], t) && InTable([2, 3], t)
    ensures Enabled(CAMPUS, t, DoSweepCheckIns(12 * HOUR, Locked({2, 3}, {}), [], [0, 1]))
    ensures Enabled(CAMPUS, t, DoSweepCheckIns(12 * HOUR, Locked({0, 1}, {}), [], [2, 3]))
  {
    AllFourDue(t);
    assert Ids([0, 1]) == {0, 1} && Ids([2, 3]) == {2, 3};
    BatchOfTwo(t, [0, 1], {2, 3});
    BatchOfTwo(t, [2, 3], {0, 1});
  }

  lemma HourLocks(c: Campus, b: Booking, hours: int)
    requires c == CAMPUS && (b.facility == 0 || b.facility == 2) && !b.exclusive && b.end == b.start + hours * HOUR
    requires hours == 1 || hours == 2
    ensures BookingLocks(c, b) == if hours == 1 then [CounterLock(b.facility, b.start)]
                                  else [CounterLock(b.facility, b.start), CounterLock(b.facility, b.start + HOUR)]
  {
    assert SlotsFor(HOUR, b.end, b.end) == [];
    if hours == 1 {
      assert SlotsFor(HOUR, b.start, b.end) == [Slot(b.start, b.end)];
    } else {
      assert SlotsFor(HOUR, b.start + HOUR, b.end) == [Slot(b.start + HOUR, b.end)];
      assert SlotsFor(HOUR, b.start, b.end) == [Slot(b.start, b.start + HOUR), Slot(b.start + HOUR, b.end)];
    }
  }

  lemma SweepOfTwo(t: Tables, x: nat, y: nat)
    requires x < |t.bookings| && y < |t.bookings| && RowsKnown(CAMPUS, t) && InTable([x, y], t)
    ensures SweepPlan(CAMPUS, t, [x, y]) == BookingLocks(CAMPUS, t.bookings[x]) + BookingLocks(CAMPUS, t.bookings[y])
  {
    assert [x, y][..1] == [x] && [x][..0] == [];
    assert SweepPlan(CAMPUS, t, []) == [];
    assert [x][0] == x && SweepPlan(CAMPUS, t, [x]) == BookingLocks(CAMPUS, t.bookings[x]);
  }

  lemma NoRepeats(plan: seq<Lock>)
    requires DistinctLocks(plan)
    ensures Deduped(plan) == plan
    decreases |plan|
  {
    if plan != [] {
      NoRepeats(plan[..|plan| - 1]);
    }
  }

  /** Two sweeps at once, each skipping the rows the other has locked and each handling its
      batch in order of start, can deadlock with each other. */
  lemma TwoSweepsCanDeadlock() returns (t: Tables, first: seq<Lock>, second: seq<Lock>)
    ensures Reachable(CAMPUS, t)
    ensures Enabled(CAMPUS, t, DoSweepCheckIns(12 * HOUR, Locked({2, 3}, {}), [], [0, 1]))
    ensures Enabled(CAMPUS, t, DoSweepCheckIns(12 * HOUR, Locked({0, 1}, {}), [], [2, 3]))
    ensures InTable([0, 1], t) && InTable([2, 3], t) && RowsKnown(CAMPUS, t)
    ensures |t.bookings| == 4 && t.bookings[0].start <= t.bookings[1].start && t.bookings[2].start <= t.bookings[3].start
    ensures first == Deduped(SweepPlan(CAMPUS, t, [0, 1])) && second == Deduped(SweepPlan(CAMPUS, t, [2, 3]))
    ensures CanStick(first, [second])
  {
    t := FourNoShows();
    BothHalvesReceivable(t);
    FourPlans(t);
    first, second := Crossed();
    NoRepeats(first);
    NoRepeats(second);
  }

  lemma FourPlans(t: Tables)
    requires IsFourNoShows(t) && RowsKnown(CAMPUS, t) && InTable([0, 1], t) && InTable([2, 3], t)
    ensures SweepPlan(CAMPUS, t, [0, 1]) == [CounterLock(0, 9 * HOUR)] + [CounterLock(2, 10 * HOUR)]
    ensures SweepPlan(CAMPUS, t, [2, 3]) == [CounterLock(2, 9 * HOUR), CounterLock(2, 9 * HOUR + HOUR)] + [CounterLock(0, 9 * HOUR)]
  {
    HourLocks(CAMPUS, t.bookings[0], 1);
    HourLocks(CAMPUS, t.bookings[1], 1);
    HourLocks(CAMPUS, t.bookings[2], 2);
    HourLocks(CAMPUS, t.bookings[3], 1);
    SweepOfTwo(t, 0, 1);
    SweepOfTwo(t, 2, 3);
  }

  lemma Crossed() returns (first: seq<Lock>, second: seq<Lock>)
    ensures first == [CounterLock(0, 9 * HOUR)] + [CounterLock(2, 10 * HOUR)]
    ensures second == [CounterLock(2, 9 * HOUR), CounterLock(2, 9 * HOUR + HOUR)] + [CounterLock(0, 9 * HOUR)]
    ensures DistinctLocks(first) && DistinctLocks(second) && CanStick(first, [second])
  {
    first := [CounterLock(0, 9 * HOUR)] + [CounterLock(2, 10 * HOUR)];
    second := [CounterLock(2, 9 * HOUR), CounterLock(2, 9 * HOUR + HOUR)] + [CounterLock(0, 9 * HOUR)];
    assert first[..1] == [CounterLock(0, 9 * HOUR)];
    assert second[..2] == [CounterLock(2, 9 * HOUR), CounterLock(2, 10 * HOUR)];
    assert first[1] == CounterLock(2, 10 * HOUR) && second[2] == CounterLock(0, 9 * HOUR);
    assert second[..2][1] == first[1] && first[..1][0] == second[2];
    CrossingSticks(first, second, 1, 2);
  }
}
