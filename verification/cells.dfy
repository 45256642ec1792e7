/** One cell of the campus grid against the write path: a column is shown as bookable exactly
    when a request for it goes through. */
module Cells {
  import opened Model
  import opened Grid
  import opened Statements
  import opened Transitions
  import opened Invariants
  import opened Runs
  import opened Outcomes
  import S = Alternatives
  import P = Pivot
  import X = ColdPath

  /** Of the six states only these two can still be booked. */
  lemma BookableStates(state: P.State)
    ensures S.Bookable(state) <==> state == "free" || state == "filling"
    ensures state in {"held", "booked", "closed", "full", P.UNSET} ==> !S.Bookable(state)
  {
    if S.Bookable(state) {
      assert |state| == 4 || |state| == 7;
      assert state[0] == 'f';
      assert state[1] == 'r' || state[1] == 'i';
    }
  }

  /** The campus query's cell for a shared facility: the counter row that starts with the
      column, or the declared capacity where there is none. */
  function SharedCell(t: Tables, id: FacilityId, f: Facility, d: X.Day, s: P.Slot): P.State
  {
    var k := SlotKey(id, s.start);
    var capacity := if k in t.capacity then t.capacity[k].capacity else f.capacity;
    var left := capacity - if k in t.capacity then t.capacity[k].booked else 0;
    if s.start < d.midnight + f.opens || s.end > d.midnight + f.closes then "closed"
    else if BlockedOver(t.bookings, id, s.start, s.end) then "closed"
    else if left <= 0 then "full"
    else if 5 * left <= (if capacity > 1 then capacity else 1) then "filling"
    else "free"
  }

  ghost function CellOf(t: Tables, id: FacilityId, f: Facility, d: X.Day, s: P.Slot): P.State
  {
    if f.exclusive then X.Cell(t.bookings, id, f, d, s) else SharedCell(t, id, f, d, s)
  }

  /** What the cell of a block says in a reachable state, in terms of the bookings alone. */
  lemma SharedCellExact(c: Campus, t: Tables, id: FacilityId, d: X.Day, s: P.Slot)
    requires ValidCampus(c) && Reachable(c, t) && id in c.facilities && !c.facilities[id].exclusive
    requires IsBlock(c.facilities[id], c.zone, s.start) && s.end == s.start + c.facilities[id].granularity
    ensures var f := c.facilities[id];
            var k := SlotKey(id, s.start);
            var left := f.capacity - PlacesTaken(c, t, k);
            var cell := SharedCell(t, id, f, d, s);
            if !X.Open(f, d, s.start, s.end) || ClosureOver(c, t, k) then cell == "closed"
            else 0 <= left <= f.capacity && cell == if left == 0 then "full" else if 5 * left <= f.capacity then "filling" else "free"
  {
    CounterConservation(c, t, SlotKey(id, s.start));
  }

  /** A column that does not begin a block of the facility is read against no counter: inside
      opening hours and away from closures it looks free however full its block is. */
  lemma OffGridColumnsLookFree(c: Campus, t: Tables, id: FacilityId, d: X.Day, s: P.Slot)
    requires ValidCampus(c) && Reachable(c, t) && id in c.facilities && !c.facilities[id].exclusive
    requires !IsBlock(c.facilities[id], c.zone, s.start)
    requires X.Open(c.facilities[id], d, s.start, s.end) && !BlockedOver(t.bookings, id, s.start, s.end)
    ensures SharedCell(t, id, c.facilities[id], d, s) == "free"
  {
    ReachableInv(c, t);
    assert CounterOk(c, t.bookings, t.capacity, SlotKey(id, s.start));
    assert ValidFacility(c.facilities[id]);
  }

  lemma OneBlock(t: Tables, f: Facility, r: Request)
    requires f.granularity > 0 && r.duration == f.granularity
    ensures var k := SlotKey(r.facility, r.start);
            RoomFor(t, f, r) <==> (k in t.capacity ==> t.capacity[k].booked < t.capacity[k].capacity)
  {
    var slots := SlotsFor(f.granularity, r.start, r.start + r.duration);
    assert SlotsFor(f.granularity, r.start + f.granularity, r.start + r.duration) == [];
    assert slots == [Slot(r.start, r.start + r.duration)];
    assert slots[0].start == r.start;
    assert Has(slots, r.start);
  }

  lemma SharedCellHasRoom(c: Campus, t: Tables, r: Request, now: Instant, d: X.Day)
    requires ValidCampus(c) && Reachable(c, t) && r.facility in c.facilities && !c.facilities[r.facility].exclusive
    requires Validate(c.facilities[r.facility], c.zone, r.user, r.start, r.duration, now) == None
    requires r.duration == c.facilities[r.facility].granularity && X.Open(c.facilities[r.facility], d, r.start, r.start + r.duration)
    ensures var f := c.facilities[r.facility];
            S.Bookable(SharedCell(t, r.facility, f, d, P.Slot(r.start, r.start + r.duration))) <==> RoomFor(t, f, r)
  {
    var f := c.facilities[r.facility];
    assert ValidFacility(f);
    var s := P.Slot(r.start, r.start + r.duration);
    ValidateOnGrid(f, c.zone, r.user, r.start, r.duration, now);
    CounterConservation(c, t, SlotKey(r.facility, r.start));
    SharedCellExact(c, t, r.facility, d, s);
    OneBlock(t, f, r);
    BookableStates(SharedCell(t, r.facility, f, d, s));
  }

  /** In a reachable state the cell of a column says bookable exactly when a valid request for
      that column, with a new key and nothing else against it, is booked. On a shared facility
      the column is one of its own blocks. */
  lemma BookableIffBooked(c: Campus, t: Tables, r: Request, now: Instant, d: X.Day, uniqueFirst: bool)
    requires ValidCampus(c) && Reachable(c, t) && r.facility in c.facilities && !KeyUsed(t, r)
    requires Validate(c.facilities[r.facility], c.zone, r.user, r.start, r.duration, now) == None
    requires d.midnight == Midnight(c.zone, r.start)
    requires c.facilities[r.facility].exclusive || r.duration == c.facilities[r.facility].granularity
    ensures var cell := CellOf(t, r.facility, c.facilities[r.facility], d, P.Slot(r.start, r.start + r.duration));
            S.Bookable(cell) <==> Create(c, t, r, now, [Conditions(NoFault, false, uniqueFirst, false)]).outcome.Created?
  {
    var f, k := c.facilities[r.facility], Conditions(NoFault, false, uniqueFirst, false);
    var s := P.Slot(r.start, r.start + r.duration);
    ValidateExact(f, c.zone, r.user, r.start, r.duration, now);
    WithinHoursIs(f, c.zone, r.start, r.start + r.duration);
    assert Deciding([k]) == Some(k);
    AttemptsDecided(f, t, r, [k]);
    AttemptExact(c, t, r, now, k);
    if f.exclusive {
      X.CellIsFree(t.bookings, r.facility, f, d, s);
      ConflictsAreHeld(t, r);
    } else {
      SharedCellHasRoom(c, t, r, now, d);
    }
  }
}
