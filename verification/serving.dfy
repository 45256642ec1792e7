/** The sweeps serve the queue: whatever window they free, afterwards it is held again or
    nobody they could have offered it to is waiting for it. */
module Serving {
  import opened Model
  import opened Statements
  import opened Transitions
  import opened Invariants
  import opened Preservation
  import opened Batches
  import opened Announcements
  import opened Outcomes
  import opened Causes

  ghost predicate HeldOver(t: Tables, f: FacilityId, start: Instant, end: Instant)
  {
    exists i :: 0 <= i < |t.bookings| && IsHoldOf(t.bookings[i], f, start, end)
  }

  predicate IsHoldOf(b: Booking, f: FacilityId, start: Instant, end: Instant)
  {
    b.status == Held && b.exclusive && b.facility == f && b.start == start && b.end == end
  }

  /** The window is held, or no unlocked entry waits for any part of it. */
  ghost predicate Served(t: Tables, f: FacilityId, start: Instant, end: Instant, locked: Locked)
  {
    HeldOver(t, f, start, end) || !SomebodyQueues(t, f, start, end, locked)
  }

  lemma PromoteServes(c: Campus, t: Tables, f: FacilityId, start: Instant, end: Instant, now: Instant, locked: Locked)
    requires !Conflicts(t.bookings, f, start, end)
    ensures Served(Promote(c, t, f, start, end, now, locked), f, start, end, locked)
  {
    var row := PromoteOffers(c, t, f, start, end, now, locked);
    var u := Promote(c, t, f, start, end, now, locked);
    if SomebodyQueues(t, f, start, end, locked) {
      assert IsHoldOf(u.bookings[|t.bookings|], f, start, end);
    } else {
      ClaimHeadIsHead(t.waitlist, f, start, end, locked.entries);
    }
  }

  /** Serving one window does not unserve another. */
  lemma ServedKept(u: Tables, v: Tables, x: nat, f: FacilityId, start: Instant, end: Instant, locked: Locked)
    requires Served(u, f, start, end, locked) && QueueShrinks(u.waitlist, v.waitlist)
    requires x < |u.bookings| <= |v.bookings| && forall i :: 0 <= i < |u.bookings| && i != x ==> v.bookings[i] == u.bookings[i]
    requires !IsHoldOf(u.bookings[x], f, start, end)
    ensures Served(v, f, start, end, locked)
  {
    if HeldOver(u, f, start, end) {
      var i :| 0 <= i < |u.bookings| && IsHoldOf(u.bookings[i], f, start, end);
      assert IsHoldOf(v.bookings[i], f, start, end);
    }
  }

  // -------------------------------------------------------------- waitlist sweep

  lemma ExpireOneShape(c: Campus, u: Tables, x: nat, now: Instant, locked: Locked)
    requires x < |u.bookings|
    ensures var v := ExpireOne(c, u, x, now, locked);
            && |u.bookings| <= |v.bookings| && QueueShrinks(u.waitlist, v.waitlist)
            && forall i :: 0 <= i < |u.bookings| && i != x ==> v.bookings[i] == u.bookings[i]
  {
    var b := u.bookings[x];
    var w := Announced(Logged(u.(bookings := Marked(u.bookings, {x}, Cancelled), waitlist := Retired(u.waitlist, x, EntryStatus.Expired)),
                              x, Held, Cancelled), WaitlistExpired, x);
    RetiredShrinks(u.waitlist, x, EntryStatus.Expired);
    PromotedRow(c, w, b.facility, b.start, b.end, now, locked);
    QueueShrinksTrans(u.waitlist, w.waitlist, ExpireOne(c, u, x, now, locked).waitlist);
  }

  lemma ExpireOneServes(c: Campus, u: Tables, x: nat, now: Instant, locked: Locked)
    requires NoDoubleBooking(u.bookings) && x < |u.bookings| && Holding(u.bookings[x])
    ensures Served(ExpireOne(c, u, x, now, locked), u.bookings[x].facility, u.bookings[x].start, u.bookings[x].end, locked)
  {
    var b := u.bookings[x];
    var w := Announced(Logged(u.(bookings := Marked(u.bookings, {x}, Cancelled), waitlist := Retired(u.waitlist, x, EntryStatus.Expired)),
                              x, Held, Cancelled), WaitlistExpired, x);
    FreedWindowIsFree(u.bookings, x, {x}, Cancelled);
    PromoteServes(c, w, b.facility, b.start, b.end, now, locked);
  }

  lemma OtherWindow(c: Campus, t: Tables, x: nat, y: nat)
    requires Inv(c, t) && x < |t.bookings| && y < |t.bookings| && x != y && Holding(t.bookings[x]) && Holding(t.bookings[y])
    ensures !IsHoldOf(t.bookings[x], t.bookings[y].facility, t.bookings[y].start, t.bookings[y].end)
  {
    HoldingApart(c, t, x, y);
  }

  lemma {:induction false} ExpireEachServes(c: Campus, t: Tables, batch: seq<nat>, now: Instant, locked: Locked)
    requires Inv(c, t) && AllDueHolds(t, now, batch)
    ensures forall k :: 0 <= k < |batch| ==>
              var b := t.bookings[batch[k]];
              Served(ExpireEach(c, t, batch, now, locked), b.facility, b.start, b.end, locked)
  {
    if |batch| > 0 {
      var n := |batch| - 1;
      var x, q := batch[n], batch[..n];
      IdsLast(batch);
      assert AllDueHolds(t, now, q);
      ExpireEachServes(c, t, q, now, locked);
      ExpireEachInv(c, t, q, now, locked);
      var u := ExpireEach(c, t, q, now, locked);
      assert u.bookings[x] == t.bookings[x];
      assert RowOk(c, u.bookings[x]);
      ExpireOneServes(c, u, x, now, locked);
      ExpireOneShape(c, u, x, now, locked);
      forall k | 0 <= k < n
        ensures var b := t.bookings[batch[k]];
                Served(ExpireOne(c, u, x, now, locked), b.facility, b.start, b.end, locked)
      {
        var y := batch[k];
        assert q[k] == y && RowOk(c, t.bookings[y]) && RowOk(c, t.bookings[x]);
        OtherWindow(c, t, x, y);
        ServedKept(u, ExpireOne(c, u, x, now, locked), x, t.bookings[y].facility, t.bookings[y].start, t.bookings[y].end, locked);
      }
    }
  }

  /** After a waitlist sweep every reclaimed window has been served. */
  lemma SweepHoldsServes(c: Campus, t: Tables, batch: seq<nat>, now: Instant, locked: Locked, k: nat)
    requires Inv(c, t) && AllDueHolds(t, now, batch) && k < |batch|
    ensures var b := t.bookings[batch[k]];
            Served(SweepHolds(c, t, batch, now, locked), b.facility, b.start, b.end, locked)
  {
    SweepHoldsIsOneByOne(c, t, batch, now, locked);
    ExpireEachServes(c, t, batch, now, locked);
  }

  // --------------------------------------------------------------- check-in sweep

  lemma NoShowOneShape(c: Campus, u: Tables, x: nat, now: Instant, locked: Locked)
    requires x < |u.bookings| && u.bookings[x].facility in c.facilities
    ensures var v := NoShowOne(c, u, x, now, locked);
            && |u.bookings| <= |v.bookings| && QueueShrinks(u.waitlist, v.waitlist)
            && forall i :: 0 <= i < |u.bookings| && i != x ==> v.bookings[i] == u.bookings[i]
  {
    var b := u.bookings[x];
    var w := Announced(Released(c, Logged(u.(bookings := Marked(u.bookings, {x}, NoShow)), x, Confirmed, NoShow), x), BookingNoShow, x);
    PromotedRow(c, w, b.facility, b.start, b.end, now, locked);
  }

  lemma NoShowOneServes(c: Campus, u: Tables, x: nat, now: Instant, locked: Locked)
    requires NoDoubleBooking(u.bookings) && x < |u.bookings| && Holding(u.bookings[x]) && u.bookings[x].facility in c.facilities
    requires c.promoting
    ensures Served(NoShowOne(c, u, x, now, locked), u.bookings[x].facility, u.bookings[x].start, u.bookings[x].end, locked)
  {
    var b := u.bookings[x];
    var w := Announced(Released(c, Logged(u.(bookings := Marked(u.bookings, {x}, NoShow)), x, Confirmed, NoShow), x), BookingNoShow, x);
    FreedWindowIsFree(u.bookings, x, {x}, NoShow);
    PromoteServes(c, w, b.facility, b.start, b.end, now, locked);
  }

  /** The no-show at the end of a batch is not the hold of another's window. */
  lemma NotThatHold(u: Tables, x: nat, f: FacilityId, start: Instant, end: Instant)
    requires x < |u.bookings| && u.bookings[x].status == Confirmed
    ensures !IsHoldOf(u.bookings[x], f, start, end)
  {
  }

  lemma {:induction false} NoShowEachServes(c: Campus, t: Tables, batch: seq<nat>, now: Instant, locked: Locked)
    requires ValidCampus(c) && Inv(c, t) && RowsKnown(c, t) && AllDueNoShows(t, now, c.grace, batch) && c.promoting
    ensures forall k :: 0 <= k < |batch| && t.bookings[batch[k]].exclusive ==>
              var b := t.bookings[batch[k]];
              Served(NoShowEach(c, t, batch, now, locked), b.facility, b.start, b.end, locked)
  {
    if |batch| > 0 {
      var n := |batch| - 1;
      var x, q := batch[n], batch[..n];
      DueButLast(c, t, batch, now);
      IdsLast(batch);
      NoShowEachServes(c, t, q, now, locked);
      NoShowEachInv(c, t, q, now, locked);
      var u := NoShowEach(c, t, q, now, locked);
      assert u.bookings[x] == t.bookings[x];
      NoShowOneShape(c, u, x, now, locked);
      if u.bookings[x].exclusive {
        NoShowOneServes(c, u, x, now, locked);
      }
      forall k | 0 <= k < n && t.bookings[batch[k]].exclusive
        ensures var b := t.bookings[batch[k]];
                Served(NoShowOne(c, u, x, now, locked), b.facility, b.start, b.end, locked)
      {
        var y := batch[k];
        assert q[k] == y;
        NotThatHold(u, x, t.bookings[y].facility, t.bookings[y].start, t.bookings[y].end);
        ServedKept(u, NoShowOne(c, u, x, now, locked), x, t.bookings[y].facility, t.bookings[y].start, t.bookings[y].end, locked);
      }
    }
  }

  /** After a check-in sweep, so has every released window of an exclusive facility, where a
      waitlist is wired. */
  lemma ReleaseServes(c: Campus, t: Tables, batch: seq<nat>, now: Instant, locked: Locked, k: nat)
    requires ValidCampus(c) && Inv(c, t) && RowsKnown(c, t) && AllDueNoShows(t, now, c.grace, batch) && c.promoting
    requires k < |batch| && t.bookings[batch[k]].exclusive
    ensures var b := t.bookings[batch[k]];
            Served(ReleaseNoShows(c, t, batch, now, locked), b.facility, b.start, b.end, locked)
  {
    ReleaseNoShowsIsOneByOne(c, t, batch, now, locked);
    NoShowEachServes(c, t, batch, now, locked);
  }

  /** After a cancel, so has the cancelled window. */
  lemma CancelServes(c: Campus, t: Tables, i: nat, now: Instant, locked: Locked)
    requires Inv(c, t) && i < |t.bookings| && t.bookings[i].facility in c.facilities && t.bookings[i].exclusive
    requires t.bookings[i].status == Confirmed && c.promoting
    ensures Served(CancelledTables(c, t, i, now, locked), t.bookings[i].facility, t.bookings[i].start, t.bookings[i].end, locked)
  {
    var b := t.bookings[i];
    var freed := Logged(Released(c, t.(bookings := Marked(t.bookings, {i}, Cancelled)), i), i, Confirmed, Cancelled);
    FreedWindowIsFree(t.bookings, i, {i}, Cancelled);
    PromoteServes(c, freed, b.facility, b.start, b.end, now, locked);
  }
}
