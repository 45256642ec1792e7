/** The sweeps mark a whole batch first and then work through it. This module shows that
    such a pass is the same as handling its bookings one at a time, and that no hold made
    in a pass ever conflicts. */
module Batches {
  import opened Model
  import opened Grid
  import opened Statements
  import opened Transitions
  import opened Invariants
  import opened CounterLemmas
  import opened Preservation

  function MarkedIn(t: Tables, ids: set<nat>, to: Status): Tables
  {
    t.(bookings := Marked(t.bookings, ids, to))
  }

  lemma MarkedNone(t: Tables, batch: seq<nat>, to: Status)
    ensures MarkedIn(t, {}, to) == t
    ensures Ids(batch) + {} == Ids(batch)
  {
    assert Marked(t.bookings, {}, to) == t.bookings;
  }

  /** A window given up by a holding row is free, whichever other rows of the batch have
      been given up with it: the other holding rows never overlapped it. */
  lemma FreedWindowIsFree(bs: seq<Booking>, x: nat, ids: set<nat>, to: Status)
    requires NoDoubleBooking(bs) && x < |bs| && Holding(bs[x]) && x in ids
    requires to == Cancelled || to == NoShow
    ensures !Conflicts(Marked(bs, ids, to), bs[x].facility, bs[x].start, bs[x].end)
  {
    var bs' := Marked(bs, ids, to);
    forall i | 0 <= i < |bs'| && bs'[i].facility == bs[x].facility && Holding(bs'[i])
      ensures !Overlaps(bs'[i].start, bs'[i].end, bs[x].start, bs[x].end)
    {
      if i < x { assert Apart(bs[i], bs[x]); } else { assert Apart(bs[x], bs[i]); }
    }
  }

  lemma IdsLast(batch: seq<nat>)
    requires |batch| > 0 && Distinct(batch)
    ensures var n := |batch| - 1;
            Ids(batch) == Ids(batch[..n]) + {batch[n]} && batch[n] !in Ids(batch[..n]) && Distinct(batch[..n])
  {
    var n := |batch| - 1;
    assert batch == batch[..n] + [batch[n]];
  }

  // ----------------------------------------------------------- waitlist sweep

  function ExpireEach(c: Campus, t: Tables, batch: seq<nat>, now: Instant, locked: Locked): (r: Tables)
    requires InTable(batch, t)
    ensures |r.bookings| >= |t.bookings|
  {
    if |batch| == 0 then t
    else ExpireOne(c, ExpireEach(c, t, batch[..|batch| - 1], now, locked), batch[|batch| - 1], now, locked)
  }

  lemma ExpireCommutes(c: Campus, u: Tables, x: nat, ids: set<nat>, now: Instant, locked: Locked)
    requires NoDoubleBooking(u.bookings) && x < |u.bookings| && Holding(u.bookings[x]) && x !in ids
    requires forall i :: i in ids ==> i < |u.bookings|
    ensures ExpireBody(c, MarkedIn(u, {x} + ids, Cancelled), x, now, locked)
            == MarkedIn(ExpireOne(c, u, x, now, locked), ids, Cancelled)
  {
    FreedWindowIsFree(u.bookings, x, {x} + ids, Cancelled);
    FreedWindowIsFree(u.bookings, x, {x}, Cancelled);
    var whole := ExpireBody(c, MarkedIn(u, {x} + ids, Cancelled), x, now, locked);
    var one := MarkedIn(ExpireOne(c, u, x, now, locked), ids, Cancelled);
    assert whole.bookings == one.bookings;
  }

  /** Handling holds one at a time keeps the invariant and touches no other row. */
  lemma {:induction false} ExpireEachInv(c: Campus, t: Tables, batch: seq<nat>, now: Instant, locked: Locked)
    requires Inv(c, t) && AllDueHolds(t, now, batch)
    ensures var u := ExpireEach(c, t, batch, now, locked);
            Inv(c, u) && forall i: nat :: i < |t.bookings| && i !in Ids(batch) ==> u.bookings[i] == t.bookings[i]
  {
    if |batch| > 0 {
      var n := |batch| - 1;
      IdsLast(batch);
      var x, q := batch[n], batch[..n];
      assert AllDueHolds(t, now, q);
      ExpireEachInv(c, t, q, now, locked);
      var u := ExpireEach(c, t, q, now, locked);
      assert u.bookings[x] == t.bookings[x];
      ExpireOneInv(c, u, x, now, locked);
    }
  }

  /** A pass over part of a marked batch leaves the rest of it marked and unhandled. */
  lemma {:induction false} ExpirePassIsEach(c: Campus, t: Tables, batch: seq<nat>, rest: set<nat>, now: Instant, locked: Locked)
    requires Inv(c, t) && AllDueHolds(t, now, batch)
    requires rest !! Ids(batch) && forall i :: i in rest ==> i < |t.bookings|
    ensures InTable(batch, MarkedIn(t, Ids(batch) + rest, Cancelled))
    ensures ExpirePass(c, MarkedIn(t, Ids(batch) + rest, Cancelled), batch, now, locked)
            == MarkedIn(ExpireEach(c, t, batch, now, locked), rest, Cancelled)
  {
    if |batch| == 0 {
      assert Ids(batch) + rest == rest;
    } else {
      var n := |batch| - 1;
      var x, q := batch[n], batch[..n];
      IdsLast(batch);
      assert Ids(batch) + rest == Ids(q) + ({x} + rest);
      ExpirePassIsEach(c, t, q, {x} + rest, now, locked);
      ExpireEachInv(c, t, q, now, locked);
      var u := ExpireEach(c, t, q, now, locked);
      assert RowOk(c, u.bookings[x]);
      ExpireCommutes(c, u, x, rest, now, locked);
    }
  }

  /** The waitlist sweep is one expiry-and-re-offer after another, and keeps the invariant. */
  lemma SweepHoldsIsOneByOne(c: Campus, t: Tables, batch: seq<nat>, now: Instant, locked: Locked)
    requires Inv(c, t) && AllDueHolds(t, now, batch)
    ensures SweepHolds(c, t, batch, now, locked) == ExpireEach(c, t, batch, now, locked)
    ensures Inv(c, SweepHolds(c, t, batch, now, locked))
  {
    ExpirePassIsEach(c, t, batch, {}, now, locked);
    ExpireEachInv(c, t, batch, now, locked);
    MarkedNone(ExpireEach(c, t, batch, now, locked), batch, Cancelled);
  }

  // ----------------------------------------------------------- check-in sweep

  function CompleteEach(t: Tables, batch: seq<nat>): (r: Tables)
    requires InTable(batch, t)
    ensures |r.bookings| == |t.bookings|
  {
    if |batch| == 0 then t else CompleteOne(CompleteEach(t, batch[..|batch| - 1]), batch[|batch| - 1])
  }

  lemma {:induction false} CompleteEachInv(c: Campus, t: Tables, batch: seq<nat>, now: Instant)
    requires Inv(c, t) && AllDueCompletes(t, now, batch)
    ensures var u := CompleteEach(t, batch);
            && Inv(c, u) && u.checkIns == t.checkIns
            && forall i: nat :: i < |t.bookings| && i !in Ids(batch) ==> u.bookings[i] == t.bookings[i]
  {
    if |batch| > 0 {
      var n := |batch| - 1;
      IdsLast(batch);
      var x, q := batch[n], batch[..n];
      assert AllDueCompletes(t, now, q);
      CompleteEachInv(c, t, q, now);
      var u := CompleteEach(t, q);
      assert u.bookings[x] == t.bookings[x];
      assert DueComplete(t, x, now);
      CompleteOneInv(c, u, x);
    }
  }

  lemma {:induction false} CompletePassIsEach(t: Tables, batch: seq<nat>, rest: set<nat>)
    requires Distinct(batch) && InTable(batch, t)
    ensures CompletePass(MarkedIn(t, Ids(batch) + rest, Completed), batch) == MarkedIn(CompleteEach(t, batch), rest, Completed)
  {
    if |batch| == 0 {
      assert Ids(batch) + rest == rest;
    } else {
      var n := |batch| - 1;
      var x, q := batch[n], batch[..n];
      IdsLast(batch);
      assert Ids(batch) + rest == Ids(q) + ({x} + rest);
      CompletePassIsEach(t, q, {x} + rest);
      var u := CompleteEach(t, q);
      assert Marked(u.bookings, {x} + rest, Completed) == Marked(Marked(u.bookings, {x}, Completed), rest, Completed);
    }
  }

  /** The first half of the check-in sweep, one booking at a time. */
  lemma CompleteIsOneByOne(c: Campus, t: Tables, batch: seq<nat>, now: Instant)
    requires Inv(c, t) && AllDueCompletes(t, now, batch)
    ensures Complete(t, batch) == CompleteEach(t, batch)
    ensures Inv(c, Complete(t, batch))
  {
    CompletePassIsEach(t, batch, {});
    CompleteEachInv(c, t, batch, now);
    MarkedNone(CompleteEach(t, batch), batch, Completed);
  }

  function NoShowEach(c: Campus, t: Tables, batch: seq<nat>, now: Instant, locked: Locked): (r: Tables)
    requires InTable(batch, t) && RowsKnown(c, t)
    ensures |r.bookings| >= |t.bookings|
    ensures forall i :: 0 <= i < |t.bookings| ==> r.bookings[i].facility == t.bookings[i].facility
  {
    if |batch| == 0 then t
    else NoShowOne(c, NoShowEach(c, t, batch[..|batch| - 1], now, locked), batch[|batch| - 1], now, locked)
  }

  lemma NoShowCommutes(c: Campus, u: Tables, x: nat, ids: set<nat>, now: Instant, locked: Locked)
    requires NoDoubleBooking(u.bookings) && x < |u.bookings| && u.bookings[x].status == Confirmed && x !in ids
    requires u.bookings[x].facility in c.facilities
    requires forall i :: i in ids ==> i < |u.bookings|
    ensures NoShowBody(c, MarkedIn(u, {x} + ids, NoShow), x, now, locked)
            == MarkedIn(NoShowOne(c, u, x, now, locked), ids, NoShow)
  {
    if u.bookings[x].exclusive {
      FreedWindowIsFree(u.bookings, x, {x} + ids, NoShow);
      FreedWindowIsFree(u.bookings, x, {x}, NoShow);
    }
    var whole := NoShowBody(c, MarkedIn(u, {x} + ids, NoShow), x, now, locked);
    var one := MarkedIn(NoShowOne(c, u, x, now, locked), ids, NoShow);
    assert whole.bookings == one.bookings;
  }

  /** Everything before the last no-show of the batch has been handled; that one is still due. */
  lemma NoShowStep(c: Campus, t: Tables, u: Tables, x: nat, q: set<nat>, now: Instant, locked: Locked)
    requires ValidCampus(c) && Inv(c, u) && u.checkIns == t.checkIns && |u.bookings| >= |t.bookings|
    requires forall i: nat :: i < |t.bookings| && i !in q ==> u.bookings[i] == t.bookings[i]
    requires x < |t.bookings| && x !in q && t.bookings[x].facility in c.facilities && DueNoShow(t, x, now, c.grace)
    ensures var v := NoShowOne(c, u, x, now, locked);
            && Inv(c, v) && v.checkIns == t.checkIns
            && |v.bookings| >= |t.bookings|
            && forall i: nat :: i < |t.bookings| && i !in q + {x} ==> v.bookings[i] == t.bookings[i]
  {
    NoShowOneInv(c, u, x, now, locked);
    NoShowOneElsewhere(c, u, x, now, locked);
  }

  lemma NoShowOneElsewhere(c: Campus, u: Tables, x: nat, now: Instant, locked: Locked)
    requires x < |u.bookings| && u.bookings[x].facility in c.facilities
    ensures var v := NoShowOne(c, u, x, now, locked);
            v.checkIns == u.checkIns && |v.bookings| >= |u.bookings|
            && forall i: nat :: i < |u.bookings| && i != x ==> v.bookings[i] == u.bookings[i]
  {
  }

  lemma DueButLast(c: Campus, t: Tables, batch: seq<nat>, now: Instant)
    requires AllDueNoShows(t, now, c.grace, batch) && |batch| > 0
    ensures AllDueNoShows(t, now, c.grace, batch[..|batch| - 1])
    ensures DueNoShow(t, batch[|batch| - 1], now, c.grace)
  {
  }

  lemma {:induction false} NoShowEachInv(c: Campus, t: Tables, batch: seq<nat>, now: Instant, locked: Locked)
    requires ValidCampus(c) && Inv(c, t) && RowsKnown(c, t) && AllDueNoShows(t, now, c.grace, batch)
    ensures var u := NoShowEach(c, t, batch, now, locked);
            && Inv(c, u) && u.checkIns == t.checkIns
            && forall i: nat :: i < |t.bookings| && i !in Ids(batch) ==> u.bookings[i] == t.bookings[i]
  {
    if |batch| > 0 {
      var n := |batch| - 1;
      IdsLast(batch);
      DueButLast(c, t, batch, now);
      NoShowEachInv(c, t, batch[..n], now, locked);
      NoShowStep(c, t, NoShowEach(c, t, batch[..n], now, locked), batch[n], Ids(batch[..n]), now, locked);
    }
  }

  lemma {:induction false} NoShowPassIsEach(c: Campus, t: Tables, batch: seq<nat>, rest: set<nat>, now: Instant, locked: Locked)
    requires ValidCampus(c) && Inv(c, t) && RowsKnown(c, t) && AllDueNoShows(t, now, c.grace, batch)
    requires rest !! Ids(batch) && forall i :: i in rest ==> i < |t.bookings|
    ensures InTable(batch, MarkedIn(t, Ids(batch) + rest, NoShow)) && RowsKnown(c, MarkedIn(t, Ids(batch) + rest, NoShow))
    ensures NoShowPass(c, MarkedIn(t, Ids(batch) + rest, NoShow), batch, now, locked)
            == MarkedIn(NoShowEach(c, t, batch, now, locked), rest, NoShow)
  {
    if |batch| == 0 {
      assert Ids(batch) + rest == rest;
    } else {
      var n := |batch| - 1;
      var x, q := batch[n], batch[..n];
      IdsLast(batch);
      assert Ids(batch) + rest == Ids(q) + ({x} + rest);
      NoShowPassIsEach(c, t, q, {x} + rest, now, locked);
      NoShowEachInv(c, t, q, now, locked);
      NoShowCommutes(c, NoShowEach(c, t, q, now, locked), x, rest, now, locked);
    }
  }

  /** The second half of the check-in sweep, one booking at a time. */
  lemma ReleaseNoShowsIsOneByOne(c: Campus, t: Tables, batch: seq<nat>, now: Instant, locked: Locked)
    requires ValidCampus(c) && Inv(c, t) && RowsKnown(c, t) && AllDueNoShows(t, now, c.grace, batch)
    ensures ReleaseNoShows(c, t, batch, now, locked) == NoShowEach(c, t, batch, now, locked)
    ensures Inv(c, ReleaseNoShows(c, t, batch, now, locked))
  {
    NoShowPassIsEach(c, t, batch, {}, now, locked);
    NoShowEachInv(c, t, batch, now, locked);
    MarkedNone(NoShowEach(c, t, batch, now, locked), batch, NoShow);
  }
}
