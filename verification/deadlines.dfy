/** The two deadlines of a booking: the claim window of an offer and the check-in window.
    On each side of a deadline exactly one of two operations can act. */
module Deadlines {
  import opened Model
  import opened Statements
  import opened Transitions
  import opened Invariants
  import opened Batches
  import opened Runs

  /** The tables a promotion of a free window leaves, when somebody unlocked queues for it. */
  ghost predicate OffersTo(t: Tables, f: FacilityId, start: Instant, end: Instant, locked: Locked, w: nat)
  {
    w < |t.waitlist| && IsHead(t.waitlist, f, start, end, locked.entries, w)
  }

  /** An offer goes to the head of the queue, and from then on, for as long as nobody touches
      its row, that student can claim it at exactly the instants before made + ttl, and the
      waitlist sweep can expire it at exactly the others. */
  lemma OfferLastsItsTtl(c: Campus, t: Tables, f: FacilityId, start: Instant, end: Instant, made: Instant, locked: Locked, w: nat, later: Tables, now: Instant)
    requires OffersTo(t, f, start, end, locked, w) && !Conflicts(t.bookings, f, start, end)
    requires var i, u := |t.bookings|, Promote(c, t, f, start, end, made, locked);
             |u.bookings| == i + 1 ==> i < |later.bookings| && later.bookings[i] == u.bookings[i]
    requires t.waitlist[w].user != NIL_USER
    ensures var i, u := |t.bookings|, Promote(c, t, f, start, end, made, locked);
            var user := t.waitlist[w].user;
            && |u.bookings| == i + 1 && u.waitlist == t.waitlist[w := t.waitlist[w].(status := Promoted, booking := Some(i))]
            && (Claim(later, i, user, now).outcome == Done(i) <==> now < made + c.ttl)
            && (DueHold(later.bookings[i], now) <==> made + c.ttl <= now)
  {
    ClaimHeadIsHead(t.waitlist, f, start, end, locked.entries);
    var v := ClaimHead(t.waitlist, f, start, end, locked.entries).value;
    HeadIsOne(t.waitlist, f, start, end, locked.entries, v, w);
  }

  lemma HeadIsOne(entries: seq<Entry>, f: FacilityId, start: Instant, end: Instant, locked: set<nat>, v: nat, w: nat)
    requires IsHead(entries, f, start, end, locked, v) && IsHead(entries, f, start, end, locked, w)
    ensures v == w
  {
  }

  /** In every reachable state a hold is, at every instant, either claimable by its student or
      due for the sweep, and never both. */
  lemma ClaimOrExpire(c: Campus, t: Tables, i: nat, user: UserId, now: Instant)
    requires ValidCampus(c) && Reachable(c, t) && i < |t.bookings| && t.bookings[i].status == Held
    requires t.bookings[i].user == Some(user) && user != NIL_USER
    ensures Claim(t, i, user, now).outcome == Done(i) <==> !DueHold(t.bookings[i], now)
  {
    ReachableInv(c, t);
    assert RowOk(c, t.bookings[i]);
  }

  /** Whoever comes first ends the hold: after a claim no sweep takes it at any instant, and
      after a sweep that took it no claim succeeds at any instant. */
  lemma HoldEndsOnce(c: Campus, t: Tables, i: nat, user: UserId, now: Instant, later: Instant, locked: Locked, batch: seq<nat>)
    requires ValidCampus(c) && Reachable(c, t) && i < |t.bookings| && t.bookings[i].status == Held
    requires AllDueHolds(t, now, batch)
    ensures Claim(t, i, user, now).outcome == Done(i) ==> !DueHold(Claim(t, i, user, now).tables.bookings[i], later)
    ensures i in batch ==> i < |SweepHolds(c, t, batch, now, locked).bookings|
    ensures i in batch ==> Claim(SweepHolds(c, t, batch, now, locked), i, user, later).tables == SweepHolds(c, t, batch, now, locked)
  {
    if i in batch {
      var marked := t.(bookings := Marked(t.bookings, Ids(batch), Cancelled));
      assert marked.bookings <= SweepHolds(c, t, batch, now, locked).bookings;
      assert SweepHolds(c, t, batch, now, locked).bookings[i].status == Cancelled;
    }
  }

  /** From the opening of its check-in window on, a confirmed booking that nobody checked into
      is at every instant either redeemable by its owner or due as a no-show, never both. */
  lemma RedeemOrNoShow(c: Campus, t: Tables, i: nat, user: UserId, now: Instant)
    requires i < |t.bookings| && t.bookings[i].status == Confirmed && i !in t.checkIns
    requires t.bookings[i].user == Some(user) && user != NIL_USER && t.bookings[i].start - c.early <= now
    ensures Redeem(c, t, i, user, true, now).outcome == Done(i) <==> !DueNoShow(t, i, now, c.grace)
  {
  }

  /** Once its slot and its grace have passed, a confirmed booking is due for exactly one of
      the two halves of the check-in sweep: completed if attended, released if not. */
  lemma EveryBookingResolves(c: Campus, t: Tables, i: nat, now: Instant)
    requires i < |t.bookings| && t.bookings[i].status == Confirmed
    requires t.bookings[i].end <= now && t.bookings[i].start + c.grace < now
    ensures DueComplete(t, i, now) <==> i in t.checkIns
    ensures DueNoShow(t, i, now, c.grace) <==> !DueComplete(t, i, now)
  {
  }

  /** Over a run, a booking that was checked into is never a no-show afterwards, and a booking
      is completed only if it was checked into. */
  lemma AttendedIsNeverNoShow(c: Campus, states: seq<Tables>, acts: seq<Act>, j: nat, k: nat, i: nat)
    requires ValidCampus(c) && Run(c, states, acts) && j <= k <= |acts| && i < |states[k].bookings|
    ensures i in states[j].checkIns ==> states[k].bookings[i].status != NoShow
    ensures states[k].bookings[i].status == Completed ==> i in states[k].checkIns
  {
    RunExtends(c, states, acts, j, k);
    RunInv(c, states, acts, k);
  }
}
