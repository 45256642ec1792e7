/** The last outbox row about a freed window, against what the tables say: the sweeps
    write the release before the offer, Cancel writes it after. */
module Announcements {
  import opened Model
  import opened Statements
  import opened Transitions
  import opened Invariants
  import opened Preservation
  import opened Batches

  datatype GridState = StateFree | StateHeld | StateBooked | StateClosed

  /** live.StateFor. */
  function StateFor(topic: Topic): GridState
  {
    match topic
    case BookingConfirmed => StateBooked
    case WaitlistPromoted => StateHeld
    case BookingCancelled => StateFree
    case WaitlistExpired => StateFree
    case BookingNoShow => StateFree
    case ClosureCreated => StateClosed
  }

  /** The topic of the last outbox row about this facility and start. */
  function LastTopic(outbox: seq<Message>, f: FacilityId, start: Instant): Option<Topic>
  {
    if |outbox| == 0 then None
    else
      var m := outbox[|outbox| - 1];
      if m.facility == f && m.start == start then Some(m.topic) else LastTopic(outbox[..|outbox| - 1], f, start)
  }

  ghost predicate RowOver(bs: seq<Booking>, status: Status, f: FacilityId, start: Instant, end: Instant)
  {
    exists i :: 0 <= i < |bs| && bs[i].exclusive && bs[i].status == status && bs[i].facility == f
                && Overlaps(bs[i].start, bs[i].end, start, end)
  }

  /** The state the campus query derives for a window of an exclusive facility. */
  ghost function WindowState(bs: seq<Booking>, f: FacilityId, start: Instant, end: Instant): GridState
  {
    if RowOver(bs, Blocked, f, start, end) then StateClosed
    else if RowOver(bs, Confirmed, f, start, end) then StateBooked
    else if RowOver(bs, Held, f, start, end) then StateHeld
    else StateFree
  }

  /** The last outbox row about the window maps to its true state. */
  ghost predicate AnnouncedTruly(t: Tables, f: FacilityId, start: Instant, end: Instant)
  {
    var last := LastTopic(t.outbox, f, start);
    last.Some? && StateFor(last.value) == WindowState(t.bookings, f, start, end)
  }

  lemma LastTopicAppend(outbox: seq<Message>, m: Message, f: FacilityId, start: Instant)
    ensures LastTopic(outbox + [m], f, start) ==
            if m.facility == f && m.start == start then Some(m.topic) else LastTopic(outbox, f, start)
  {
    assert (outbox + [m])[..|outbox|] == outbox;
  }

  // ------------------------------------------------- giving up one window

  /** From u to v, booking y gives up its window: written first, then perhaps re-held. */
  ghost predicate FreeStep(u: Tables, v: Tables, y: nat, to: Status, topic: Topic)
    requires y < |u.bookings|
  {
    var b, n := u.bookings[y], |u.bookings|;
    var note := u.outbox + [Message(topic, y, b.facility, b.start, b.end)];
    || (v.bookings == Marked(u.bookings, {y}, to) && v.outbox == note)
    || (&& b.exclusive && |v.bookings| == n + 1
        && v.bookings == Marked(u.bookings, {y}, to) + [v.bookings[n]]
        && v.outbox == note + [Message(WaitlistPromoted, n, b.facility, b.start, b.end)]
        && var row := v.bookings[n];
           row.exclusive && row.status == Held && row.facility == b.facility && row.start == b.start && row.end == b.end)
  }

  ghost predicate WindowReleased(to: Status, topic: Topic)
  {
    (to == Cancelled || to == NoShow) && (topic == WaitlistExpired || topic == BookingNoShow || topic == BookingCancelled)
  }

  lemma NoRowOver(bs: seq<Booking>, f: FacilityId, start: Instant, end: Instant)
    requires !Conflicts(bs, f, start, end)
    ensures WindowState(bs, f, start, end) == StateFree
  {
    if RowOver(bs, Blocked, f, start, end) { assert false; }
    if RowOver(bs, Confirmed, f, start, end) { assert false; }
    if RowOver(bs, Held, f, start, end) { assert false; }
  }

  lemma RowOverAppend(bs: seq<Booking>, row: Booking, status: Status, f: FacilityId, start: Instant, end: Instant)
    ensures RowOver(bs + [row], status, f, start, end) ==
            (RowOver(bs, status, f, start, end)
             || (row.exclusive && row.status == status && row.facility == f && Overlaps(row.start, row.end, start, end)))
  {
    var bs' := bs + [row];
    if RowOver(bs, status, f, start, end) {
      var i :| 0 <= i < |bs| && bs[i].exclusive && bs[i].status == status && bs[i].facility == f && Overlaps(bs[i].start, bs[i].end, start, end);
      assert bs'[i] == bs[i];
    }
    if row.exclusive && row.status == status && row.facility == f && Overlaps(row.start, row.end, start, end) {
      assert bs'[|bs|] == row;
    }
  }

  lemma RowOverElsewhere(bs: seq<Booking>, y: nat, to: Status, status: Status, f: FacilityId, start: Instant, end: Instant)
    requires y < |bs| && (bs[y].facility == f && bs[y].exclusive ==> !Overlaps(bs[y].start, bs[y].end, start, end))
    ensures RowOver(Marked(bs, {y}, to), status, f, start, end) <==> RowOver(bs, status, f, start, end)
  {
    var bs' := Marked(bs, {y}, to);
    if RowOver(bs, status, f, start, end) {
      var i :| 0 <= i < |bs| && bs[i].exclusive && bs[i].status == status && bs[i].facility == f && Overlaps(bs[i].start, bs[i].end, start, end);
      assert bs'[i] == bs[i];
    }
    if RowOver(bs', status, f, start, end) {
      var i :| 0 <= i < |bs'| && bs'[i].exclusive && bs'[i].status == status && bs'[i].facility == f && Overlaps(bs'[i].start, bs'[i].end, start, end);
      assert bs'[i] == bs[i];
    }
  }

  lemma FreeStepHere(u: Tables, v: Tables, y: nat, to: Status, topic: Topic)
    requires y < |u.bookings| && NoDoubleBooking(u.bookings) && Holding(u.bookings[y]) && u.bookings[y].start < u.bookings[y].end
    requires WindowReleased(to, topic) && FreeStep(u, v, y, to, topic)
    ensures AnnouncedTruly(v, u.bookings[y].facility, u.bookings[y].start, u.bookings[y].end)
  {
    var b := u.bookings[y];
    var freed := Marked(u.bookings, {y}, to);
    var m := Message(topic, y, b.facility, b.start, b.end);
    FreedWindowIsFree(u.bookings, y, {y}, to);
    NoRowOver(freed, b.facility, b.start, b.end);
    LastTopicAppend(u.outbox, m, b.facility, b.start);
    if v.bookings != freed {
      var row := v.bookings[|u.bookings|];
      LastTopicAppend(u.outbox + [m], Message(WaitlistPromoted, |u.bookings|, b.facility, b.start, b.end), b.facility, b.start);
      RowOverAppend(freed, row, Blocked, b.facility, b.start, b.end);
      RowOverAppend(freed, row, Confirmed, b.facility, b.start, b.end);
      RowOverAppend(freed, row, Held, b.facility, b.start, b.end);
    }
  }

  lemma FreeStepElsewhere(u: Tables, v: Tables, y: nat, to: Status, topic: Topic, f: FacilityId, start: Instant, end: Instant)
    requires y < |u.bookings| && FreeStep(u, v, y, to, topic) && start < end && u.bookings[y].start < u.bookings[y].end
    requires u.bookings[y].facility == f ==> !Overlaps(u.bookings[y].start, u.bookings[y].end, start, end)
    requires AnnouncedTruly(u, f, start, end)
    ensures AnnouncedTruly(v, f, start, end)
  {
    var b := u.bookings[y];
    var freed := Marked(u.bookings, {y}, to);
    var m := Message(topic, y, b.facility, b.start, b.end);
    LastTopicAppend(u.outbox, m, f, start);
    LastTopicAppend(u.outbox + [m], Message(WaitlistPromoted, |u.bookings|, b.facility, b.start, b.end), f, start);
    RowOverElsewhere(u.bookings, y, to, Blocked, f, start, end);
    RowOverElsewhere(u.bookings, y, to, Confirmed, f, start, end);
    RowOverElsewhere(u.bookings, y, to, Held, f, start, end);
    if v.bookings != freed {
      var row := v.bookings[|u.bookings|];
      RowOverAppend(freed, row, Blocked, f, start, end);
      RowOverAppend(freed, row, Confirmed, f, start, end);
      RowOverAppend(freed, row, Held, f, start, end);
    }
  }

  lemma HoldingApart(c: Campus, t: Tables, x: nat, y: nat)
    requires Inv(c, t) && x < |t.bookings| && y < |t.bookings| && x != y && Holding(t.bookings[x]) && Holding(t.bookings[y])
    ensures t.bookings[x].start < t.bookings[x].end && t.bookings[y].start < t.bookings[y].end
    ensures t.bookings[x].facility == t.bookings[y].facility ==>
              !Overlaps(t.bookings[x].start, t.bookings[x].end, t.bookings[y].start, t.bookings[y].end)
  {
    assert RowOk(c, t.bookings[x]) && RowOk(c, t.bookings[y]);
    if x < y { assert Apart(t.bookings[x], t.bookings[y]); } else { assert Apart(t.bookings[y], t.bookings[x]); }
  }

  // ----------------------------------------------------------- the two sweeps

  lemma ExpireOneFrees(c: Campus, u: Tables, y: nat, now: Instant, locked: Locked)
    requires Inv(c, u) && y < |u.bookings| && u.bookings[y].status == Held
    ensures FreeStep(u, ExpireOne(c, u, y, now, locked), y, Cancelled, WaitlistExpired)
  {
    assert RowOk(c, u.bookings[y]);
  }

  lemma NoShowOneFrees(c: Campus, u: Tables, y: nat, now: Instant, locked: Locked)
    requires Inv(c, u) && y < |u.bookings| && u.bookings[y].facility in c.facilities
    ensures FreeStep(u, NoShowOne(c, u, y, now, locked), y, NoShow, BookingNoShow)
  {
  }

  lemma {:induction false} ExpireEachAnnounces(c: Campus, t: Tables, batch: seq<nat>, now: Instant, locked: Locked)
    requires Inv(c, t) && AllDueHolds(t, now, batch)
    ensures forall k :: 0 <= k < |batch| ==>
              var b := t.bookings[batch[k]];
              AnnouncedTruly(ExpireEach(c, t, batch, now, locked), b.facility, b.start, b.end)
  {
    if |batch| > 0 {
      var n := |batch| - 1;
      var x, q := batch[n], batch[..n];
      IdsLast(batch);
      assert AllDueHolds(t, now, q);
      ExpireEachAnnounces(c, t, q, now, locked);
      ExpireEachInv(c, t, q, now, locked);
      var u := ExpireEach(c, t, q, now, locked);
      assert u.bookings[x] == t.bookings[x];
      assert RowOk(c, u.bookings[x]);
      ExpireOneFrees(c, u, x, now, locked);
      FreeStepHere(u, ExpireOne(c, u, x, now, locked), x, Cancelled, WaitlistExpired);
      forall k | 0 <= k < n
        ensures var b := t.bookings[batch[k]];
                AnnouncedTruly(ExpireOne(c, u, x, now, locked), b.facility, b.start, b.end)
      {
        var y := batch[k];
        assert q[k] == y;
        assert RowOk(c, t.bookings[y]) && RowOk(c, t.bookings[x]);
        HoldingApart(c, t, y, x);
        FreeStepElsewhere(u, ExpireOne(c, u, x, now, locked), x, Cancelled, WaitlistExpired,
                          t.bookings[y].facility, t.bookings[y].start, t.bookings[y].end);
      }
    }
  }

  /** After a waitlist sweep, the last outbox row about every reclaimed window is true. */
  lemma SweepHoldsAnnounces(c: Campus, t: Tables, batch: seq<nat>, now: Instant, locked: Locked)
    requires Inv(c, t) && AllDueHolds(t, now, batch)
    ensures forall k :: 0 <= k < |batch| ==>
              var b := t.bookings[batch[k]];
              AnnouncedTruly(SweepHolds(c, t, batch, now, locked), b.facility, b.start, b.end)
  {
    SweepHoldsIsOneByOne(c, t, batch, now, locked);
    ExpireEachAnnounces(c, t, batch, now, locked);
  }

  lemma {:induction false} NoShowEachAnnounces(c: Campus, t: Tables, batch: seq<nat>, now: Instant, locked: Locked)
    requires ValidCampus(c) && Inv(c, t) && RowsKnown(c, t) && AllDueNoShows(t, now, c.grace, batch)
    ensures forall k :: 0 <= k < |batch| && t.bookings[batch[k]].exclusive ==>
              var b := t.bookings[batch[k]];
              AnnouncedTruly(NoShowEach(c, t, batch, now, locked), b.facility, b.start, b.end)
  {
    if |batch| > 0 {
      var n := |batch| - 1;
      var x, q := batch[n], batch[..n];
      IdsLast(batch);
      assert AllDueNoShows(t, now, c.grace, q);
      NoShowEachAnnounces(c, t, q, now, locked);
      NoShowEachInv(c, t, q, now, locked);
      var u := NoShowEach(c, t, q, now, locked);
      assert u.bookings[x] == t.bookings[x] && DueNoShow(t, x, now, c.grace);
      assert RowOk(c, u.bookings[x]);
      NoShowOneFrees(c, u, x, now, locked);
      if t.bookings[x].exclusive {
        FreeStepHere(u, NoShowOne(c, u, x, now, locked), x, NoShow, BookingNoShow);
      }
      forall k | 0 <= k < n && t.bookings[batch[k]].exclusive
        ensures var b := t.bookings[batch[k]];
                AnnouncedTruly(NoShowOne(c, u, x, now, locked), b.facility, b.start, b.end)
      {
        var y := batch[k];
        assert q[k] == y && DueNoShow(t, y, now, c.grace);
        assert RowOk(c, t.bookings[y]) && RowOk(c, t.bookings[x]);
        if t.bookings[x].exclusive { HoldingApart(c, t, y, x); }
        FreeStepElsewhere(u, NoShowOne(c, u, x, now, locked), x, NoShow, BookingNoShow,
                          t.bookings[y].facility, t.bookings[y].start, t.bookings[y].end);
      }
    }
  }

  /** After a check-in sweep, the last outbox row about every released exclusive window is true. */
  lemma ReleaseNoShowsAnnounces(c: Campus, t: Tables, batch: seq<nat>, now: Instant, locked: Locked)
    requires ValidCampus(c) && Inv(c, t) && RowsKnown(c, t) && AllDueNoShows(t, now, c.grace, batch)
    ensures forall k :: 0 <= k < |batch| && t.bookings[batch[k]].exclusive ==>
              var b := t.bookings[batch[k]];
              AnnouncedTruly(ReleaseNoShows(c, t, batch, now, locked), b.facility, b.start, b.end)
  {
    ReleaseNoShowsIsOneByOne(c, t, batch, now, locked);
    NoShowEachAnnounces(c, t, batch, now, locked);
  }

  // -------------------------------------------------------------------- cancel

  /** Somebody unlocked is queueing for the window of booking i. */
  ghost predicate SomebodyWaits(t: Tables, i: nat, locked: Locked)
    requires i < |t.bookings|
  {
    SomebodyQueues(t, t.bookings[i].facility, t.bookings[i].start, t.bookings[i].end, locked)
  }

  lemma CancelShape(c: Campus, t: Tables, i: nat, actor: UserId, manager: bool, now: Instant, locked: Locked)
    requires Inv(c, t) && i < |t.bookings| && t.bookings[i].facility in c.facilities && t.bookings[i].exclusive
    requires Cancel(c, t, i, actor, manager, now, locked).outcome == Done(i)
    ensures Holding(t.bookings[i]) && t.bookings[i].start < t.bookings[i].end
    ensures CancelLeaves(c, t, i, locked, Cancel(c, t, i, actor, manager, now, locked).tables)
  {
    assert RowOk(c, t.bookings[i]);
    FreedWindowIsFree(t.bookings, i, {i}, Cancelled);
    CancelOffers(c, t, i, actor, manager, now, locked);
  }

  /** The bookings and the last message after booking i was cancelled. */
  ghost predicate CancelLeaves(c: Campus, t: Tables, i: nat, locked: Locked, u: Tables)
    requires i < |t.bookings|
  {
    var b := t.bookings[i];
    && |u.outbox| > 0 && u.outbox[|u.outbox| - 1] == Message(BookingCancelled, i, b.facility, b.start, b.end)
    && (if c.promoting && SomebodyWaits(t, i, locked) then
          exists row: Booking :: row.exclusive && row.status == Held && row.facility == b.facility
            && row.start == b.start && row.end == b.end && u.bookings == Marked(t.bookings, {i}, Cancelled) + [row]
        else u.bookings == Marked(t.bookings, {i}, Cancelled))
  }

  lemma CancelOffers(c: Campus, t: Tables, i: nat, actor: UserId, manager: bool, now: Instant, locked: Locked)
    requires i < |t.bookings| && t.bookings[i].facility in c.facilities && t.bookings[i].exclusive
    requires HeldCheck(t.bookings[i]) && Cancel(c, t, i, actor, manager, now, locked).outcome == Done(i)
    requires !Conflicts(Marked(t.bookings, {i}, Cancelled), t.bookings[i].facility, t.bookings[i].start, t.bookings[i].end)
    ensures CancelLeaves(c, t, i, locked, Cancel(c, t, i, actor, manager, now, locked).tables)
  {
    var b := t.bookings[i];
    var u := Cancel(c, t, i, actor, manager, now, locked).tables;
    var freed := Logged(t.(bookings := Marked(t.bookings, {i}, Cancelled)), i, Confirmed, Cancelled);
    CancelDone(c, t, i, actor, manager, now, locked);
    if c.promoting {
      var row := PromoteOffers(c, freed, b.facility, b.start, b.end, now, locked);
      assert SomebodyWaits(t, i, locked) <==> SomebodyQueues(freed, b.facility, b.start, b.end, locked);
    }
  }

  ghost predicate SomebodyQueues(t: Tables, f: FacilityId, start: Instant, end: Instant, locked: Locked)
  {
    exists w :: 0 <= w < |t.waitlist| && w !in locked.entries && Eligible(t.waitlist[w], f, start, end)
  }

  /** On a free window, a promotion makes an offer exactly when somebody unlocked queues for it. */
  lemma PromoteOffers(c: Campus, t: Tables, f: FacilityId, start: Instant, end: Instant, now: Instant, locked: Locked) returns (row: Booking)
    requires !Conflicts(t.bookings, f, start, end)
    ensures row.exclusive && row.status == Held && row.facility == f && row.start == start && row.end == end
    ensures Promote(c, t, f, start, end, now, locked).bookings
            == if SomebodyQueues(t, f, start, end, locked) then t.bookings + [row] else t.bookings
  {
    ClaimHeadIsHead(t.waitlist, f, start, end, locked.entries);
    var w := ClaimHead(t.waitlist, f, start, end, locked.entries);
    row := HeldRow(c, f, if w.Some? then t.waitlist[w.value].user else NIL_USER, start, end, now);
  }

  /** "free" is written last: true of a free window, false of one held again. */
  lemma FreeAnnounced(u: Tables, f: FacilityId, start: Instant, end: Instant, freed: seq<Booking>, row: Booking)
    requires |u.outbox| > 0 && start < end && !Conflicts(freed, f, start, end)
    requires var m := u.outbox[|u.outbox| - 1]; m.topic == BookingCancelled && m.facility == f && m.start == start
    requires u.bookings == freed ||
             (u.bookings == freed + [row] && row.exclusive && row.status == Held && row.facility == f && row.start == start && row.end == end)
    ensures AnnouncedTruly(u, f, start, end) <==> u.bookings == freed
  {
    NoRowOver(freed, f, start, end);
    if u.bookings != freed {
      RowOverAppend(freed, row, Held, f, start, end);
    }
  }

  /** Cancel enqueues its own row after the promotion, so its last outbox row about an
      exclusive window is true exactly when the window was not offered on. */
  lemma CancelAnnounces(c: Campus, t: Tables, i: nat, actor: UserId, manager: bool, now: Instant, locked: Locked)
    requires Inv(c, t) && i < |t.bookings| && t.bookings[i].facility in c.facilities && t.bookings[i].exclusive
    requires Cancel(c, t, i, actor, manager, now, locked).outcome == Done(i)
    ensures var b := t.bookings[i];
            AnnouncedTruly(Cancel(c, t, i, actor, manager, now, locked).tables, b.facility, b.start, b.end)
            <==> !(c.promoting && SomebodyWaits(t, i, locked))
  {
    var b := t.bookings[i];
    var u := Cancel(c, t, i, actor, manager, now, locked).tables;
    var freed := Marked(t.bookings, {i}, Cancelled);
    CancelShape(c, t, i, actor, manager, now, locked);
    FreedWindowIsFree(t.bookings, i, {i}, Cancelled);
    if c.promoting && SomebodyWaits(t, i, locked) {
      var row: Booking :| row.exclusive && row.status == Held && row.facility == b.facility
        && row.start == b.start && row.end == b.end && u.bookings == freed + [row];
      FreeAnnounced(u, b.facility, b.start, b.end, freed, row);
    } else {
      FreeAnnounced(u, b.facility, b.start, b.end, freed, b);
    }
  }
}
