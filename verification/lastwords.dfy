/** After each of the other calls, too, the last outbox row about the window it touched maps to
    the window's true state. */
module LastWords {
  import opened Model
  import opened Statements
  import opened Transitions
  import opened Invariants
  import opened Batches
  import opened Preservation
  import opened Announcements
  import opened Outcomes
  import opened Grid
  import opened Runs

  /** A row appended over a free window decides the window's state. */
  lemma AppendedDecides(bs: seq<Booking>, row: Booking, f: FacilityId, start: Instant, end: Instant)
    requires !Conflicts(bs, f, start, end) && start < end
    requires row.exclusive && row.facility == f && row.start == start && row.end == end
    requires row.status == Confirmed || row.status == Held || row.status == Blocked
    ensures WindowState(bs + [row], f, start, end)
            == match row.status { case Confirmed => StateBooked case Held => StateHeld case _ => StateClosed }
  {
    NoRowOver(bs, f, start, end);
    RowOverAppend(bs, row, Blocked, f, start, end);
    RowOverAppend(bs, row, Confirmed, f, start, end);
    RowOverAppend(bs, row, Held, f, start, end);
  }

  /** After a booking on a court is created the last row about it says "booked". */
  lemma CreateAnnounces(c: Campus, t: Tables, r: Request, now: Instant, ks: seq<Conditions>)
    requires ValidCampus(c) && Create(c, t, r, now, ks).outcome.Created?
    requires r.facility in c.facilities && c.facilities[r.facility].exclusive
    ensures AnnouncedTruly(Create(c, t, r, now, ks).tables, r.facility, r.start, r.start + r.duration)
    ensures WindowState(Create(c, t, r, now, ks).tables.bookings, r.facility, r.start, r.start + r.duration) == StateBooked
  {
    CreateExact(c, t, r, now, ks);
    CreateEffect(c, t, r, now, ks);
    CreatedOverFree(c, t, r, now, ks);
    var u := Create(c, t, r, now, ks).tables;
    AppendedDecides(t.bookings, u.bookings[|t.bookings|], r.facility, r.start, r.start + r.duration);
    assert u.bookings == t.bookings + [u.bookings[|t.bookings|]];
  }

  lemma CreatedOverFree(c: Campus, t: Tables, r: Request, now: Instant, ks: seq<Conditions>)
    requires ValidCampus(c) && Create(c, t, r, now, ks).outcome.Created?
    requires r.facility in c.facilities && c.facilities[r.facility].exclusive
    ensures !Conflicts(t.bookings, r.facility, r.start, r.start + r.duration) && r.duration > 0
  {
    CreateExact(c, t, r, now, ks);
    ValidateExact(c.facilities[r.facility], c.zone, r.user, r.start, r.duration, now);
    if Deciding(ks).None? {
      UndecidedAttempts(c.facilities[r.facility], t, r, ks);
    } else {
      NotBoth(ks);
      AttemptsDecided(c.facilities[r.facility], t, r, ks);
      AttemptExact(c, t, r, now, Deciding(ks).value);
    }
    ConflictsAreHeld(t, r);
  }

  /** After a court is closed it says "closed". */
  lemma ClosureAnnounces(c: Campus, t: Tables, f: FacilityId, actor: UserId, start: Instant, end: Instant)
    requires CreateClosure(c, t, f, actor, start, end).outcome.Created? && f in c.facilities && c.facilities[f].exclusive
    ensures AnnouncedTruly(CreateClosure(c, t, f, actor, start, end).tables, f, start, end)
    ensures WindowState(CreateClosure(c, t, f, actor, start, end).tables.bookings, f, start, end) == StateClosed
  {
    CreateClosureExact(c, t, f, actor, start, end);
    ClosureEffect(c, t, f, actor, start, end);
    assert !Conflicts(t.bookings, f, start, end);
    var u := CreateClosure(c, t, f, actor, start, end).tables;
    AppendedDecides(t.bookings, u.bookings[|t.bookings|], f, start, end);
    assert u.bookings == t.bookings + [u.bookings[|t.bookings|]];
  }

  /** Around a holding row there is no other. */
  lemma OnlyRowOver(bs: seq<Booking>, i: nat, status: Status)
    requires NoDoubleBooking(bs) && i < |bs| && Holding(bs[i]) && bs[i].start < bs[i].end
    requires status == Confirmed || status == Held || status == Blocked
    ensures RowOver(bs, status, bs[i].facility, bs[i].start, bs[i].end) <==> bs[i].status == status
  {
    if k :| 0 <= k < |bs| && bs[k].exclusive && bs[k].status == status && bs[k].facility == bs[i].facility
            && Overlaps(bs[k].start, bs[k].end, bs[i].start, bs[i].end) {
      if k < i { assert Apart(bs[k], bs[i]); }
      if i < k { assert Apart(bs[i], bs[k]); }
    }
  }

  /** After an offer is claimed the last row about the window says "booked". */
  lemma ClaimAnnounces(c: Campus, t: Tables, i: nat, actor: UserId, now: Instant)
    requires Inv(c, t) && i < |t.bookings| && Claim(t, i, actor, now).outcome == Done(i)
    ensures var b := t.bookings[i];
            AnnouncedTruly(Claim(t, i, actor, now).tables, b.facility, b.start, b.end)
            && WindowState(Claim(t, i, actor, now).tables.bookings, b.facility, b.start, b.end) == StateBooked
  {
    ClaimInv(c, t, i, actor, now);
    ClaimExact(t, i, actor, now);
    var u := Claim(t, i, actor, now).tables;
    assert RowOk(c, t.bookings[i]);
    OnlyRowOver(u.bookings, i, Confirmed);
    OnlyRowOver(u.bookings, i, Blocked);
  }

  /** After a court is reopened it says "free". */
  lemma ReopenAnnounces(c: Campus, t: Tables, i: nat, actor: UserId)
    requires Inv(c, t) && i < |t.bookings| && t.bookings[i].facility in c.facilities && t.bookings[i].exclusive
    requires Reopen(c, t, i, actor).outcome == Done(i)
    ensures var b := t.bookings[i];
            AnnouncedTruly(Reopen(c, t, i, actor).tables, b.facility, b.start, b.end)
            && WindowState(Reopen(c, t, i, actor).tables.bookings, b.facility, b.start, b.end) == StateFree
  {
    var b := t.bookings[i];
    assert RowOk(c, b);
    FreedWindowIsFree(t.bookings, i, {i}, Cancelled);
    NoRowOver(Marked(t.bookings, {i}, Cancelled), b.facility, b.start, b.end);
  }
}
