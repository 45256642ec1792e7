/** What each call answers, exactly when, and what it then has changed: in terms of the rows,
    the arguments and the clock. */
module Outcomes {
  import opened Model
  import opened Grid
  import opened Statements
  import opened Transitions
  import opened Invariants
  import opened CounterLemmas
  import opened Preservation
  import opened Runs

  // ------------------------------------------------------------------ check-in

  /** A check-in is answered Done exactly when the owner of a CONFIRMED booking presents a valid
      token inside the window, for the first time; and then it is recorded. */
  lemma RedeemExact(c: Campus, t: Tables, i: nat, actor: UserId, tokenValid: bool, now: Instant)
    ensures var s := Redeem(c, t, i, actor, tokenValid, now);
            && (s.outcome == Done(i) <==>
                  && actor != NIL_USER && i < |t.bookings| && tokenValid && t.bookings[i].user == Some(actor)
                  && t.bookings[i].status == Confirmed && i !in t.checkIns
                  && t.bookings[i].start - c.early <= now && now <= t.bookings[i].start + c.grace)
            && (s.outcome == Done(i) ==> s.tables.checkIns == t.checkIns + {i})
            && (s.outcome != Done(i) ==> s.tables.checkIns == t.checkIns)
            && s.tables.bookings == t.bookings && s.tables.waitlist == t.waitlist && s.tables.capacity == t.capacity
            && s.tables.events == t.events && s.tables.outbox == t.outbox
  {
  }

  lemma RedeemRefusals(c: Campus, t: Tables, i: nat, actor: UserId, tokenValid: bool, now: Instant)
    ensures var o := Redeem(c, t, i, actor, tokenValid, now).outcome;
            var row := actor != NIL_USER && i < |t.bookings|;
            var own := row && tokenValid && t.bookings[i].user == Some(actor);
            && (o == BadRequest <==> actor == NIL_USER)
            && (o == NotFound <==> actor != NIL_USER && i >= |t.bookings|)
            && (o == InvalidToken <==> row && !tokenValid)
            && (o == Forbidden <==> row && tokenValid && t.bookings[i].user != Some(actor))
            && (o == Converged(i) <==> own && i in t.checkIns)
            && (o == NotCheckable <==> own && i !in t.checkIns && t.bookings[i].status != Confirmed)
            && (o == OutsideWindow <==>
                  && own && i !in t.checkIns && t.bookings[i].status == Confirmed
                  && !(t.bookings[i].start - c.early <= now && now <= t.bookings[i].start + c.grace))
  {
  }

  // ------------------------------------------------------------------- waitlist

  /** Somebody's own place in this queue is still alive. */
  ghost predicate QueuesAlready(t: Tables, user: UserId, f: FacilityId, start: Instant, end: Instant)
  {
    exists w :: 0 <= w < |t.waitlist| && t.waitlist[w].user == user && t.waitlist[w].facility == f
      && t.waitlist[w].start == start && t.waitlist[w].end == end
      && (t.waitlist[w].status == Waiting || t.waitlist[w].status == Promoted)
  }

  /** Join appends one WAITING entry with exactly what was asked for, priority included, at the
      end of the queue; or changes nothing and says why. */
  lemma JoinExact(c: Campus, t: Tables, user: UserId, f: FacilityId, start: Instant, end: Instant, priority: int)
    ensures var s := Join(c, t, user, f, start, end, priority);
            var n := |t.waitlist|;
            var asked := user != NIL_USER && start < end;
            var queued := asked && f in c.facilities && c.facilities[f].active && c.facilities[f].exclusive;
            && (s.outcome == Created(n) <==> queued && !QueuesAlready(t, user, f, start, end))
            && (s.outcome == AlreadyWaiting <==> queued && QueuesAlready(t, user, f, start, end))
            && (s.outcome == NotFound <==> asked && f !in c.facilities)
            && (s.outcome == BadRequest <==> !asked || (f in c.facilities && !(c.facilities[f].active && c.facilities[f].exclusive)))
            && (s.outcome == Created(n) ==> |s.tables.waitlist| == n + 1 && s.tables.waitlist[..n] == t.waitlist)
            && s.tables.(waitlist := t.waitlist) == t
            && (s.outcome != Created(n) ==> s.tables == t)
    ensures var s := Join(c, t, user, f, start, end, priority);
            s.outcome == Created(|t.waitlist|) ==>
              var e := s.tables.waitlist[|t.waitlist|];
              && e.user == user && e.facility == f && e.start == start && e.end == end && e.priority == priority
              && e.status == Waiting && e.booking == None
  {
    if LiveEntry(t.waitlist, f, user, start, end) {
      assert QueuesAlready(t, user, f, start, end);
    }
  }

  /** Leave takes exactly its owner's WAITING entry out of the queue. */
  lemma LeaveExact(t: Tables, w: nat, actor: UserId)
    ensures var s := Leave(t, w, actor);
            var mine := actor != NIL_USER && w < |t.waitlist| && t.waitlist[w].user == actor;
            && (s.outcome == Done(w) <==> mine && t.waitlist[w].status == Waiting)
            && (s.outcome == Converged(w) <==> mine && t.waitlist[w].status == Left)
            && (s.outcome == NotWaiting <==> mine && t.waitlist[w].status != Waiting && t.waitlist[w].status != Left)
            && (s.outcome == Forbidden <==> actor != NIL_USER && w < |t.waitlist| && t.waitlist[w].user != actor)
            && (s.outcome == NotFound <==> actor != NIL_USER && w >= |t.waitlist|)
            && (s.outcome == BadRequest <==> actor == NIL_USER)
            && (s.outcome == Done(w) ==>
                  && |s.tables.waitlist| == |t.waitlist| && s.tables.waitlist[w].status == Left
                  && (forall v :: 0 <= v < |t.waitlist| && v != w ==> s.tables.waitlist[v] == t.waitlist[v])
                  && SameEntry(s.tables.waitlist[w], t.waitlist[w]) && s.tables.waitlist[w].booking == t.waitlist[w].booking
                  && s.tables.(waitlist := t.waitlist) == t)
            && (s.outcome != Done(w) ==> s.tables == t)
  {
  }

  // ----------------------------------------------------------- cancel and claim

  predicate MayCancel(b: Booking, actor: UserId, manager: bool)
  {
    b.user == Some(actor) || manager
  }

  /** Every answer of Cancel in a reachable state. Somebody who is neither the owner nor a
      manager is refused and changes nothing, whatever the booking's status. */
  lemma CancelExact(c: Campus, t: Tables, i: nat, actor: UserId, manager: bool, now: Instant, locked: Locked)
    requires ValidCampus(c) && Reachable(c, t) && (i < |t.bookings| ==> t.bookings[i].facility in c.facilities)
    ensures var s := Cancel(c, t, i, actor, manager, now, locked);
            var row := actor != NIL_USER && i < |t.bookings|;
            var may := row && (t.bookings[i].user == Some(actor) || manager);
            && (s.outcome == BadRequest <==> actor == NIL_USER)
            && (s.outcome == NotFound <==> actor != NIL_USER && i >= |t.bookings|)
            && (s.outcome == Forbidden <==> row && t.bookings[i].user != Some(actor) && !manager)
            && (s.outcome == Done(i) <==> may && t.bookings[i].status == Confirmed)
            && (s.outcome == Aborted <==> may && t.bookings[i].status == Held)
            && (s.outcome == Converged(i) <==> may && t.bookings[i].status == Cancelled)
            && (s.outcome == NotCancellable <==> may && t.bookings[i].status in {Blocked, NoShow, Completed})
            && (s.outcome != Done(i) ==> s.tables == t)
  {
    if i < |t.bookings| {
      RowIsOk(c, t, i);
    }
  }

  lemma RowIsOk(c: Campus, t: Tables, i: nat)
    requires ValidCampus(c) && Reachable(c, t) && i < |t.bookings|
    ensures RowOk(c, t.bookings[i])
  {
    ReachableInv(c, t);
  }

  lemma CancelledShape(c: Campus, t: Tables, i: nat, actor: UserId, manager: bool, now: Instant, locked: Locked)
    requires ValidCampus(c) && Reachable(c, t) && i < |t.bookings| && t.bookings[i].facility in c.facilities
    requires Cancel(c, t, i, actor, manager, now, locked).outcome == Done(i)
    ensures Cancel(c, t, i, actor, manager, now, locked).tables == CancelledTables(c, t, i, now, locked)
    ensures t.bookings[i].user.Some?
  {
    RowIsOk(c, t, i);
    CancelDone(c, t, i, actor, manager, now, locked);
  }

  /** What a cancel that went through has changed: the row, one event, one outbox row, the
      booking's own counters, and at most one offer. */
  lemma CancelEffect(c: Campus, t: Tables, i: nat, actor: UserId, manager: bool, now: Instant, locked: Locked)
    requires ValidCampus(c) && Reachable(c, t) && i < |t.bookings| && t.bookings[i].facility in c.facilities
    requires Cancel(c, t, i, actor, manager, now, locked).outcome == Done(i)
    ensures CancelledOnly(t, Cancel(c, t, i, actor, manager, now, locked).tables, i)
  {
    CancelledShape(c, t, i, actor, manager, now, locked);
    CancelledEffect(c, t, i, now, locked);
  }

  /** From t to u booking i was cancelled, and its window perhaps offered. */
  ghost predicate CancelledOnly(t: Tables, u: Tables, i: nat)
    requires i < |t.bookings|
  {
    var b := t.bookings[i];
    && |t.bookings| <= |u.bookings| <= |t.bookings| + 1
    && u.bookings[i].status == Cancelled
    && (forall k :: 0 <= k < |t.bookings| && k != i ==> u.bookings[k] == t.bookings[k])
    && |u.events| == |t.events| + 1 + (|u.bookings| - |t.bookings|)
    && u.events[|t.events|] == Event(i, Some(Confirmed), Cancelled)
    && |u.outbox| == |t.outbox| + 1 + (|u.bookings| - |t.bookings|)
    && u.outbox[|u.outbox| - 1] == Message(BookingCancelled, i, b.facility, b.start, b.end)
    && u.checkIns == t.checkIns && (b.exclusive ==> u.capacity == t.capacity) && (!b.exclusive ==> u.waitlist == t.waitlist)
  }

  lemma CancelledEffect(c: Campus, t: Tables, i: nat, now: Instant, locked: Locked)
    requires i < |t.bookings| && t.bookings[i].facility in c.facilities
    ensures CancelledOnly(t, CancelledTables(c, t, i, now, locked), i)
  {
  }

  /** Only the student an offer was made to can claim it, and only before its deadline. */
  lemma ClaimExact(t: Tables, i: nat, actor: UserId, now: Instant)
    ensures var s := Claim(t, i, actor, now);
            var mine := actor != NIL_USER && i < |t.bookings| && t.bookings[i].user == Some(actor);
            var open := mine && t.bookings[i].status == Held && t.bookings[i].heldUntil.Some? && now < t.bookings[i].heldUntil.value;
            && (s.outcome == BadRequest <==> actor == NIL_USER)
            && (s.outcome == NotFound <==> actor != NIL_USER && i >= |t.bookings|)
            && (s.outcome == Forbidden <==> actor != NIL_USER && i < |t.bookings| && t.bookings[i].user != Some(actor))
            && (s.outcome == Done(i) <==> open)
            && (s.outcome == Converged(i) <==> mine && t.bookings[i].status == Confirmed)
            && (s.outcome == OfferExpired <==> mine && !open && t.bookings[i].status != Confirmed)
            && (s.outcome != Done(i) ==> s.tables == t)
            && (s.outcome == Done(i) ==>
                  && |s.tables.bookings| == |t.bookings|
                  && s.tables.bookings[i] == t.bookings[i].(status := Confirmed, heldUntil := None)
                  && (forall k :: 0 <= k < |t.bookings| && k != i ==> s.tables.bookings[k] == t.bookings[k])
                  && s.tables.events == t.events + [Event(i, Some(Held), Confirmed)]
                  && |s.tables.outbox| == |t.outbox| + 1 && s.tables.outbox[|t.outbox|].topic == BookingConfirmed
                  && s.tables.outbox[|t.outbox|].booking == i
                  && s.tables.capacity == t.capacity && s.tables.checkIns == t.checkIns
                  && |s.tables.waitlist| == |t.waitlist|
                  && forall w :: 0 <= w < |t.waitlist| ==>
                       s.tables.waitlist[w].status == if t.waitlist[w].booking == Some(i) && t.waitlist[w].status == Promoted
                                                      then EntryStatus.Claimed else t.waitlist[w].status)
  {
  }

  // -------------------------------------------------------------------- closures

  /** An identical closure stands. */
  ghost predicate StandsAlready(t: Tables, j: nat, f: FacilityId, start: Instant, end: Instant)
  {
    j < |t.bookings| && t.bookings[j].status == Blocked && t.bookings[j].facility == f
    && t.bookings[j].start == start && t.bookings[j].end == end
  }

  lemma {:induction false} FindClosureFinds(bs: seq<Booking>, f: FacilityId, start: Instant, end: Instant, j: nat)
    requires j < |bs| && bs[j].status == Blocked && bs[j].facility == f && bs[j].start == start && bs[j].end == end
    ensures FindClosure(bs, f, start, end).Some?
  {
    var n := |bs| - 1;
    if j < n {
      FindClosureFinds(bs[..n], f, start, end, j);
    }
  }

  /** A holding row of an exclusive facility is in the way. */
  ghost predicate InTheWay(c: Campus, t: Tables, f: FacilityId, start: Instant, end: Instant)
    requires f in c.facilities
  {
    c.facilities[f].exclusive
    && exists i :: 0 <= i < |t.bookings| && t.bookings[i].facility == f && Holding(t.bookings[i])
         && t.bookings[i].start < end && start < t.bookings[i].end
  }

  lemma ClosureAdmitted(c: Campus, t: Tables, f: FacilityId, start: Instant, end: Instant)
    requires f in c.facilities
    ensures var row := Booking(f, None, c.facilities[f].exclusive, start, end, Blocked, None, None);
            CheckInsert(t.bookings, row, true) == Admitted <==> !InTheWay(c, t, f, start, end)
  {
    var row := Booking(f, None, c.facilities[f].exclusive, start, end, Blocked, None, None);
    InsertExact(t.bookings, row, true);
    if InTheWay(c, t, f, start, end) {
      var i :| 0 <= i < |t.bookings| && t.bookings[i].facility == f && Holding(t.bookings[i])
               && t.bookings[i].start < end && start < t.bookings[i].end;
      assert Clash(t.bookings[i], row);
    }
  }

  /** Every answer of CreateClosure. */
  lemma CreateClosureExact(c: Campus, t: Tables, f: FacilityId, actor: UserId, start: Instant, end: Instant)
    ensures var s := CreateClosure(c, t, f, actor, start, end);
            var asked := f in c.facilities && actor != NIL_USER && start < end;
            var stands := exists j :: StandsAlready(t, j, f, start, end);
            && (s.outcome == NotFound <==> f !in c.facilities)
            && (s.outcome == BadRequest <==> f in c.facilities && (actor == NIL_USER || end <= start))
            && (s.outcome.Replayed? <==> asked && stands)
            && (s.outcome.Replayed? ==> StandsAlready(t, s.outcome.id, f, start, end))
            && (s.outcome == Taken <==> asked && !stands && InTheWay(c, t, f, start, end))
            && (s.outcome.Created? <==> asked && !stands && !InTheWay(c, t, f, start, end))
            && (!s.outcome.Created? ==> s.tables == t)
  {
    if j :| StandsAlready(t, j, f, start, end) {
      FindClosureFinds(t.bookings, f, start, end, j);
    }
    if FindClosure(t.bookings, f, start, end).Some? {
      assert StandsAlready(t, FindClosure(t.bookings, f, start, end).value, f, start, end);
    }
    if f in c.facilities {
      ClosureAdmitted(c, t, f, start, end);
    }
  }

  /** A closure that was created is there: one BLOCKED row without a user over exactly the
      window, one event and one outbox row. */
  lemma ClosureEffect(c: Campus, t: Tables, f: FacilityId, actor: UserId, start: Instant, end: Instant)
    requires CreateClosure(c, t, f, actor, start, end).outcome.Created?
    ensures var s := CreateClosure(c, t, f, actor, start, end);
            var n := |t.bookings|;
            && f in c.facilities && s.outcome.id == n && |s.tables.bookings| == n + 1 && s.tables.bookings[..n] == t.bookings
            && s.tables.events == t.events + [Event(n, None, Blocked)]
            && s.tables.outbox == t.outbox + [Message(ClosureCreated, n, f, start, end)]
            && s.tables.waitlist == t.waitlist && s.tables.checkIns == t.checkIns
            && (c.facilities[f].exclusive ==> s.tables.capacity == t.capacity)
    ensures var row := CreateClosure(c, t, f, actor, start, end).tables.bookings[|t.bookings|];
            && row.status == Blocked && row.user == None && row.facility == f && row.start == start && row.end == end
            && row.key == None && row.heldUntil == None && row.exclusive == c.facilities[f].exclusive
  {
  }

  /** Every answer of Reopen, and its effect. */
  lemma ReopenExact(c: Campus, t: Tables, i: nat, actor: UserId)
    requires i < |t.bookings| ==> t.bookings[i].facility in c.facilities
    ensures var s := Reopen(c, t, i, actor);
            var closure := actor != NIL_USER && i < |t.bookings| && t.bookings[i].user == None;
            && (s.outcome == BadRequest <==> actor == NIL_USER)
            && (s.outcome == NotFound <==> actor != NIL_USER && !closure)
            && (s.outcome == Done(i) <==> closure && t.bookings[i].status == Blocked)
            && (s.outcome == Converged(i) <==> closure && t.bookings[i].status != Blocked)
            && (s.outcome != Done(i) ==> s.tables == t)
            && (s.outcome == Done(i) ==>
                  && |s.tables.bookings| == |t.bookings|
                  && s.tables.bookings[i] == t.bookings[i].(status := Cancelled, heldUntil := None)
                  && (forall k :: 0 <= k < |t.bookings| && k != i ==> s.tables.bookings[k] == t.bookings[k])
                  && s.tables.events == t.events + [Event(i, Some(Blocked), Cancelled)]
                  && |s.tables.outbox| == |t.outbox| + 1 && s.tables.outbox[|t.outbox|].topic == BookingCancelled
                  && s.tables.outbox[|t.outbox|].booking == i
                  && s.tables.waitlist == t.waitlist && s.tables.checkIns == t.checkIns
                  && (t.bookings[i].exclusive && c.facilities[t.bookings[i].facility].exclusive ==> s.tables.capacity == t.capacity))
  {
  }

  // ---------------------------------------------------------------------- create

  /** Attempt n of ks decides: those before it ended in a deadlock and were not given up. */
  ghost predicate Decides(ks: seq<Conditions>, n: nat)
  {
    n < |ks| && ks[n].fault != Deadlock && forall m :: 0 <= m < n ==> ks[m].fault == Deadlock && !ks[m].contextDone
  }

  ghost predicate GivesUpAt(ks: seq<Conditions>, n: nat)
  {
    n < |ks| && ks[n].fault == Deadlock && ks[n].contextDone
    && forall m :: 0 <= m < n ==> ks[m].fault == Deadlock && !ks[m].contextDone
  }

  lemma Shifted(ks: seq<Conditions>, n: nat)
    requires |ks| > 0 && ks[0].fault == Deadlock && !ks[0].contextDone
    ensures Decides(ks, n + 1) == Decides(ks[1..], n)
    ensures GivesUpAt(ks, n + 1) == GivesUpAt(ks[1..], n)
  {
    assert forall m :: 0 <= m < n && n < |ks[1..]| ==> ks[1..][m] == ks[m + 1];
    assert forall m :: 0 < m < n + 1 && n + 1 < |ks| ==> ks[m] == ks[1..][m - 1];
  }

  lemma {:induction false} DecidingExact(ks: seq<Conditions>)
    ensures forall n: nat :: Decides(ks, n) ==> Deciding(ks) == Some(ks[n])
    ensures Deciding(ks).Some? ==> exists n: nat :: Decides(ks, n)
  {
    if |ks| > 0 {
      DecidingExact(ks[1..]);
      if ks[0].fault != Deadlock {
        assert Decides(ks, 0);
      } else if !ks[0].contextDone {
        forall n: nat | Decides(ks, n) ensures Deciding(ks) == Some(ks[n]) {
          assert n > 0;
          Shifted(ks, n - 1);
        }
        if Deciding(ks).Some? {
          var n: nat :| Decides(ks[1..], n);
          Shifted(ks, n);
        }
      }
    }
  }

  /** Without an attempt that decides, Create gives up or runs out. */
  lemma {:induction false} UndecidedAttempts(f: Facility, t: Tables, r: Request, ks: seq<Conditions>)
    requires Deciding(ks).None?
    ensures Attempts(f, t, r, ks).tables == t
    ensures Attempts(f, t, r, ks).outcome == if exists n: nat :: GivesUpAt(ks, n) then ContextDone else Exhausted
    decreases |ks|
  {
    if |ks| > 0 {
      if ks[0].contextDone {
        assert GivesUpAt(ks, 0);
      } else {
        UndecidedAttempts(f, t, r, ks[1..]);
        if n: nat :| GivesUpAt(ks, n) {
          assert n > 0;
          Shifted(ks, n - 1);
        }
        if n: nat :| GivesUpAt(ks[1..], n) {
          Shifted(ks, n);
        }
      }
    }
  }

  /** The attempts come down to the one that decides. */
  lemma {:induction false} AttemptsDecided(f: Facility, t: Tables, r: Request, ks: seq<Conditions>)
    requires Deciding(ks).Some?
    ensures Attempts(f, t, r, ks) == Attempt(f, t, r, Deciding(ks).value)
    decreases |ks|
  {
    if ks[0].fault == Deadlock {
      AttemptsDecided(f, t, r, ks[1..]);
    }
  }

  /** A row of this user has this key. */
  ghost predicate KeyUsed(t: Tables, r: Request)
  {
    r.key != "" && exists i :: 0 <= i < |t.bookings| && t.bookings[i].user == Some(r.user) && t.bookings[i].key == Some(r.key)
  }

  ghost predicate SlotHeld(t: Tables, r: Request)
  {
    exists i :: 0 <= i < |t.bookings| && t.bookings[i].facility == r.facility && Holding(t.bookings[i])
      && t.bookings[i].start < r.start + r.duration && r.start < t.bookings[i].end
  }

  lemma ConflictsAreHeld(t: Tables, r: Request)
    ensures SlotHeld(t, r) <==> Conflicts(t.bookings, r.facility, r.start, r.start + r.duration)
  {
    if SlotHeld(t, r) {
      var i :| 0 <= i < |t.bookings| && t.bookings[i].facility == r.facility && Holding(t.bookings[i])
               && t.bookings[i].start < r.start + r.duration && r.start < t.bookings[i].end;
      assert Overlaps(t.bookings[i].start, t.bookings[i].end, r.start, r.start + r.duration);
    }
  }

  lemma RequestAdmitted(t: Tables, r: Request, exclusive: bool, uniqueFirst: bool)
    ensures var v := CheckInsert(t.bookings, RowOf(r, exclusive), uniqueFirst);
            && (v == Admitted <==> !KeyUsed(t, r) && !(exclusive && SlotHeld(t, r)))
            && (v == SlotTaken ==> exclusive && SlotHeld(t, r))
            && (v == DuplicateKey ==> KeyUsed(t, r))
  {
    var row := RowOf(r, exclusive);
    InsertExact(t.bookings, row, uniqueFirst);
    if KeyUsed(t, r) {
      var i :| 0 <= i < |t.bookings| && t.bookings[i].user == Some(r.user) && t.bookings[i].key == Some(r.key);
      assert SameKey(t.bookings[i], row);
    }
    if exclusive && SlotHeld(t, r) {
      var i :| 0 <= i < |t.bookings| && t.bookings[i].facility == r.facility && Holding(t.bookings[i])
               && t.bookings[i].start < r.start + r.duration && r.start < t.bookings[i].end;
      assert Clash(t.bookings[i], row);
    }
  }

  /** What decides about a request once it is valid and its attempt is not aborted. */
  lemma AttemptExact(c: Campus, t: Tables, r: Request, now: Instant, k: Conditions)
    requires ValidCampus(c) && r.facility in c.facilities && k.fault == NoFault
    requires Validate(c.facilities[r.facility], c.zone, r.user, r.start, r.duration, now) == None
    ensures var f := c.facilities[r.facility];
            var s := Attempt(f, t, r, k);
            && (s.outcome == PolicyRefused <==> k.policyRefuses)
            && (s.outcome == CapacityFull <==> !k.policyRefuses && !f.exclusive && !RoomFor(t, f, r))
            && (s.outcome == Taken <==> !k.policyRefuses && f.exclusive && SlotHeld(t, r) && !KeyUsed(t, r))
            && (s.outcome.Replayed? <==> !k.policyRefuses && KeyUsed(t, r) && (f.exclusive || RoomFor(t, f, r)))
            && (s.outcome.Created? <==>
                  && !k.policyRefuses && !KeyUsed(t, r)
                  && (if f.exclusive then !SlotHeld(t, r) else RoomFor(t, f, r)))
            && (!s.outcome.Created? ==> s.tables == t)
  {
    var f := c.facilities[r.facility];
    RequestAdmitted(t, r, f.exclusive, k.uniqueFirst);
    if !f.exclusive {
      RoomIsTakeable(c, t, r, now);
    }
    ReplayFinds(t, r);
  }

  lemma ReplayFinds(t: Tables, r: Request)
    ensures Replay(t, r).Replayed? <==> KeyUsed(t, r)
    ensures !Replay(t, r).Replayed? ==> Replay(t, r) == NotFound
  {
    if KeyUsed(t, r) {
      var i :| 0 <= i < |t.bookings| && t.bookings[i].user == Some(r.user) && t.bookings[i].key == Some(r.key);
      assert FindKey(t.bookings, Some(r.user), KeyOf(r)).Some?;
    }
  }

  /** Every answer of Create, and what it means. */
  lemma CreateExact(c: Campus, t: Tables, r: Request, now: Instant, ks: seq<Conditions>)
    requires ValidCampus(c)
    ensures var s := Create(c, t, r, now, ks);
            var known := r.facility in c.facilities;
            var valid := known && Validate(c.facilities[r.facility], c.zone, r.user, r.start, r.duration, now) == None;
            && (s.outcome == NotFound <==> !known)
            && (s.outcome.Invalid? <==> known && !valid)
            && (s.outcome.Invalid? ==>
                  Validate(c.facilities[r.facility], c.zone, r.user, r.start, r.duration, now) == Some(s.outcome.refusal))
            && (s.outcome == ContextDone <==> valid && exists n: nat :: GivesUpAt(ks, n))
            && (s.outcome == Exhausted <==> valid && Deciding(ks).None? && !exists n: nat :: GivesUpAt(ks, n))
            && (s.outcome == TimedOut <==> valid && Deciding(ks).Some? && Deciding(ks).value.fault == Timeout)
            && (valid && Deciding(ks).Some? && Deciding(ks).value.fault == NoFault ==>
                  s == Attempt(c.facilities[r.facility], t, r, Deciding(ks).value))
            && (!s.outcome.Created? ==> s.tables == t)
  {
    if r.facility in c.facilities && Validate(c.facilities[r.facility], c.zone, r.user, r.start, r.duration, now) == None {
      var f := c.facilities[r.facility];
      if Deciding(ks).None? {
        UndecidedAttempts(f, t, r, ks);
      } else {
        AttemptsDecided(f, t, r, ks);
        NotBoth(ks);
        if Deciding(ks).value.fault == NoFault {
          AttemptExact(c, t, r, now, Deciding(ks).value);
        }
      }
    }
  }

  lemma NotBoth(ks: seq<Conditions>)
    requires Deciding(ks).Some?
    ensures Deciding(ks).value.fault != Deadlock && forall n: nat :: !GivesUpAt(ks, n)
  {
    DecidingExact(ks);
    var d: nat :| Decides(ks, d);
    forall n: nat ensures !GivesUpAt(ks, n) {
      assert n < d && n < |ks| ==> !ks[n].contextDone;
    }
  }

  lemma AttemptEffect(f: Facility, t: Tables, r: Request, k: Conditions)
    requires Attempt(f, t, r, k).outcome.Created?
    ensures var s := Attempt(f, t, r, k);
            var n := |t.bookings|;
            && s.outcome.id == n && |s.tables.bookings| == n + 1 && s.tables.bookings[..n] == t.bookings
            && s.tables.events == t.events + [Event(n, None, Confirmed)]
            && s.tables.outbox == t.outbox + [Message(BookingConfirmed, n, r.facility, r.start, r.start + r.duration)]
            && s.tables.waitlist == t.waitlist && s.tables.checkIns == t.checkIns
    ensures var row := Attempt(f, t, r, k).tables.bookings[|t.bookings|];
            && row.facility == r.facility && row.user == Some(r.user) && row.exclusive == f.exclusive
            && row.start == r.start && row.end == r.start + r.duration && row.status == Confirmed
            && row.key == (if r.key == "" then None else Some(r.key)) && row.heldUntil == None
  {
  }

  /** A created booking is there: one CONFIRMED row with exactly what was asked for, one event
      and one outbox row. */
  lemma CreateEffect(c: Campus, t: Tables, r: Request, now: Instant, ks: seq<Conditions>)
    requires ValidCampus(c) && Create(c, t, r, now, ks).outcome.Created?
    ensures r.facility in c.facilities
    ensures var s := Create(c, t, r, now, ks);
            var n := |t.bookings|;
            && s.outcome.id == n && |s.tables.bookings| == n + 1 && s.tables.bookings[..n] == t.bookings
            && s.tables.events == t.events + [Event(n, None, Confirmed)]
            && s.tables.outbox == t.outbox + [Message(BookingConfirmed, n, r.facility, r.start, r.start + r.duration)]
            && s.tables.waitlist == t.waitlist && s.tables.checkIns == t.checkIns
    ensures var row := Create(c, t, r, now, ks).tables.bookings[|t.bookings|];
            && row.facility == r.facility && row.user == Some(r.user) && row.exclusive == c.facilities[r.facility].exclusive
            && row.start == r.start && row.end == r.start + r.duration && row.status == Confirmed
            && row.key == (if r.key == "" then None else Some(r.key)) && row.heldUntil == None
  {
    CreateExact(c, t, r, now, ks);
    if Deciding(ks).None? {
      UndecidedAttempts(c.facilities[r.facility], t, r, ks);
    } else {
      AttemptsDecided(c.facilities[r.facility], t, r, ks);
      AttemptEffect(c.facilities[r.facility], t, r, Deciding(ks).value);
    }
  }
}
