/** Why a row is as it is: which calls change which rows, in both directions, and what that
    means over whole runs. */
module Causes {
  import opened Model
  import opened Grid
  import opened Statements
  import opened Transitions
  import opened Invariants
  import opened Preservation
  import opened Batches
  import opened Runs
  import opened Outcomes

  // ------------------------------------------------------------ rows that change

  /** The status to which the call takes booking i: the right kind of call, on this booking, by
      somebody who may, at a time when it is due. None if it has no cause to change it. */
  ghost function Fate(t: Tables, call: Call, i: nat): Option<Status>
    requires i < |t.bookings|
  {
    var b := t.bookings[i];
    match call
    case DoCancel(id, actor, manager, _, _) =>
      if id == i && b.status == Confirmed && actor != NIL_USER && (b.user == Some(actor) || manager) then Some(Cancelled) else None
    case DoClaim(id, actor, now) =>
      if id == i && b.status == Held && actor != NIL_USER && b.user == Some(actor) && b.heldUntil.Some? && now < b.heldUntil.value
      then Some(Confirmed) else None
    case DoReopen(id, actor) =>
      if id == i && b.status == Blocked && actor != NIL_USER && b.user == None then Some(Cancelled) else None
    case DoSweepHolds(_, _, holds) => if i in holds then Some(Cancelled) else None
    case DoSweepCheckIns(_, _, attended, absent) =>
      if i in attended then Some(Completed) else if i in absent then Some(NoShow) else None
    case _ => None
  }

  /** b is booking i after the call. */
  ghost predicate BecomesAs(t: Tables, call: Call, i: nat, b: Booking)
    requires i < |t.bookings|
  {
    b == match Fate(t, call, i)
         case None => t.bookings[i]
         case Some(to) => t.bookings[i].(status := to, heldUntil := None)
  }

  /** The batches a sweep may be given, in terms of the rows and the clock. */
  lemma SweptAreDue(c: Campus, t: Tables, call: Call, i: nat)
    requires Enabled(c, t, call) && i < |t.bookings|
    ensures call.DoSweepHolds? && i in call.holds ==>
              t.bookings[i].status == Held && t.bookings[i].heldUntil.Some? && t.bookings[i].heldUntil.value <= call.now
    ensures call.DoSweepCheckIns? && i in call.attended ==>
              t.bookings[i].status == Confirmed && t.bookings[i].end <= call.now && i in t.checkIns
    ensures call.DoSweepCheckIns? && i in call.absent ==>
              t.bookings[i].status == Confirmed && t.bookings[i].start + c.grace < call.now && i !in t.checkIns
              && i !in call.attended
  {
    BatchesDue(c, t, call);
    if call.DoSweepHolds? && i in call.holds {
      var k :| 0 <= k < |call.holds| && call.holds[k] == i;
    } else if call.DoSweepCheckIns? {
      CompletedRows(t, call.attended);
      if i in call.attended {
        var k :| 0 <= k < |call.attended| && call.attended[k] == i;
      }
      if i in call.absent {
        var k :| 0 <= k < |call.absent| && call.absent[k] == i;
        assert DueNoShow(Complete(t, call.attended), i, call.now, c.grace);
      }
    }
  }

  /** A sweep passes over a due row nobody has locked only when it already has a hundred, each
      due no later than that row. */
  lemma HoldPassedOver(c: Campus, t: Tables, call: Call, i: nat, k: nat)
    requires Enabled(c, t, call) && call.DoSweepHolds? && i < |t.bookings|
    requires t.bookings[i].status == Held && t.bookings[i].heldUntil.Some? && t.bookings[i].heldUntil.value <= call.now
    requires i !in call.locked.bookings && i !in call.holds
    ensures |call.holds| == 100
    ensures k < |call.holds| ==>
              var b := call.holds[k];
              b < |t.bookings| && t.bookings[b].heldUntil.Some? && t.bookings[b].heldUntil.value <= t.bookings[i].heldUntil.value
  {
    BatchesDue(c, t, call);
    assert i in DueHolds(t, call.now) - call.locked.bookings - Ids(call.holds);
    if k < |call.holds| {
      assert DueHold(t.bookings[call.holds[k]], call.now);
      assert DeadlineOrder(t)(call.holds[k]) <= DeadlineOrder(t)(i);
    }
  }

  lemma AttendedPassedOver(c: Campus, t: Tables, call: Call, i: nat, k: nat)
    requires Enabled(c, t, call) && call.DoSweepCheckIns? && i < |t.bookings|
    requires t.bookings[i].status == Confirmed && t.bookings[i].end <= call.now && i in t.checkIns
    requires i !in call.locked.bookings && i !in call.attended
    ensures |call.attended| == 100
    ensures k < |call.attended| ==> call.attended[k] < |t.bookings| && t.bookings[call.attended[k]].end <= t.bookings[i].end
  {
    BatchesDue(c, t, call);
    assert i in DueCompletes(t, call.now) - call.locked.bookings - Ids(call.attended);
    if k < |call.attended| {
      assert EndOrder(t)(call.attended[k]) <= EndOrder(t)(i);
    }
  }

  lemma AbsentPassedOver(c: Campus, t: Tables, call: Call, i: nat, k: nat)
    requires Enabled(c, t, call) && call.DoSweepCheckIns? && i < |t.bookings|
    requires t.bookings[i].status == Confirmed && t.bookings[i].start + c.grace < call.now && i !in t.checkIns
    requires i !in call.locked.bookings && i !in call.absent
    ensures |call.absent| == 100
    ensures k < |call.absent| ==> call.absent[k] < |t.bookings| && t.bookings[call.absent[k]].start <= t.bookings[i].start
  {
    BatchesDue(c, t, call);
    var u := Complete(t, call.attended);
    CompletedRows(t, call.attended);
    if i in call.attended {
      SweptAreDue(c, t, call, i);
    }
    assert u.bookings[i] == t.bookings[i];
    assert i in DueNoShows(c, u, call.now) - call.locked.bookings - Ids(call.absent);
    if k < |call.absent| {
      assert StartOrder(u)(call.absent[k]) <= StartOrder(u)(i);
    }
  }

  lemma CompletedRows(t: Tables, attended: seq<nat>)
    ensures Complete(t, attended).bookings == Marked(t.bookings, Ids(attended), Completed)
    ensures Complete(t, attended).checkIns == t.checkIns && Complete(t, attended).waitlist == t.waitlist
  {
    CompletePassRest(t.(bookings := Marked(t.bookings, Ids(attended), Completed)), attended);
  }

  lemma {:induction false} CompletePassRest(t: Tables, batch: seq<nat>)
    ensures var u := CompletePass(t, batch); u.bookings == t.bookings && u.checkIns == t.checkIns && u.waitlist == t.waitlist
  {
    if |batch| > 0 {
      CompletePassRest(t, batch[..|batch| - 1]);
    }
  }

  lemma SweptHoldRow(c: Campus, t: Tables, batch: seq<nat>, now: Instant, locked: Locked, i: nat)
    requires InTable(batch, t) && i < |t.bookings|
    ensures var u := SweepHolds(c, t, batch, now, locked);
            i < |u.bookings|
            && u.bookings[i] == if i in batch then t.bookings[i].(status := Cancelled, heldUntil := None) else t.bookings[i]
  {
    var marked := t.(bookings := Marked(t.bookings, Ids(batch), Cancelled));
    assert marked.bookings <= ExpirePass(c, marked, batch, now, locked).bookings;
    assert ExpirePass(c, marked, batch, now, locked).bookings[i] == marked.bookings[i];
  }

  lemma ReleasedRow(c: Campus, t: Tables, batch: seq<nat>, now: Instant, locked: Locked, i: nat)
    requires InTable(batch, t) && RowsKnown(c, t) && i < |t.bookings|
    ensures var u := ReleaseNoShows(c, t, batch, now, locked);
            i < |u.bookings|
            && u.bookings[i] == if i in batch then t.bookings[i].(status := NoShow, heldUntil := None) else t.bookings[i]
  {
    var marked := t.(bookings := Marked(t.bookings, Ids(batch), NoShow));
    assert marked.bookings <= NoShowPass(c, marked, batch, now, locked).bookings;
    assert NoShowPass(c, marked, batch, now, locked).bookings[i] == marked.bookings[i];
  }

  lemma SweepHoldsRow(c: Campus, t: Tables, call: Call, i: nat)
    requires Enabled(c, t, call) && call.DoSweepHolds? && i < |t.bookings|
    ensures i < |Apply(c, t, call).bookings| && BecomesAs(t, call, i, Apply(c, t, call).bookings[i])
  {
    BatchesDue(c, t, call);
    SweptHoldRow(c, t, call.holds, call.now, call.locked, i);
  }

  lemma SweepCheckInsRow(c: Campus, t: Tables, call: Call, i: nat)
    requires Enabled(c, t, call) && call.DoSweepCheckIns? && i < |t.bookings|
    ensures i < |Apply(c, t, call).bookings| && BecomesAs(t, call, i, Apply(c, t, call).bookings[i])
  {
    BatchesDue(c, t, call);
    SweptAreDue(c, t, call, i);
    CompletedRows(t, call.attended);
    ReleasedRow(c, Complete(t, call.attended), call.absent, call.now, call.locked, i);
  }

  lemma CancelRow(c: Campus, t: Tables, call: Call, i: nat)
    requires ValidCampus(c) && Reachable(c, t) && Enabled(c, t, call) && call.DoCancel? && i < |t.bookings|
    ensures i < |Apply(c, t, call).bookings| && BecomesAs(t, call, i, Apply(c, t, call).bookings[i])
  {
    CancelExact(c, t, call.id, call.actor, call.manager, call.now, call.locked);
    if Cancel(c, t, call.id, call.actor, call.manager, call.now, call.locked).outcome == Done(call.id) {
      CancelEffect(c, t, call.id, call.actor, call.manager, call.now, call.locked);
      CancelledRowExact(c, t, call.id, call.actor, call.manager, call.now, call.locked);
    }
  }

  lemma CancelledRowExact(c: Campus, t: Tables, i: nat, actor: UserId, manager: bool, now: Instant, locked: Locked)
    requires ValidCampus(c) && Reachable(c, t) && i < |t.bookings| && t.bookings[i].facility in c.facilities
    requires Cancel(c, t, i, actor, manager, now, locked).outcome == Done(i)
    ensures var u := Cancel(c, t, i, actor, manager, now, locked).tables;
            i < |u.bookings| && u.bookings[i] == t.bookings[i].(status := Cancelled, heldUntil := None)
  {
    ReachableInv(c, t);
    assert RowOk(c, t.bookings[i]);
    CancelDone(c, t, i, actor, manager, now, locked);
  }

  lemma ClaimRow(c: Campus, t: Tables, call: Call, i: nat)
    requires Enabled(c, t, call) && i < |t.bookings| && call.DoClaim?
    ensures i < |Apply(c, t, call).bookings| && BecomesAs(t, call, i, Apply(c, t, call).bookings[i])
  {
    ClaimExact(t, call.id, call.actor, call.now);
  }

  lemma ReopenRow(c: Campus, t: Tables, call: Call, i: nat)
    requires Enabled(c, t, call) && i < |t.bookings| && call.DoReopen?
    ensures i < |Apply(c, t, call).bookings| && BecomesAs(t, call, i, Apply(c, t, call).bookings[i])
  {
    ReopenExact(c, t, call.id, call.actor);
  }

  lemma AppendingCalls(c: Campus, t: Tables, call: Call, i: nat)
    requires ValidCampus(c) && Enabled(c, t, call) && i < |t.bookings|
    requires call.DoCreate? || call.DoCreateClosure? || call.DoJoin? || call.DoLeave? || call.DoRedeem?
    ensures i < |Apply(c, t, call).bookings| && Apply(c, t, call).bookings[i] == t.bookings[i]
  {
    match call
    case DoCreate(r, now, ks) =>
      CreateExact(c, t, r, now, ks);
      if Create(c, t, r, now, ks).outcome.Created? {
        CreateEffect(c, t, r, now, ks);
        assert Apply(c, t, call).bookings[..|t.bookings|][i] == t.bookings[i];
      }
    case DoCreateClosure(f, actor, start, end) =>
      CreateClosureExact(c, t, f, actor, start, end);
      if CreateClosure(c, t, f, actor, start, end).outcome.Created? {
        ClosureEffect(c, t, f, actor, start, end);
        assert Apply(c, t, call).bookings[..|t.bookings|][i] == t.bookings[i];
      }
    case _ =>
  }

  /** From every reachable state, every committed call changes exactly the rows it has cause to
      change, in exactly the way it has cause to, and leaves every other row as it was. */
  lemma EveryChangeHasItsCause(c: Campus, t: Tables, call: Call, i: nat)
    requires ValidCampus(c) && Reachable(c, t) && Enabled(c, t, call) && i < |t.bookings|
    ensures i < |Apply(c, t, call).bookings| && BecomesAs(t, call, i, Apply(c, t, call).bookings[i])
  {
    match call
    case DoCancel(_, _, _, _, _) => CancelRow(c, t, call, i);
    case DoSweepHolds(_, _, _) => SweepHoldsRow(c, t, call, i);
    case DoSweepCheckIns(_, _, _, _) => SweepCheckInsRow(c, t, call, i);
    case DoClaim(_, _, _) => ClaimRow(c, t, call, i);
    case DoReopen(_, _) => ReopenRow(c, t, call, i);
    case _ => AppendingCalls(c, t, call, i);
  }

  /** The same for each step of the lifecycle: who, what and when. */
  lemma StepsHaveCauses(c: Campus, t: Tables, call: Call, i: nat)
    requires ValidCampus(c) && Reachable(c, t) && Enabled(c, t, call) && i < |t.bookings|
    ensures i < |Apply(c, t, call).bookings|
    ensures var b, to := t.bookings[i], Apply(c, t, call).bookings[i].status;
            to != b.status ==>
              match (b.status, to)
              case (Confirmed, Cancelled) =>
                call.DoCancel? && call.id == i && call.actor != NIL_USER && (b.user == Some(call.actor) || call.manager)
              case (Confirmed, NoShow) =>
                call.DoSweepCheckIns? && i in call.absent && b.start + c.grace < call.now && i !in t.checkIns
              case (Confirmed, Completed) =>
                call.DoSweepCheckIns? && i in call.attended && b.end <= call.now && i in t.checkIns
              case (Held, Confirmed) =>
                call.DoClaim? && call.id == i && b.user == Some(call.actor) && b.heldUntil.Some? && call.now < b.heldUntil.value
              case (Held, Cancelled) =>
                call.DoSweepHolds? && i in call.holds && b.heldUntil.Some? && b.heldUntil.value <= call.now
              case (Blocked, Cancelled) => call.DoReopen? && call.id == i && call.actor != NIL_USER
              case _ => false
  {
    EveryChangeHasItsCause(c, t, call, i);
    SweptAreDue(c, t, call, i);
  }

  // ----------------------------------------------------------------- over whole runs

  lemma RunReaches(c: Campus, states: seq<Tables>, acts: seq<Act>, k: nat)
    requires Run(c, states, acts) && k <= |acts|
    ensures Reachable(c, states[k])
  {
    assert Run(c, states[..k + 1], acts[..k]) && states[..k + 1][|acts[..k]|] == states[k];
  }

  /** A confirmed booking is only ever cancelled by its owner or a manager. */
  lemma CancelledByTheEntitled(c: Campus, states: seq<Tables>, acts: seq<Act>, k: nat, i: nat)
    requires ValidCampus(c) && Run(c, states, acts) && k < |acts| && i < |states[k].bookings| && i < |states[k + 1].bookings|
    requires states[k].bookings[i].status == Confirmed && states[k + 1].bookings[i].status == Cancelled
    ensures acts[k].committed && acts[k].call.DoCancel? && acts[k].call.id == i
    ensures states[k].bookings[i].user == Some(acts[k].call.actor) || acts[k].call.manager
  {
    RunReaches(c, states, acts, k);
    assert Next(c, states[k], acts[k], states[k + 1]);
    if acts[k].committed {
      StepsHaveCauses(c, states[k], acts[k].call, i);
    }
  }

  /** Act k reopens closure n. */
  predicate Reopens(act: Act, n: nat)
  {
    act.committed && act.call.DoReopen? && act.call.id == n
  }

  /** A closure stands until somebody reopens it. */
  lemma {:induction false} StandsUntilReopened(c: Campus, states: seq<Tables>, acts: seq<Act>, j: nat, k: nat, n: nat)
    requires ValidCampus(c) && Run(c, states, acts) && j <= k <= |acts|
    requires n < |states[j].bookings| && states[j].bookings[n].status == Blocked
    requires forall m :: j <= m < k ==> !Reopens(acts[m], n)
    ensures n < |states[k].bookings| && states[k].bookings[n] == states[j].bookings[n]
    decreases k
  {
    if j < k {
      StandsUntilReopened(c, states, acts, j, k - 1, n);
      RunReaches(c, states, acts, k - 1);
      assert Next(c, states[k - 1], acts[k - 1], states[k]);
      assert !Reopens(acts[k - 1], n);
      if acts[k - 1].committed {
        StandingRow(c, states[k - 1], acts[k - 1].call, n);
      }
    }
  }

  lemma StandingRow(c: Campus, t: Tables, call: Call, n: nat)
    requires ValidCampus(c) && Reachable(c, t) && Enabled(c, t, call) && n < |t.bookings| && t.bookings[n].status == Blocked
    requires !(call.DoReopen? && call.id == n)
    ensures n < |Apply(c, t, call).bookings| && Apply(c, t, call).bookings[n] == t.bookings[n]
  {
    EveryChangeHasItsCause(c, t, call, n);
    SweptAreDue(c, t, call, n);
  }

  /** On a court, a create over a holding row neither succeeds nor changes anything. */
  lemma HeldMeansHeld(c: Campus, t: Tables, r: Request, now: Instant, ks: seq<Conditions>)
    requires ValidCampus(c) && r.facility in c.facilities && c.facilities[r.facility].exclusive && SlotHeld(t, r)
    ensures Create(c, t, r, now, ks).tables == t && !Create(c, t, r, now, ks).outcome.Created?
  {
    CreateExact(c, t, r, now, ks);
    if Deciding(ks).None? {
      UndecidedAttempts(c.facilities[r.facility], t, r, ks);
    } else {
      NotBoth(ks);
      AttemptsDecided(c.facilities[r.facility], t, r, ks);
      if Deciding(ks).value.fault == NoFault && Validate(c.facilities[r.facility], c.zone, r.user, r.start, r.duration, now) == None {
        AttemptExact(c, t, r, now, Deciding(ks).value);
      }
    }
  }

  /** From the moment a facility was closed, court or shared, until that closure is reopened, no
      booking that overlaps it succeeds. */
  lemma ClosedUntilReopened(c: Campus, states: seq<Tables>, acts: seq<Act>, j: nat, k: nat, n: nat)
    requires ValidCampus(c) && Run(c, states, acts) && j < k < |acts|
    requires acts[j].committed && acts[j].call.DoCreateClosure?
    requires var a := acts[j].call; CreateClosure(c, states[j], a.facility, a.actor, a.start, a.end).outcome == Created(n)
    requires forall m :: j < m < k ==> !Reopens(acts[m], n)
    requires acts[k].call.DoCreate? && acts[k].call.request.facility == acts[j].call.facility
    requires var r := acts[k].call.request; r.start < acts[j].call.end && acts[j].call.start < r.start + r.duration
    ensures states[k + 1] == states[k]
    ensures !Create(c, states[k], acts[k].call.request, acts[k].call.now, acts[k].call.conditions).outcome.Created?
  {
    var a := acts[j].call;
    assert Next(c, states[j], acts[j], states[j + 1]);
    ClosureEffect(c, states[j], a.facility, a.actor, a.start, a.end);
    StandsUntilReopened(c, states, acts, j + 1, k, n);
    RunReaches(c, states, acts, k);
    assert Next(c, states[k], acts[k], states[k + 1]);
    if c.facilities[a.facility].exclusive {
      assert Holding(states[k].bookings[n]);
      HeldMeansHeld(c, states[k], acts[k].call.request, acts[k].call.now, acts[k].call.conditions);
    } else {
      ClosedMeansClosed(c, states[k], acts[k].call.request, acts[k].call.now, acts[k].call.conditions, n);
    }
  }

  /** A student whose check-in was answered Done is never a no-show afterwards: while the
      booking is CONFIRMED it is due to be completed once it has ended, and never released. */
  lemma RedeemedIsSafe(c: Campus, states: seq<Tables>, acts: seq<Act>, j: nat, k: nat, i: nat, now: Instant)
    requires ValidCampus(c) && Run(c, states, acts) && j < k <= |acts|
    requires acts[j].committed && acts[j].call.DoRedeem? && acts[j].call.id == i
    requires var a := acts[j].call; Redeem(c, states[j], i, a.actor, a.tokenValid, a.now).outcome == Done(i)
    ensures i < |states[k].bookings| && i in states[k].checkIns && states[k].bookings[i].status != NoShow
    ensures !DueNoShow(states[k], i, now, c.grace)
    ensures states[k].bookings[i].status == Confirmed && states[k].bookings[i].end <= now ==> i in DueCompletes(states[k], now)
  {
    var a := acts[j].call;
    assert Next(c, states[j], acts[j], states[j + 1]);
    RedeemExact(c, states[j], i, a.actor, a.tokenValid, a.now);
    assert i in states[j + 1].checkIns;
    RunExtends(c, states, acts, j + 1, k);
    RunInv(c, states, acts, k);
    AttendedStays(c, states[k], i);
  }

  lemma AttendedStays(c: Campus, t: Tables, i: nat)
    requires Inv(c, t) && i in t.checkIns
    ensures i < |t.bookings| && t.bookings[i].status != NoShow
  {
  }

  // --------------------------------------------------------------------- new rows

  /** row is an offer of the window of a row that already stood, made now, to somebody who was
      waiting for it. */
  ghost predicate IsOffer(c: Campus, t: Tables, row: Booking, now: Instant)
  {
    && row.status == Held && row.exclusive && row.key == None && row.heldUntil == Some(now + c.ttl)
    && (exists i :: 0 <= i < |t.bookings| && SameWindow(row, t.bookings[i]))
    && (exists w :: 0 <= w < |t.waitlist| && WaitsFor(t.waitlist[w], row))
  }

  predicate SameWindow(row: Booking, b: Booking)
  {
    row.facility == b.facility && row.start == b.start && row.end == b.end && b.user.Some?
  }

  predicate WaitsFor(e: Entry, row: Booking)
  {
    e.status == Waiting && row.user == Some(e.user) && e.facility == row.facility && Overlaps(e.start, e.end, row.start, row.end)
  }

  /** The queue after some promotions: the same entries, and nobody waits who did not. */
  ghost predicate QueueShrinks(a: seq<Entry>, b: seq<Entry>)
  {
    |a| == |b| && forall w :: 0 <= w < |a| ==> SameEntryButFor(a[w], b[w]) && (b[w].status == Waiting ==> a[w] == b[w])
  }

  predicate SameEntryButFor(a: Entry, b: Entry)
  {
    b == a.(status := b.status, booking := b.booking)
  }

  /** What one promotion appends. */
  lemma PromotedRow(c: Campus, t: Tables, f: FacilityId, start: Instant, end: Instant, now: Instant, locked: Locked)
    ensures var u := Promote(c, t, f, start, end, now, locked);
            && t.bookings <= u.bookings && |u.bookings| <= |t.bookings| + 1 && QueueShrinks(t.waitlist, u.waitlist)
            && u.checkIns == t.checkIns
            && (|u.bookings| > |t.bookings| ==>
                  var row := u.bookings[|t.bookings|];
                  && row.status == Held && row.exclusive && row.key == None && row.heldUntil == Some(now + c.ttl)
                  && row.facility == f && row.start == start && row.end == end
                  && exists w :: 0 <= w < |t.waitlist| && WaitsFor(t.waitlist[w], row))
  {
    ClaimHeadIsHead(t.waitlist, f, start, end, locked.entries);
    var w := ClaimHead(t.waitlist, f, start, end, locked.entries);
    if w.Some? && !Conflicts(t.bookings, f, start, end) {
      var u := Promote(c, t, f, start, end, now, locked);
      assert WaitsFor(t.waitlist[w.value], u.bookings[|t.bookings|]);
    }
  }

  lemma QueueShrinksTrans(a: seq<Entry>, b: seq<Entry>, d: seq<Entry>)
    requires QueueShrinks(a, b) && QueueShrinks(b, d)
    ensures QueueShrinks(a, d)
  {
  }

  lemma RetiredShrinks(entries: seq<Entry>, i: nat, status: EntryStatus)
    requires status != Waiting
    ensures QueueShrinks(entries, Retired(entries, i, status))
  {
  }

  /** An offer in what a pass has come to is an offer in what it began with. */
  lemma OfferBefore(c: Campus, t: Tables, u: Tables, row: Booking, now: Instant, i: nat)
    requires t.bookings <= u.bookings && QueueShrinks(t.waitlist, u.waitlist)
    requires row.status == Held && row.exclusive && row.key == None && row.heldUntil == Some(now + c.ttl)
    requires i < |t.bookings| && SameWindow(row, t.bookings[i]) && exists w :: 0 <= w < |u.waitlist| && WaitsFor(u.waitlist[w], row)
    ensures IsOffer(c, t, row, now)
  {
    var w :| 0 <= w < |u.waitlist| && WaitsFor(u.waitlist[w], row);
    assert WaitsFor(t.waitlist[w], row);
  }

  lemma {:induction false} ExpirePassRows(c: Campus, t: Tables, batch: seq<nat>, now: Instant, locked: Locked)
    requires InTable(batch, t) && forall k :: 0 <= k < |batch| ==> t.bookings[batch[k]].user.Some?
    ensures var u := ExpirePass(c, t, batch, now, locked);
            && QueueShrinks(t.waitlist, u.waitlist)
            && forall j :: |t.bookings| <= j < |u.bookings| ==> IsOffer(c, t, u.bookings[j], now)
  {
    if |batch| > 0 {
      var n := |batch| - 1;
      var u, x := ExpirePass(c, t, batch[..n], now, locked), batch[n];
      ExpirePassRows(c, t, batch[..n], now, locked);
      var v := Announced(Logged(u.(waitlist := Retired(u.waitlist, x, EntryStatus.Expired)), x, Held, Cancelled), WaitlistExpired, x);
      RetiredShrinks(u.waitlist, x, EntryStatus.Expired);
      QueueShrinksTrans(t.waitlist, u.waitlist, v.waitlist);
      PassStepRows(c, t, u, v, x, now, locked);
    }
  }

  /** One more promotion of a pass, on the window of row x. */
  lemma PassStepRows(c: Campus, t: Tables, u: Tables, v: Tables, x: nat, now: Instant, locked: Locked)
    requires x < |t.bookings| && t.bookings[x].user.Some? && t.bookings <= u.bookings && v.bookings == u.bookings
    requires QueueShrinks(t.waitlist, v.waitlist)
    requires forall j :: |t.bookings| <= j < |u.bookings| ==> IsOffer(c, t, u.bookings[j], now)
    ensures var z := Promote(c, v, v.bookings[x].facility, v.bookings[x].start, v.bookings[x].end, now, locked);
            && QueueShrinks(t.waitlist, z.waitlist)
            && forall j :: |t.bookings| <= j < |z.bookings| ==> IsOffer(c, t, z.bookings[j], now)
  {
    var b := t.bookings[x];
    assert v.bookings[x] == b;
    PromotedRow(c, v, b.facility, b.start, b.end, now, locked);
    var z := Promote(c, v, b.facility, b.start, b.end, now, locked);
    QueueShrinksTrans(t.waitlist, v.waitlist, z.waitlist);
    forall j | |t.bookings| <= j < |z.bookings| ensures IsOffer(c, t, z.bookings[j], now) {
      if j < |u.bookings| {
        assert z.bookings[j] == u.bookings[j];
      } else {
        OfferBefore(c, t, v, z.bookings[j], now, x);
      }
    }
  }

  lemma {:induction false} NoShowPassRows(c: Campus, t: Tables, batch: seq<nat>, now: Instant, locked: Locked)
    requires InTable(batch, t) && RowsKnown(c, t) && forall k :: 0 <= k < |batch| ==> t.bookings[batch[k]].user.Some?
    ensures var u := NoShowPass(c, t, batch, now, locked);
            && QueueShrinks(t.waitlist, u.waitlist)
            && forall j :: |t.bookings| <= j < |u.bookings| ==> IsOffer(c, t, u.bookings[j], now)
  {
    if |batch| > 0 {
      var n := |batch| - 1;
      var u, x := NoShowPass(c, t, batch[..n], now, locked), batch[n];
      NoShowPassRows(c, t, batch[..n], now, locked);
      var v := Announced(Released(c, Logged(u, x, Confirmed, NoShow), x), BookingNoShow, x);
      assert v.bookings == u.bookings && v.waitlist == u.waitlist;
      PassStepRows(c, t, u, v, x, now, locked);
    }
  }

  /** The row a valid request asks for. */
  ghost predicate IsRequested(c: Campus, r: Request, now: Instant, row: Booking)
  {
    && r.facility in c.facilities
    && Validate(c.facilities[r.facility], c.zone, r.user, r.start, r.duration, now) == None
    && row.facility == r.facility && row.user == Some(r.user) && row.start == r.start && row.end == r.start + r.duration
    && row.status == Confirmed
  }

  ghost predicate RowHasCause(c: Campus, t: Tables, call: Call, row: Booking)
  {
    match call
    case DoCreate(r, now, _) => IsRequested(c, r, now, row)
    case DoCreateClosure(f, _, start, end) =>
      row.user == None && row.status == Blocked && row.facility == f && row.start == start && row.end == end
    case DoCancel(_, _, _, now, _) => IsOffer(c, t, row, now)
    case DoSweepHolds(now, _, _) => IsOffer(c, t, row, now)
    case DoSweepCheckIns(now, _, _, _) => IsOffer(c, t, row, now)
    case _ => false
  }

  lemma OfferSameTables(c: Campus, t: Tables, u: Tables, row: Booking, now: Instant)
    requires IsOffer(c, u, row, now) && |u.bookings| == |t.bookings| && u.waitlist == t.waitlist
    requires forall i :: 0 <= i < |t.bookings| ==> SameRow(t.bookings[i], u.bookings[i])
    ensures IsOffer(c, t, row, now)
  {
    var i :| 0 <= i < |u.bookings| && SameWindow(row, u.bookings[i]);
    assert SameRow(t.bookings[i], u.bookings[i]) && SameWindow(row, t.bookings[i]);
  }

  ghost predicate Students(t: Tables, batch: seq<nat>)
  {
    InTable(batch, t) && forall k :: 0 <= k < |batch| ==> t.bookings[batch[k]].user.Some?
  }

  lemma DueAreStudents(c: Campus, t: Tables, now: Instant, batch: seq<nat>)
    requires Inv(c, t) && (AllDueHolds(t, now, batch) || AllDueNoShows(t, now, c.grace, batch))
    ensures Students(t, batch)
  {
    forall k | 0 <= k < |batch| ensures t.bookings[batch[k]].user.Some? {
      assert RowOk(c, t.bookings[batch[k]]);
    }
  }

  lemma SweepHoldsNew(c: Campus, t: Tables, batch: seq<nat>, now: Instant, locked: Locked, j: nat)
    requires Students(t, batch)
    requires |t.bookings| <= j < |SweepHolds(c, t, batch, now, locked).bookings|
    ensures IsOffer(c, t, SweepHolds(c, t, batch, now, locked).bookings[j], now)
  {
    var marked := t.(bookings := Marked(t.bookings, Ids(batch), Cancelled));
    ExpirePassRows(c, marked, batch, now, locked);
    OfferSameTables(c, t, marked, SweepHolds(c, t, batch, now, locked).bookings[j], now);
  }

  lemma ReleaseNew(c: Campus, t: Tables, batch: seq<nat>, now: Instant, locked: Locked, j: nat)
    requires RowsKnown(c, t) && Students(t, batch)
    requires |t.bookings| <= j < |ReleaseNoShows(c, t, batch, now, locked).bookings|
    ensures IsOffer(c, t, ReleaseNoShows(c, t, batch, now, locked).bookings[j], now)
  {
    var marked := t.(bookings := Marked(t.bookings, Ids(batch), NoShow));
    NoShowPassRows(c, marked, batch, now, locked);
    OfferSameTables(c, t, marked, ReleaseNoShows(c, t, batch, now, locked).bookings[j], now);
  }

  lemma SweepHoldsCallNew(c: Campus, t: Tables, call: Call, j: nat)
    requires ValidCampus(c) && Reachable(c, t) && Enabled(c, t, call) && call.DoSweepHolds?
    requires |t.bookings| <= j < |Apply(c, t, call).bookings|
    ensures IsOffer(c, t, Apply(c, t, call).bookings[j], call.now)
  {
    ReachableInv(c, t);
    BatchesDue(c, t, call);
    DueAreStudents(c, t, call.now, call.holds);
    SweepHoldsNew(c, t, call.holds, call.now, call.locked, j);
  }

  lemma SweepCheckInsNew(c: Campus, t: Tables, call: Call, j: nat)
    requires ValidCampus(c) && Reachable(c, t) && Enabled(c, t, call) && call.DoSweepCheckIns?
    requires |t.bookings| <= j < |Apply(c, t, call).bookings|
    ensures IsOffer(c, t, Apply(c, t, call).bookings[j], call.now)
  {
    ReachableInv(c, t);
    BatchesDue(c, t, call);
    CompleteIsOneByOne(c, t, call.attended, call.now);
    CompletedAlike(t, call.attended);
    DueAreStudents(c, Complete(t, call.attended), call.now, call.absent);
    ReleaseNew(c, Complete(t, call.attended), call.absent, call.now, call.locked, j);
    OfferSameTables(c, t, Complete(t, call.attended), Apply(c, t, call).bookings[j], call.now);
  }

  lemma CompletedAlike(t: Tables, attended: seq<nat>)
    ensures |Complete(t, attended).bookings| == |t.bookings| && Complete(t, attended).waitlist == t.waitlist
    ensures forall i :: 0 <= i < |t.bookings| ==> SameRow(t.bookings[i], Complete(t, attended).bookings[i])
  {
    CompletedRows(t, attended);
  }

  lemma CancelNew(c: Campus, t: Tables, i: nat, actor: UserId, manager: bool, now: Instant, locked: Locked, j: nat)
    requires ValidCampus(c) && Reachable(c, t) && (i < |t.bookings| ==> t.bookings[i].facility in c.facilities)
    requires |t.bookings| <= j < |Cancel(c, t, i, actor, manager, now, locked).tables.bookings|
    ensures IsOffer(c, t, Cancel(c, t, i, actor, manager, now, locked).tables.bookings[j], now)
  {
    CancelExact(c, t, i, actor, manager, now, locked);
    CancelledShape(c, t, i, actor, manager, now, locked);
    CancelledNew(c, t, i, now, locked, j);
  }

  lemma CancelledNew(c: Campus, t: Tables, i: nat, now: Instant, locked: Locked, j: nat)
    requires i < |t.bookings| && t.bookings[i].facility in c.facilities && t.bookings[i].user.Some?
    requires |t.bookings| <= j < |CancelledTables(c, t, i, now, locked).bookings|
    ensures IsOffer(c, t, CancelledTables(c, t, i, now, locked).bookings[j], now)
  {
    var b := t.bookings[i];
    var freed := Logged(Released(c, t.(bookings := Marked(t.bookings, {i}, Cancelled)), i), i, Confirmed, Cancelled);
    PromotedRow(c, freed, b.facility, b.start, b.end, now, locked);
    var row := CancelledTables(c, t, i, now, locked).bookings[j];
    OfferBefore(c, freed, freed, row, now, i);
    OfferSameTables(c, t, freed, row, now);
  }

  lemma CreateNew(c: Campus, t: Tables, r: Request, now: Instant, ks: seq<Conditions>, j: nat)
    requires ValidCampus(c) && |t.bookings| <= j < |Create(c, t, r, now, ks).tables.bookings|
    ensures IsRequested(c, r, now, Create(c, t, r, now, ks).tables.bookings[j])
  {
    CreateExact(c, t, r, now, ks);
    CreateEffect(c, t, r, now, ks);
  }

  lemma ClosureNew(c: Campus, t: Tables, call: Call, j: nat)
    requires Enabled(c, t, call) && call.DoCreateClosure? && |t.bookings| <= j < |Apply(c, t, call).bookings|
    ensures RowHasCause(c, t, call, Apply(c, t, call).bookings[j])
  {
    CreateClosureExact(c, t, call.facility, call.actor, call.start, call.end);
    ClosureEffect(c, t, call.facility, call.actor, call.start, call.end);
  }

  /** Every new row was asked for in a request that passed validation, or is a closure, or is an
      offer of a standing row's window to somebody who was waiting for it. */
  lemma EveryRowHasItsCause(c: Campus, t: Tables, call: Call, j: nat)
    requires ValidCampus(c) && Reachable(c, t) && Enabled(c, t, call)
    requires |t.bookings| <= j < |Apply(c, t, call).bookings|
    ensures RowHasCause(c, t, call, Apply(c, t, call).bookings[j])
  {
    match call
    case DoCreate(r, now, ks) => CreateNew(c, t, r, now, ks, j);
    case DoCreateClosure(f, actor, start, end) => ClosureNew(c, t, call, j);
    case DoCancel(i, actor, manager, now, locked) => CancelNew(c, t, i, actor, manager, now, locked, j);
    case DoSweepHolds(now, locked, holds) => SweepHoldsCallNew(c, t, call, j);
    case DoSweepCheckIns(now, locked, attended, absent) => SweepCheckInsNew(c, t, call, j);
    case DoClaim(i, actor, now) => ClaimExact(t, i, actor, now);
    case DoReopen(i, actor) => ReopenExact(c, t, i, actor);
    case _ =>
  }

  /** A student's row is inside its facility's opening hours on one local day, and within its
      duration limits. */
  ghost predicate InHours(c: Campus, b: Booking)
  {
    b.user.Some? ==>
      && b.facility in c.facilities
      && WithinHours(c.facilities[b.facility], c.zone, b.start, b.end)
      && c.facilities[b.facility].minDuration <= b.end - b.start <= c.facilities[b.facility].maxDuration
  }

  ghost predicate AllInHours(c: Campus, t: Tables)
  {
    forall i :: 0 <= i < |t.bookings| ==> InHours(c, t.bookings[i])
  }

  lemma NewInHours(c: Campus, t: Tables, call: Call, row: Booking)
    requires AllInHours(c, t) && RowHasCause(c, t, call, row)
    ensures InHours(c, row)
  {
    match call
    case DoCreate(r, now, _) =>
      ValidateExact(c.facilities[r.facility], c.zone, r.user, r.start, r.duration, now);
    case DoCancel(_, _, _, now, _) => OfferInHours(c, t, row, now);
    case DoSweepHolds(now, _, _) => OfferInHours(c, t, row, now);
    case DoSweepCheckIns(now, _, _, _) => OfferInHours(c, t, row, now);
    case _ =>
  }

  lemma OfferInHours(c: Campus, t: Tables, row: Booking, now: Instant)
    requires AllInHours(c, t) && IsOffer(c, t, row, now)
    ensures InHours(c, row)
  {
    var i :| 0 <= i < |t.bookings| && SameWindow(row, t.bookings[i]);
    assert InHours(c, t.bookings[i]);
  }

  /** In every state of every run every student's row, courts and promoted holds included, lies
      within opening hours and duration limits. */
  lemma {:induction false} RowsStayInHours(c: Campus, states: seq<Tables>, acts: seq<Act>, k: nat)
    requires ValidCampus(c) && Run(c, states, acts) && k <= |acts|
    ensures AllInHours(c, states[k])
  {
    if k > 0 {
      RowsStayInHours(c, states, acts, k - 1);
      assert Next(c, states[k - 1], acts[k - 1], states[k]);
      if acts[k - 1].committed {
        RunReaches(c, states, acts, k - 1);
        OneExtends(c, states, acts, k - 1);
        forall i | 0 <= i < |states[k].bookings| ensures InHours(c, states[k].bookings[i]) {
          if i < |states[k - 1].bookings| {
            assert SameRow(states[k - 1].bookings[i], states[k].bookings[i]);
          } else {
            EveryRowHasItsCause(c, states[k - 1], acts[k - 1].call, i);
            NewInHours(c, states[k - 1], acts[k - 1].call, states[k].bookings[i]);
          }
        }
      }
    }
  }
}
