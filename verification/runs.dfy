/** Every run of the system: any number of calls, in any order, each committed or
    aborted. The theorems are about every state such a run can reach. */
module Runs {
  import opened Model
  import opened Grid
  import opened Statements
  import opened Transitions
  import opened Invariants
  import opened CounterLemmas
  import opened Preservation
  import opened Batches

  datatype Act = Act(call: Call, committed: bool)

  /** One call against the tables; an aborted transaction leaves them as they were. */
  ghost predicate Next(c: Campus, t: Tables, act: Act, t': Tables)
  {
    Enabled(c, t, act.call) && t' == if act.committed then Apply(c, t, act.call) else t
  }

  ghost predicate Run(c: Campus, states: seq<Tables>, acts: seq<Act>)
  {
    && |states| == |acts| + 1 && states[0] == EMPTY
    && forall k :: 0 <= k < |acts| ==> Next(c, states[k], acts[k], states[k + 1])
  }

  ghost predicate Reachable(c: Campus, t: Tables)
  {
    exists states, acts :: Run(c, states, acts) && states[|acts|] == t
  }

  // ---------------------------------------------------------------- the invariant

  lemma EmptyInv(c: Campus)
    ensures Inv(c, EMPTY)
  {
  }

  lemma InvRowsKnown(c: Campus, t: Tables)
    requires Inv(c, t)
    ensures RowsKnown(c, t)
  {
    forall i | 0 <= i < |t.bookings| ensures t.bookings[i].facility in c.facilities { assert RowOk(c, t.bookings[i]); }
  }

  lemma InvHeldChecks(c: Campus, t: Tables)
    requires Inv(c, t)
    ensures forall i :: 0 <= i < |t.bookings| ==> HeldCheck(t.bookings[i])
  {
    forall i | 0 <= i < |t.bookings| ensures HeldCheck(t.bookings[i]) { assert RowOk(c, t.bookings[i]); }
  }

  lemma ApplyInv(c: Campus, t: Tables, call: Call)
    requires ValidCampus(c) && Inv(c, t) && Enabled(c, t, call)
    ensures Inv(c, Apply(c, t, call))
  {
    BatchesDue(c, t, call);
    match call
    case DoCreate(r, now, ks) => CreateInv(c, t, r, now, ks);
    case DoCancel(i, actor, manager, now, locked) => CancelInv(c, t, i, actor, manager, now, locked);
    case DoClaim(i, actor, now) => ClaimInv(c, t, i, actor, now);
    case DoJoin(user, f, start, end, priority) => JoinInv(c, t, user, f, start, end, priority);
    case DoLeave(w, actor) => LeaveInv(c, t, w, actor);
    case DoSweepHolds(now, locked, holds) => SweepHoldsIsOneByOne(c, t, holds, now, locked);
    case DoRedeem(i, actor, ok, now) => RedeemInv(c, t, i, actor, ok, now);
    case DoSweepCheckIns(now, locked, attended, absent) =>
      CompleteIsOneByOne(c, t, attended, now);
      ReleaseNoShowsIsOneByOne(c, Complete(t, attended), absent, now, locked);
    case DoCreateClosure(f, actor, start, end) => CreateClosureInv(c, t, f, actor, start, end);
    case DoReopen(i, actor) => ReopenInv(c, t, i, actor);
  }

  lemma {:induction false} RunInv(c: Campus, states: seq<Tables>, acts: seq<Act>, k: nat)
    requires ValidCampus(c) && Run(c, states, acts) && k <= |acts|
    ensures Inv(c, states[k])
  {
    if k == 0 {
      EmptyInv(c);
    } else {
      RunInv(c, states, acts, k - 1);
      assert Next(c, states[k - 1], acts[k - 1], states[k]);
      ApplyInv(c, states[k - 1], acts[k - 1].call);
    }
  }

  lemma ReachableInv(c: Campus, t: Tables)
    requires ValidCampus(c) && Reachable(c, t)
    ensures Inv(c, t)
  {
    var states, acts :| Run(c, states, acts) && states[|acts|] == t;
    RunInv(c, states, acts, |acts|);
  }

  lemma EmptyIsReachable(c: Campus)
    ensures Reachable(c, EMPTY)
  {
    assert Run(c, [EMPTY], []);
  }

  /** One more call, committed, from a reachable state. */
  lemma CallReaches(c: Campus, t: Tables, call: Call)
    requires Reachable(c, t) && Enabled(c, t, call)
    ensures Reachable(c, Apply(c, t, call))
  {
    var states, acts :| Run(c, states, acts) && states[|acts|] == t;
    var act, u := Act(call, true), Apply(c, t, call);
    var more, done := states + [u], acts + [act];
    forall k | 0 <= k < |done| ensures Next(c, more[k], done[k], more[k + 1]) {
      if k < |acts| {
        assert Next(c, states[k], acts[k], states[k + 1]);
      }
    }
    assert Run(c, more, done) && more[|done|] == u;
  }

  /** A call that has no batch to select can be made in every reachable state. */
  lemma CallReachesFrom(c: Campus, t: Tables, call: Call)
    requires ValidCampus(c) && Reachable(c, t)
    requires !call.DoSweepHolds? && !call.DoSweepCheckIns? && (call.DoCreate? ==> |call.conditions| == MAX_ATTEMPTS)
    ensures Enabled(c, t, call) && Reachable(c, Apply(c, t, call))
  {
    ReachableInv(c, t);
    InvRowsKnown(c, t);
    CallReaches(c, t, call);
  }

  // ------------------------------------------------------------ no double booking

  /** No two exclusive CONFIRMED, HELD or BLOCKED rows of one facility ever overlap. */
  lemma NoDoubleBookingEver(c: Campus, t: Tables, i: nat, j: nat)
    requires ValidCampus(c) && Reachable(c, t) && i < |t.bookings| && j < |t.bookings| && i != j
    requires t.bookings[i].facility == t.bookings[j].facility && Holding(t.bookings[i]) && Holding(t.bookings[j])
    ensures t.bookings[i].end <= t.bookings[j].start || t.bookings[j].end <= t.bookings[i].start
  {
    ReachableInv(c, t);
    if i < j { assert Apart(t.bookings[i], t.bookings[j]); } else { assert Apart(t.bookings[j], t.bookings[i]); }
  }

  // ---------------------------------------------------------- counter conservation

  /** The confirmed and completed bookings that take a place in block k. */
  ghost function PlacesTaken(c: Campus, t: Tables, k: SlotKey): nat
  {
    |Holders(c, t.bookings, k)|
  }

  ghost predicate ClosureOver(c: Campus, t: Tables, k: SlotKey)
    requires k.facility in c.facilities
  {
    BlockedOver(t.bookings, k.facility, k.start, k.start + c.facilities[k.facility].granularity)
  }

  /** Counter conservation, in every reachable state and for every block. */
  lemma CounterConservation(c: Campus, t: Tables, k: SlotKey)
    requires ValidCampus(c) && Reachable(c, t) && k.facility in c.facilities && !c.facilities[k.facility].exclusive
    ensures var declared := c.facilities[k.facility].capacity;
            if k in t.capacity then
              && t.capacity[k].booked == PlacesTaken(c, t, k) <= declared
              && (t.capacity[k].capacity == 0 <==> ClosureOver(c, t, k))
              && (t.capacity[k].capacity != 0 ==> t.capacity[k].capacity == declared)
            else
              && PlacesTaken(c, t, k) == 0
              && (IsBlock(c.facilities[k.facility], c.zone, k.start) ==> !ClosureOver(c, t, k))
  {
    ReachableInv(c, t);
    assert CounterOk(c, t.bookings, t.capacity, k);
  }

  /** A cancel, or the first release of a sweep, finds every counter of the booking positive. */
  lemma ReleaseFindsPlaces(c: Campus, t: Tables, i: nat, k: SlotKey)
    requires ValidCampus(c) && Reachable(c, t) && i < |t.bookings| && t.bookings[i].status == Confirmed
    requires TakesPlace(c, t.bookings[i], k)
    ensures k in t.capacity && t.capacity[k].booked > 0
  {
    ReachableInv(c, t);
    CountersReleased(c, t, i, Cancelled);
  }

  /** So does every later release of the same check-in sweep. */
  lemma SweepFindsPlaces(c: Campus, t: Tables, batch: seq<nat>, n: nat, now: Instant, locked: Locked, k: SlotKey)
    requires ValidCampus(c) && Inv(c, t) && RowsKnown(c, t) && AllDueNoShows(t, now, c.grace, batch) && n < |batch|
    requires TakesPlace(c, t.bookings[batch[n]], k)
    ensures var marked := t.(bookings := Marked(t.bookings, Ids(batch), NoShow));
            && InTable(batch[..n], marked) && RowsKnown(c, marked)
            && var midway := NoShowPass(c, marked, batch[..n], now, locked);
               k in midway.capacity && midway.capacity[k].booked > 0
  {
    var q, rest := batch[..n], Ids(batch[n..]);
    var x := batch[n];
    assert batch == q + batch[n..];
    assert Ids(batch) == Ids(q) + rest;
    assert rest !! Ids(q);
    assert AllDueNoShows(t, now, c.grace, q);
    forall i | i in rest ensures i < |t.bookings| {
      var j :| 0 <= j < |batch[n..]| && batch[n..][j] == i;
      assert batch[n + j] == i;
    }
    assert x !in Ids(q);
    NoShowPassIsEach(c, t, q, rest, now, locked);
    NoShowEachInv(c, t, q, now, locked);
    var u := NoShowEach(c, t, q, now, locked);
    assert u.bookings[x] == t.bookings[x];
    CountersReleased(c, u, x, NoShow);
  }

  // ----------------------------------------------------------- closed means closed

  /** While a closure stands over any part of it, no booking of a shared window succeeds,
      whatever other closures overlap it and however the attempts go. */
  lemma ClosedMeansClosed(c: Campus, t: Tables, r: Request, now: Instant, ks: seq<Conditions>, i: nat)
    requires ValidCampus(c) && Reachable(c, t)
    requires r.facility in c.facilities && !c.facilities[r.facility].exclusive
    requires i < |t.bookings| && t.bookings[i].status == Blocked && t.bookings[i].facility == r.facility
    requires Overlaps(t.bookings[i].start, t.bookings[i].end, r.start, r.start + r.duration)
    ensures Create(c, t, r, now, ks).tables == t
    ensures !Create(c, t, r, now, ks).outcome.Created?
  {
    ReachableInv(c, t);
    var f := c.facilities[r.facility];
    if Validate(f, c.zone, r.user, r.start, r.duration, now) == None {
      ClosedTakeFails(c, t, r, now, i);
      FullAttempts(f, t, r, ks);
    }
  }

  /** The window shares a block with the closure, whose counter is at zero. */
  lemma ClosedTakeFails(c: Campus, t: Tables, r: Request, now: Instant, i: nat)
    requires ValidCampus(c) && Rows(c, t.bookings) && Counters(c, t.bookings, t.capacity)
    requires r.facility in c.facilities && !c.facilities[r.facility].exclusive
    requires i < |t.bookings| && t.bookings[i].status == Blocked && t.bookings[i].facility == r.facility
    requires Overlaps(t.bookings[i].start, t.bookings[i].end, r.start, r.start + r.duration)
    requires Validate(c.facilities[r.facility], c.zone, r.user, r.start, r.duration, now) == None
    ensures var f := c.facilities[r.facility];
            TakeAll(t.capacity, r.facility, SlotsFor(f.granularity, r.start, r.start + r.duration), f.capacity).None?
  {
    var f, b, end := c.facilities[r.facility], t.bookings[i], r.start + r.duration;
    assert RowOk(c, b);
    ValidateOnGrid(f, c.zone, r.user, r.start, r.duration, now);
    var x := SharesBlock(f, c.zone, r.start, end, b.start, b.end);
    ClosureSlotsExact(f, c.zone, b.start, b.end, x);
    ClosedBlockIsFull(c, t, i, SlotKey(r.facility, x));
    BookingBlocks(c, RowOf(r, false));
    TakeAllFails(t.capacity, r.facility, SlotsFor(f.granularity, r.start, end), f.capacity, f.granularity);
  }

  lemma ClosedBlockIsFull(c: Campus, t: Tables, i: nat, k: SlotKey)
    requires ValidCampus(c) && Counters(c, t.bookings, t.capacity) && i < |t.bookings| && t.bookings[i].status == Blocked
    requires t.bookings[i].facility == k.facility && k.facility in c.facilities && !c.facilities[k.facility].exclusive
    requires IsBlock(c.facilities[k.facility], c.zone, k.start)
    requires Overlaps(k.start, k.start + c.facilities[k.facility].granularity, t.bookings[i].start, t.bookings[i].end)
    ensures k in t.capacity && t.capacity[k].booked >= t.capacity[k].capacity
  {
    assert CounterOk(c, t.bookings, t.capacity, k);
  }

  lemma {:induction false} FullAttempts(f: Facility, t: Tables, r: Request, ks: seq<Conditions>)
    requires !f.exclusive
    requires TakeAll(t.capacity, r.facility, SlotsFor(f.granularity, r.start, r.start + r.duration), f.capacity).None?
    ensures Attempts(f, t, r, ks).tables == t && !Attempts(f, t, r, ks).outcome.Created?
    decreases |ks|
  {
    if |ks| > 0 { FullAttempts(f, t, r, ks[1..]); }
  }

  // ------------------------------------------------------------------- audit log

  /** How far along the lifecycle a status is. */
  function Rank(s: Option<Status>): nat
  {
    match s
    case None => 0
    case Some(Held) => 1
    case Some(Blocked) => 1
    case Some(Confirmed) => 2
    case Some(_) => 3
  }

  lemma {:induction false} ChainedAt(events: seq<Event>, k: nat)
    requires Chained(events) && k < |events|
    ensures events[k].from == LoggedStatus(events[..k], events[k].booking) && Lawful(events[k].from, events[k].to)
  {
    if k < |events| - 1 {
      ChainedAt(events[..|events| - 1], k);
      assert events[..|events| - 1][..k] == events[..k];
    }
  }

  lemma {:induction false} RankReached(events: seq<Event>, k: nat)
    requires Chained(events) && k < |events|
    ensures Rank(Some(events[k].to)) <= Rank(LoggedStatus(events, events[k].booking))
  {
    if k < |events| - 1 {
      RankReached(events[..|events| - 1], k);
    }
  }

  lemma ChainedPrefix(events: seq<Event>, k: nat)
    requires Chained(events) && k <= |events|
    ensures Chained(events[..k])
    decreases |events|
  {
    if k < |events| {
      ChainedPrefix(events[..|events| - 1], k);
      assert events[..|events| - 1][..k] == events[..k];
    } else {
      assert events[..k] == events;
    }
  }

  /** A booking never takes the same step twice: later steps are strictly further along. */
  lemma StepsDiffer(events: seq<Event>, j: nat, k: nat)
    requires Chained(events) && j < k < |events| && events[j].booking == events[k].booking
    ensures Rank(Some(events[j].to)) < Rank(Some(events[k].to))
  {
    ChainedAt(events, k);
    ChainedPrefix(events, k);
    RankReached(events[..k], j);
  }

  /** The audit log determines the table, and each of its steps is lawful and starts where
      the previous step of the same booking ended. */
  lemma AuditRefinesTable(c: Campus, t: Tables)
    requires ValidCampus(c) && Reachable(c, t)
    ensures forall i: nat :: i < |t.bookings| ==> LoggedStatus(t.events, i) == Some(t.bookings[i].status)
    ensures forall k :: 0 <= k < |t.events| ==>
              var e := t.events[k];
              e.booking < |t.bookings| && e.from == LoggedStatus(t.events[..k], e.booking) && Lawful(e.from, e.to)
    ensures forall j, k :: 0 <= j < k < |t.events| && t.events[j].booking == t.events[k].booking ==>
              t.events[j].to != t.events[k].to
  {
    ReachableInv(c, t);
    forall k | 0 <= k < |t.events|
      ensures t.events[k].from == LoggedStatus(t.events[..k], t.events[k].booking) && Lawful(t.events[k].from, t.events[k].to)
    {
      ChainedAt(t.events, k);
    }
    forall j, k | 0 <= j < k < |t.events| && t.events[j].booking == t.events[k].booking
      ensures t.events[j].to != t.events[k].to
    {
      StepsDiffer(t.events, j, k);
    }
  }

  /** The status a booking reaches by the transition that owes this topic. */
  function Target(topic: Topic): Status
  {
    match topic
    case BookingConfirmed => Confirmed
    case WaitlistPromoted => Held
    case ClosureCreated => Blocked
    case BookingNoShow => NoShow
    case BookingCancelled => Cancelled
    case WaitlistExpired => Cancelled
  }

  lemma {:induction false} OwedOnce(events: seq<Event>, i: nat, topic: Topic)
    requires Chained(events)
    ensures Owed(events, i, topic) <= 1
    ensures Owed(events, i, topic) == 1 ==> Rank(Some(Target(topic))) <= Rank(LoggedStatus(events, i))
    ensures Owed(events, i, topic) == 1 <==> exists k :: 0 <= k < |events| && events[k].booking == i && TopicOf(events[k]) == Some(topic)
  {
    if |events| > 0 {
      var n := |events| - 1;
      OwedOnce(events[..n], i, topic);
      if exists k :: 0 <= k < n && events[k].booking == i && TopicOf(events[k]) == Some(topic) {
        var k :| 0 <= k < n && events[k].booking == i && TopicOf(events[k]) == Some(topic);
        assert events[..n][k] == events[k];
      }
    }
  }

  /** Each transition's outbox row is written exactly once: there is one row with this topic
      about this booking if the log holds a transition that owes it, and none otherwise. */
  lemma AnnouncedExactlyOnce(c: Campus, t: Tables, i: nat, topic: Topic)
    requires ValidCampus(c) && Reachable(c, t)
    ensures Sent(t.outbox, i, topic) ==
            if exists k :: 0 <= k < |t.events| && t.events[k].booking == i && TopicOf(t.events[k]) == Some(topic) then 1 else 0
  {
    ReachableInv(c, t);
    OwedOnce(t.events, i, topic);
  }

  // --------------------------------------------------------------- offer linkage

  /** The offers and the holds are the same thing seen from two tables. */
  lemma OfferLinkage(c: Campus, t: Tables)
    requires ValidCampus(c) && Reachable(c, t)
    ensures forall i: nat :: i < |t.bookings| && t.bookings[i].status == Held ==>
              exists w :: 0 <= w < |t.waitlist| && t.waitlist[w].booking == Some(i) && t.waitlist[w].status == Promoted
                && t.bookings[i].user == Some(t.waitlist[w].user) && t.bookings[i].facility == t.waitlist[w].facility
    ensures forall v, w :: 0 <= v < w < |t.waitlist| && t.waitlist[v].booking.Some? ==>
              t.waitlist[v].booking != t.waitlist[w].booking
    ensures forall w :: 0 <= w < |t.waitlist| && t.waitlist[w].booking.Some? ==>
              var e := t.waitlist[w];
              && e.booking.value < |t.bookings|
              && (e.status == Promoted <==> t.bookings[e.booking.value].status == Held)
              && (t.bookings[e.booking.value].status == Confirmed ==> e.status == EntryStatus.Claimed)
              && (e.status == Expired ==> t.bookings[e.booking.value].status == Cancelled)
  {
    ReachableInv(c, t);
    forall i: nat | i < |t.bookings| && t.bookings[i].status == Held
      ensures exists w :: 0 <= w < |t.waitlist| && t.waitlist[w].booking == Some(i) && t.waitlist[w].status == Promoted
                && t.bookings[i].user == Some(t.waitlist[w].user) && t.bookings[i].facility == t.waitlist[w].facility
    {
      assert Offers(t.waitlist, i);
      var w :| 0 <= w < |t.waitlist| && t.waitlist[w].booking == Some(i);
      assert EntryOk(c, t.bookings, t.waitlist[w]);
    }
    forall w | 0 <= w < |t.waitlist| && t.waitlist[w].booking.Some?
      ensures var e := t.waitlist[w];
              && e.booking.value < |t.bookings|
              && (e.status == Promoted <==> t.bookings[e.booking.value].status == Held)
              && (t.bookings[e.booking.value].status == Confirmed ==> e.status == EntryStatus.Claimed)
              && (e.status == Expired ==> t.bookings[e.booking.value].status == Cancelled)
    {
      assert EntryOk(c, t.bookings, t.waitlist[w]);
    }
  }

  /** In every reachable state an authorised cancel of a row its UPDATE matches aborts if and
      only if the row is HELD: the UPDATE leaves held_until behind and the CHECK refuses. A
      hold therefore ends only by being claimed or by expiring. */
  lemma CancelNeverEndsAHold(c: Campus, t: Tables, i: nat, actor: UserId, manager: bool, now: Instant, locked: Locked)
    requires ValidCampus(c) && Reachable(c, t) && i < |t.bookings| && t.bookings[i].facility in c.facilities
    requires actor != NIL_USER && (t.bookings[i].user == Some(actor) || manager)
    ensures Cancel(c, t, i, actor, manager, now, locked) == Step(t, Aborted) <==> t.bookings[i].status == Held
    ensures Cancel(c, t, i, actor, manager, now, locked).outcome.Done? <==> t.bookings[i].status == Confirmed
  {
    ReachableInv(c, t);
    assert RowOk(c, t.bookings[i]);
  }

  /** The other status updates that leave held_until alone (booking_mark_no_show,
      booking_complete_attended, closure_reopen) match no HELD row: they satisfy the CHECK,
      and are the same as clearing it. */
  lemma StatusUpdatesPassTheCheck(c: Campus, t: Tables, ids: set<nat>, to: Status)
    requires ValidCampus(c) && Reachable(c, t) && to != Held
    requires forall i :: i in ids ==> i < |t.bookings| && (t.bookings[i].status == Confirmed || t.bookings[i].status == Blocked)
    ensures forall i :: i in ids ==> HeldCheck(t.bookings[i].(status := to))
    ensures forall i :: i in ids ==> Marked(t.bookings, ids, to)[i] == t.bookings[i].(status := to)
  {
    ReachableInv(c, t);
    forall i | i in ids ensures t.bookings[i].heldUntil == None {
      assert RowOk(c, t.bookings[i]);
    }
  }

  // ------------------------------------------------------------ idempotent create

  ghost predicate OwnsKey(t: Tables, r: Request, j: nat)
  {
    j < |t.bookings| && r.key != "" && t.bookings[j].user == Some(r.user) && t.bookings[j].key == Some(r.key)
  }

  lemma FindKeyFinds(t: Tables, r: Request, j: nat)
    requires KeysUnique(t.bookings) && OwnsKey(t, r, j)
    ensures FindKey(t.bookings, Some(r.user), KeyOf(r)) == Some(j)
  {
  }

  /** The bounded attempts commit at most once: the tables are the old ones, or the old ones
      with one new row, one event and one outbox row. */
  lemma {:induction false} AtMostOneAttemptCommits(f: Facility, t: Tables, r: Request, ks: seq<Conditions>)
    ensures var s := Attempts(f, t, r, ks);
            if s.outcome.Created? then
              exists cap :: s.tables == Opened(t.(capacity := cap), RowOf(r, f.exclusive), BookingConfirmed)
            else s.tables == t
    decreases |ks|
  {
    if |ks| > 0 {
      if f.exclusive {
        assert t.(capacity := t.capacity) == t;
      }
      AtMostOneAttemptCommits(f, t, r, ks[1..]);
    }
  }

  /** A Create that answers with a booking for a used key answers with the row that has it. */
  lemma {:induction false} UsedKeyReturnsItsRow(f: Facility, t: Tables, r: Request, ks: seq<Conditions>, j: nat)
    requires KeysUnique(t.bookings) && OwnsKey(t, r, j)
    ensures var s := Attempts(f, t, r, ks);
            && s.tables == t
            && !s.outcome.Created? && (s.outcome.Replayed? ==> s.outcome.id == j)
    decreases |ks|
  {
    if |ks| > 0 {
      FindKeyFinds(t, r, j);
      UsedKeyReturnsItsRow(f, t, r, ks[1..], j);
    }
  }

  /** The attempt that decides: every one before it ended in a deadlock it retried. */
  function Deciding(ks: seq<Conditions>): Option<Conditions>
  {
    if |ks| == 0 then None
    else if ks[0].fault != Deadlock then Some(ks[0])
    else if ks[0].contextDone then None
    else Deciding(ks[1..])
  }

  /** Exactly when a replay returns the original: some attempt is not lost to a deadlock, it
      does not time out, the fair-use gate lets it through and, on a shared facility, no
      block of the window is full. */
  lemma {:induction false} AttemptsReplayIff(f: Facility, t: Tables, r: Request, ks: seq<Conditions>, j: nat)
    requires KeysUnique(t.bookings) && OwnsKey(t, r, j)
    ensures Attempts(f, t, r, ks) == Step(t, Replayed(j)) <==>
            && Deciding(ks).Some? && Deciding(ks).value.fault == NoFault && !Deciding(ks).value.policyRefuses
            && (f.exclusive || TakeAll(t.capacity, r.facility, SlotsFor(f.granularity, r.start, r.start + r.duration), f.capacity).Some?)
    decreases |ks|
  {
    if |ks| > 0 {
      FindKeyFinds(t, r, j);
      AttemptsReplayIff(f, t, r, ks[1..], j);
    }
  }

  /** Every block of the window has a counter below its capacity, or none yet. */
  ghost predicate RoomFor(t: Tables, f: Facility, r: Request)
  {
    forall x :: Has(SlotsFor(f.granularity, r.start, r.start + r.duration), x) && SlotKey(r.facility, x) in t.capacity ==>
      t.capacity[SlotKey(r.facility, x)].booked < t.capacity[SlotKey(r.facility, x)].capacity
  }

  lemma RoomIsTakeable(c: Campus, t: Tables, r: Request, now: Instant)
    requires ValidCampus(c) && r.facility in c.facilities && !c.facilities[r.facility].exclusive
    requires Validate(c.facilities[r.facility], c.zone, r.user, r.start, r.duration, now) == None
    ensures var f := c.facilities[r.facility];
            TakeAll(t.capacity, r.facility, SlotsFor(f.granularity, r.start, r.start + r.duration), f.capacity).Some? <==> RoomFor(t, f, r)
  {
    var f := c.facilities[r.facility];
    ValidateOnGrid(f, c.zone, r.user, r.start, r.duration, now);
    BookingBlocks(c, RowOf(r, false));
    TakeAllFails(t.capacity, r.facility, SlotsFor(f.granularity, r.start, r.start + r.duration), f.capacity, f.granularity);
  }

  /** In a reachable state there is room exactly where fewer bookings than declared hold a
      place and no closure stands. */
  lemma RoomMeansPlaces(c: Campus, t: Tables, r: Request, now: Instant)
    requires ValidCampus(c) && Reachable(c, t) && r.facility in c.facilities && !c.facilities[r.facility].exclusive
    requires Validate(c.facilities[r.facility], c.zone, r.user, r.start, r.duration, now) == None
    ensures var f := c.facilities[r.facility];
            RoomFor(t, f, r) <==> forall x :: Has(SlotsFor(f.granularity, r.start, r.start + r.duration), x) ==>
              PlacesTaken(c, t, SlotKey(r.facility, x)) < f.capacity && !ClosureOver(c, t, SlotKey(r.facility, x))
  {
    var f := c.facilities[r.facility];
    ValidateOnGrid(f, c.zone, r.user, r.start, r.duration, now);
    forall x | Has(SlotsFor(f.granularity, r.start, r.start + r.duration), x)
      ensures var k := SlotKey(r.facility, x);
              (k in t.capacity ==> t.capacity[k].booked < t.capacity[k].capacity)
              <==> PlacesTaken(c, t, k) < f.capacity && !ClosureOver(c, t, k)
    {
      OnGridBlocks(f, c.zone, r.start, r.start + r.duration, x);
      CounterConservation(c, t, SlotKey(r.facility, x));
    }
  }

  /** When a Create with a used key returns the original, in every reachable state: the request
      still passes validation, the attempt that decides is not aborted, policy admits it, and
      on a shared facility every block of the window still has room. In every other case it
      returns an error. */
  lemma ReplayExact(c: Campus, t: Tables, r: Request, now: Instant, ks: seq<Conditions>, j: nat)
    requires ValidCampus(c) && Reachable(c, t) && OwnsKey(t, r, j)
    ensures Create(c, t, r, now, ks) == Step(t, Replayed(j)) <==>
            && r.facility in c.facilities
            && var f := c.facilities[r.facility];
            && Validate(f, c.zone, r.user, r.start, r.duration, now) == None
            && Deciding(ks).Some? && Deciding(ks).value.fault == NoFault && !Deciding(ks).value.policyRefuses
            && (f.exclusive || RoomFor(t, f, r))
    ensures Create(c, t, r, now, ks).tables == t && !Create(c, t, r, now, ks).outcome.Created?
  {
    ReachableInv(c, t);
    if r.facility in c.facilities {
      var f := c.facilities[r.facility];
      UsedKeyReturnsItsRow(f, t, r, ks, j);
      if Validate(f, c.zone, r.user, r.start, r.duration, now) == None {
        AttemptsReplayIff(f, t, r, ks, j);
        if !f.exclusive {
          RoomIsTakeable(c, t, r, now);
        }
      }
    }
  }

  // ------------------------------------------------------------ history only grows

  ghost predicate SameRow(a: Booking, b: Booking)
  {
    a == b.(status := a.status, heldUntil := a.heldUntil)
  }

  ghost predicate SameEntry(a: Entry, b: Entry)
  {
    a == b.(status := a.status, booking := a.booking) && (a.booking.Some? ==> b.booking == a.booking)
  }

  /** Rows are never deleted and never change hands; the logs are append-only. */
  ghost predicate Extends(t: Tables, u: Tables)
  {
    && |t.bookings| <= |u.bookings| && (forall i :: 0 <= i < |t.bookings| ==> SameRow(t.bookings[i], u.bookings[i]))
    && |t.waitlist| <= |u.waitlist| && (forall w :: 0 <= w < |t.waitlist| ==> SameEntry(t.waitlist[w], u.waitlist[w]))
    && t.events <= u.events && t.outbox <= u.outbox && t.checkIns <= u.checkIns
  }

  lemma ExtendsTrans(t: Tables, u: Tables, v: Tables)
    requires Extends(t, u) && Extends(u, v)
    ensures Extends(t, v)
  {
    forall i | 0 <= i < |t.bookings| ensures SameRow(t.bookings[i], v.bookings[i]) {
      assert SameRow(t.bookings[i], u.bookings[i]) && SameRow(u.bookings[i], v.bookings[i]);
    }
    forall w | 0 <= w < |t.waitlist| ensures SameEntry(t.waitlist[w], v.waitlist[w]) {
      assert SameEntry(t.waitlist[w], u.waitlist[w]) && SameEntry(u.waitlist[w], v.waitlist[w]);
    }
  }

  /** A waiting entry has not been offered anything yet. */
  ghost predicate Unlinked(entries: seq<Entry>)
  {
    forall w :: 0 <= w < |entries| && entries[w].status == Waiting ==> entries[w].booking.None?
  }

  lemma InvUnlinked(c: Campus, t: Tables)
    requires Inv(c, t)
    ensures Unlinked(t.waitlist)
  {
    forall w | 0 <= w < |t.waitlist| && t.waitlist[w].status == Waiting ensures t.waitlist[w].booking.None? {
      assert EntryOk(c, t.bookings, t.waitlist[w]);
    }
  }

  lemma PromoteExtends(c: Campus, t: Tables, f: FacilityId, start: Instant, end: Instant, now: Instant, locked: Locked)
    requires Unlinked(t.waitlist)
    ensures Extends(t, Promote(c, t, f, start, end, now, locked))
  {
    ClaimHeadIsHead(t.waitlist, f, start, end, locked.entries);
  }

  /** An update of statuses, entries and counters that appends to the two logs. */
  lemma UpdateExtends(t: Tables, ids: set<nat>, to: Status, i: nat, status: EntryStatus, u: Tables)
    requires u.bookings == Marked(t.bookings, ids, to)
    requires u.waitlist == t.waitlist || u.waitlist == Retired(t.waitlist, i, status)
    requires t.events <= u.events && t.outbox <= u.outbox && t.checkIns == u.checkIns
    ensures Extends(t, u)
  {
  }

  lemma ExpireOneExtends(c: Campus, t: Tables, i: nat, now: Instant, locked: Locked)
    requires Unlinked(t.waitlist) && i < |t.bookings|
    ensures Extends(t, ExpireOne(c, t, i, now, locked))
  {
    var b := t.bookings[i];
    var u := Announced(Logged(t.(bookings := Marked(t.bookings, {i}, Cancelled), waitlist := Retired(t.waitlist, i, EntryStatus.Expired)),
                              i, Held, Cancelled), WaitlistExpired, i);
    UpdateExtends(t, {i}, Cancelled, i, EntryStatus.Expired, u);
    PromoteExtends(c, u, b.facility, b.start, b.end, now, locked);
    ExtendsTrans(t, u, ExpireOne(c, t, i, now, locked));
  }

  lemma VacateExtends(c: Campus, t: Tables, i: nat, to: Status, topic: Topic, now: Instant, locked: Locked)
    requires Unlinked(t.waitlist) && i < |t.bookings| && t.bookings[i].facility in c.facilities
    ensures Extends(t, Reoffered(c, Vacate(c, t, i, to, topic), i, now, locked))
  {
    var u := Vacate(c, t, i, to, topic);
    UpdateExtends(t, {i}, to, i, EntryStatus.Expired, u);
    PromoteExtends(c, u, t.bookings[i].facility, t.bookings[i].start, t.bookings[i].end, now, locked);
    ExtendsTrans(t, u, Reoffered(c, u, i, now, locked));
  }

  lemma NoShowOneExtends(c: Campus, t: Tables, i: nat, now: Instant, locked: Locked)
    requires Unlinked(t.waitlist) && i < |t.bookings| && t.bookings[i].facility in c.facilities
    ensures Extends(t, NoShowOne(c, t, i, now, locked))
  {
    assert NoShowOne(c, t, i, now, locked) == Reoffered(c, Vacate(c, t, i, NoShow, BookingNoShow), i, now, locked);
    VacateExtends(c, t, i, NoShow, BookingNoShow, now, locked);
  }

  lemma {:induction false} ExpireEachExtends(c: Campus, t: Tables, batch: seq<nat>, now: Instant, locked: Locked)
    requires Inv(c, t) && AllDueHolds(t, now, batch)
    ensures Extends(t, ExpireEach(c, t, batch, now, locked))
  {
    if |batch| > 0 {
      var n := |batch| - 1;
      var x, q := batch[n], batch[..n];
      IdsLast(batch);
      assert AllDueHolds(t, now, q);
      ExpireEachInv(c, t, q, now, locked);
      ExpireEachExtends(c, t, q, now, locked);
      var u := ExpireEach(c, t, q, now, locked);
      assert u.bookings[x] == t.bookings[x];
      InvUnlinked(c, u);
      ExpireOneExtends(c, u, x, now, locked);
      ExtendsTrans(t, u, ExpireOne(c, u, x, now, locked));
    }
  }

  lemma {:induction false} NoShowEachExtends(c: Campus, t: Tables, batch: seq<nat>, now: Instant, locked: Locked)
    requires ValidCampus(c) && Inv(c, t) && RowsKnown(c, t) && AllDueNoShows(t, now, c.grace, batch)
    ensures Extends(t, NoShowEach(c, t, batch, now, locked))
  {
    if |batch| > 0 {
      var n := |batch| - 1;
      var x, q := batch[n], batch[..n];
      IdsLast(batch);
      assert AllDueNoShows(t, now, c.grace, q);
      NoShowEachInv(c, t, q, now, locked);
      NoShowEachExtends(c, t, q, now, locked);
      var u := NoShowEach(c, t, q, now, locked);
      assert u.bookings[x] == t.bookings[x];
      InvUnlinked(c, u);
      InvRowsKnown(c, u);
      NoShowOneExtends(c, u, x, now, locked);
      ExtendsTrans(t, u, NoShowOne(c, u, x, now, locked));
    }
  }

  lemma {:induction false} CompletePassExtends(t: Tables, batch: seq<nat>)
    ensures Extends(t, CompletePass(t, batch))
  {
    CompletePassBookings(t, batch);
    if |batch| > 0 { CompletePassExtends(t, batch[..|batch| - 1]); }
  }

  lemma CancelExtends(c: Campus, t: Tables, i: nat, actor: UserId, manager: bool, now: Instant, locked: Locked)
    requires Unlinked(t.waitlist) && (i < |t.bookings| ==> t.bookings[i].facility in c.facilities && HeldCheck(t.bookings[i]))
    ensures Extends(t, Cancel(c, t, i, actor, manager, now, locked).tables)
  {
    if Cancel(c, t, i, actor, manager, now, locked).outcome.Done? {
      CancelDone(c, t, i, actor, manager, now, locked);
      VacateExtends(c, t, i, Cancelled, BookingCancelled, now, locked);
      CancelIsVacate(c, t, i, now, locked);
    }
  }

  lemma SweepHoldsExtends(c: Campus, t: Tables, holds: seq<nat>, now: Instant, locked: Locked)
    requires Inv(c, t) && AllDueHolds(t, now, holds)
    ensures Extends(t, SweepHolds(c, t, holds, now, locked))
  {
    SweepHoldsIsOneByOne(c, t, holds, now, locked);
    ExpireEachExtends(c, t, holds, now, locked);
  }

  lemma CompleteExtends(t: Tables, attended: seq<nat>)
    ensures Extends(t, Complete(t, attended))
  {
    var marked := t.(bookings := Marked(t.bookings, Ids(attended), Completed));
    CompletePassExtends(marked, attended);
    UpdateExtends(t, Ids(attended), Completed, 0, EntryStatus.Expired, marked);
    ExtendsTrans(t, marked, Complete(t, attended));
  }

  lemma ReleaseNoShowsExtends(c: Campus, t: Tables, absent: seq<nat>, now: Instant, locked: Locked)
    requires ValidCampus(c) && Inv(c, t) && RowsKnown(c, t) && AllDueNoShows(t, now, c.grace, absent)
    ensures Extends(t, ReleaseNoShows(c, t, absent, now, locked))
  {
    ReleaseNoShowsIsOneByOne(c, t, absent, now, locked);
    NoShowEachExtends(c, t, absent, now, locked);
  }

  lemma CreateExtends(c: Campus, t: Tables, r: Request, now: Instant, ks: seq<Conditions>)
    ensures Extends(t, Create(c, t, r, now, ks).tables)
  {
    if r.facility in c.facilities { AtMostOneAttemptCommits(c.facilities[r.facility], t, r, ks); }
  }

  lemma SweepCheckInsExtends(c: Campus, t: Tables, attended: seq<nat>, absent: seq<nat>, now: Instant, locked: Locked)
    requires ValidCampus(c) && Inv(c, t) && AllDueCompletes(t, now, attended)
    requires RowsKnown(c, Complete(t, attended)) && AllDueNoShows(Complete(t, attended), now, c.grace, absent)
    ensures Extends(t, ReleaseNoShows(c, Complete(t, attended), absent, now, locked))
  {
    CompleteIsOneByOne(c, t, attended, now);
    CompleteExtends(t, attended);
    ReleaseNoShowsExtends(c, Complete(t, attended), absent, now, locked);
    ExtendsTrans(t, Complete(t, attended), ReleaseNoShows(c, Complete(t, attended), absent, now, locked));
  }

  lemma ClaimExtends(t: Tables, i: nat, actor: UserId, now: Instant)
    ensures Extends(t, Claim(t, i, actor, now).tables)
  {
    if Claim(t, i, actor, now).outcome.Done? {
      UpdateExtends(t, {i}, Confirmed, i, EntryStatus.Claimed, Claim(t, i, actor, now).tables);
    }
  }

  lemma ReopenExtends(c: Campus, t: Tables, i: nat, actor: UserId)
    requires i < |t.bookings| ==> t.bookings[i].facility in c.facilities
    ensures Extends(t, Reopen(c, t, i, actor).tables)
  {
    if Reopen(c, t, i, actor).outcome.Done? {
      UpdateExtends(t, {i}, Cancelled, i, EntryStatus.Expired, Reopen(c, t, i, actor).tables);
    }
  }

  lemma ApplyExtends(c: Campus, t: Tables, call: Call)
    requires ValidCampus(c) && Inv(c, t) && Enabled(c, t, call)
    ensures Extends(t, Apply(c, t, call))
  {
    BatchesDue(c, t, call);
    InvUnlinked(c, t);
    InvHeldChecks(c, t);
    match call
    case DoCreate(r, now, ks) => CreateExtends(c, t, r, now, ks);
    case DoCancel(i, actor, manager, now, locked) => CancelExtends(c, t, i, actor, manager, now, locked);
    case DoSweepHolds(now, locked, holds) => SweepHoldsExtends(c, t, holds, now, locked);
    case DoSweepCheckIns(now, locked, attended, absent) => SweepCheckInsExtends(c, t, attended, absent, now, locked);
    case DoClaim(i, actor, now) => ClaimExtends(t, i, actor, now);
    case DoReopen(i, actor) => ReopenExtends(c, t, i, actor);
    case _ => OtherExtends(c, t, call);
  }

  lemma OtherExtends(c: Campus, t: Tables, call: Call)
    requires Enabled(c, t, call) && (call.DoCreateClosure? || call.DoJoin? || call.DoLeave? || call.DoRedeem?)
    ensures Extends(t, Apply(c, t, call))
  {
  }

  lemma NextExtends(c: Campus, t: Tables, act: Act, u: Tables)
    requires ValidCampus(c) && Inv(c, t) && Next(c, t, act, u)
    ensures Extends(t, u)
  {
    if act.committed { ApplyExtends(c, t, act.call); }
  }

  lemma OneExtends(c: Campus, states: seq<Tables>, acts: seq<Act>, k: nat)
    requires ValidCampus(c) && Run(c, states, acts) && k < |acts|
    ensures Extends(states[k], states[k + 1])
  {
    RunInv(c, states, acts, k);
    NextExtends(c, states[k], acts[k], states[k + 1]);
  }

  /** Over a run, from any state to any later one. */
  lemma {:induction false} RunExtends(c: Campus, states: seq<Tables>, acts: seq<Act>, j: nat, k: nat)
    requires ValidCampus(c) && Run(c, states, acts) && j <= k <= |acts|
    ensures Extends(states[j], states[k])
    decreases k
  {
    if j < k {
      RunExtends(c, states, acts, j, k - 1);
      OneExtends(c, states, acts, k - 1);
      ExtendsTrans(states[j], states[k - 1], states[k]);
    }
  }

  /** Idempotency over a run: once a key has a row, every later Create with that user and key
      creates nothing, and if it answers with a booking, it is that row. */
  lemma KeyKeepsItsRow(c: Campus, states: seq<Tables>, acts: seq<Act>, j: nat, k: nat, r: Request, row: nat)
    requires ValidCampus(c) && Run(c, states, acts) && j <= k < |acts|
    requires OwnsKey(states[j], r, row)
    requires acts[k].call.DoCreate? && acts[k].call.request == r
    ensures states[k + 1] == states[k]
    ensures var o := Create(c, states[k], r, acts[k].call.now, acts[k].call.conditions).outcome;
            !o.Created? && (o.Replayed? ==> o.id == row)
  {
    RunExtends(c, states, acts, j, k);
    RunInv(c, states, acts, k);
    assert SameRow(states[j].bookings[row], states[k].bookings[row]);
    assert Next(c, states[k], acts[k], states[k + 1]);
    if r.facility in c.facilities {
      UsedKeyReturnsItsRow(c.facilities[r.facility], states[k], r, acts[k].call.conditions, row);
    }
  }
}
