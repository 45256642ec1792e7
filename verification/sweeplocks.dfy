/** The check-in sweep makes one ascending pass over the counters of each no-show it
    releases, all in one transaction. When that can deadlock with the single-pass
    transactions, exactly. */
module SweepLocks {
  import opened Model
  import opened Grid
  import opened Statements
  import opened Transitions
  import opened Invariants
  import opened LockOrder

  // ------------------------------------------------------ plans and deadlocks

  ghost predicate DistinctLocks(plan: seq<Lock>)
  {
    forall j, k :: 0 <= j < k < |plan| ==> plan[j] != plan[k]
  }

  function Fresh(plans: seq<seq<Lock>>): System
  {
    seq(|plans|, i requires 0 <= i < |plans| => Txn(plans[i], 0, false))
  }

  ghost predicate Stuck(s: System)
  {
    !AllEnded(s) && forall i: nat :: !CanAdvance(s, i)
  }

  /** Some schedule of the plan and its partners ends with nobody able to move. */
  ghost predicate CanStick(plan: seq<Lock>, partners: seq<seq<Lock>>)
  {
    exists schedule :: Sticks(Fresh([plan] + partners), schedule)
  }

  ghost predicate Sticks(s: System, schedule: seq<nat>)
  {
    IsSchedule(s, schedule) && Stuck(After(s, schedule))
  }

  /** Ascending, over the counters of one facility: what each of the four operations is. */
  ghost predicate SinglePass(plan: seq<Lock>)
  {
    Ordered(plan) && exists f :: OneFacility(plan, f)
  }

  ghost predicate OneFacility(plan: seq<Lock>, f: FacilityId)
  {
    forall k :: 0 <= k < |plan| && plan[k].CounterLock? ==> plan[k].facility == f
  }

  lemma OperationsAreSinglePass(f: FacilityId, fac: Facility, zone: int, key: int, id: nat, start: Instant, end: Instant, idem: Option<nat>)
    requires ValidFacility(fac)
    ensures SinglePass(SharedPlan(f, fac.granularity, start, end, idem))
    ensures SinglePass(CancelPlan(f, fac.granularity, id, start, end))
    ensures SinglePass(ClosurePlan(f, fac, zone, key, start, end))
    ensures SinglePass(ReopenPlan(f, fac, zone, key, id, start, end))
  {
    PlansOrdered(f, fac, zone, key, id, start, end, idem);
    assert OneFacility(SharedPlan(f, fac.granularity, start, end, idem), f);
    assert OneFacility(CancelPlan(f, fac.granularity, id, start, end), f);
    assert OneFacility(ClosurePlan(f, fac, zone, key, start, end), f);
    assert OneFacility(ReopenPlan(f, fac, zone, key, id, start, end), f);
  }

  lemma ClosureIsSinglePass(f: FacilityId, fac: Facility, zone: int, key: int, start: Instant, end: Instant)
    requires ValidFacility(fac)
    ensures SinglePass(ClosurePlan(f, fac, zone, key, start, end))
  {
    OperationsAreSinglePass(f, fac, zone, key, 0, start, end, None);
  }

  ghost predicate AllSinglePass(partners: seq<seq<Lock>>)
  {
    forall i :: 0 <= i < |partners| ==> SinglePass(partners[i])
  }

  /** A plan of counters that ascends in each facility it visits. */
  ghost predicate FacilityOrdered(plan: seq<Lock>)
  {
    forall j, k :: 0 <= j < k < |plan| && plan[j].CounterLock? && plan[k].CounterLock? && plan[j].facility == plan[k].facility ==>
      Before(plan[j], plan[k])
  }

  ghost predicate CountersOnly(plan: seq<Lock>)
  {
    forall k :: 0 <= k < |plan| ==> plan[k].CounterLock?
  }

  // --------------------------------------------- an inversion can be deadlocked

  function Pair(plan: seq<Lock>, a: nat, partner: seq<Lock>, b: nat): System
  {
    [Txn(plan, a, false), Txn(partner, b, false)]
  }

  lemma HeldIsTaken(x: Txn, l: Lock)
    requires x.taken <= |x.plan|
    ensures Holds(x, l) <==> !x.ended && l in x.plan[..x.taken]
  {
    if Holds(x, l) {
      var e :| 0 <= e < x.taken && e < |x.plan| && x.plan[e] == l;
      assert x.plan[..x.taken][e] == l;
    }
  }

  /** The plan takes its locks up to k while the partner has none. */
  lemma {:induction false} FirstMoves(plan: seq<Lock>, partner: seq<Lock>, a: nat, k: nat, rest: seq<nat>)
    requires a <= k <= |plan| && IsSchedule(Pair(plan, k, partner, 0), rest)
    ensures var schedule := seq(k - a, _ => 0) + rest;
            && IsSchedule(Pair(plan, a, partner, 0), schedule)
            && After(Pair(plan, a, partner, 0), schedule) == After(Pair(plan, k, partner, 0), rest)
    decreases k - a
  {
    var schedule := seq(k - a, _ => 0) + rest;
    if a == k {
      assert schedule == rest;
    } else {
      FirstMoves(plan, partner, a + 1, k, rest);
      assert schedule[1..] == seq(k - (a + 1), _ => 0) + rest;
      assert CanTake(Pair(plan, a, partner, 0), 0);
      assert Advance(Pair(plan, a, partner, 0), 0) == Pair(plan, a + 1, partner, 0);
    }
  }

  /** Then the partner takes its own, up to the first one the plan holds. */
  lemma {:induction false} ThenPartnerMoves(plan: seq<Lock>, k: nat, partner: seq<Lock>, b: nat, m: nat)
    requires k <= |plan| && b <= m <= |partner| && forall e :: b <= e < m ==> partner[e] !in plan[..k]
    ensures var schedule := seq(m - b, _ => 1);
            && IsSchedule(Pair(plan, k, partner, b), schedule)
            && After(Pair(plan, k, partner, b), schedule) == Pair(plan, k, partner, m)
    decreases m - b
  {
    var s := Pair(plan, k, partner, b);
    var schedule := seq(m - b, _ => 1);
    if b < m {
      ThenPartnerMoves(plan, k, partner, b + 1, m);
      assert schedule[1..] == seq(m - (b + 1), _ => 1);
      HeldIsTaken(s[0], partner[b]);
      assert CanTake(s, 1);
      assert Advance(s, 1) == Pair(plan, k, partner, b + 1);
    }
  }

  /** If the partner wants plan[k] first, and later something the plan takes before plan[k],
      the two can end up waiting for each other. */
  lemma InversionSticks(plan: seq<Lock>, k: nat, partner: seq<Lock>, q: nat, m: nat)
    requires DistinctLocks(plan) && k < |plan| && q < m < |partner| && partner[q] == plan[k]
    requires partner[m] in plan[..k] && forall e :: 0 <= e < m ==> partner[e] !in plan[..k]
    ensures CanStick(plan, [partner])
  {
    var s := Fresh([plan] + [partner]);
    assert s == Pair(plan, 0, partner, 0);
    var ones := seq(m, _ => 1);
    ThenPartnerMoves(plan, k, partner, 0, m);
    FirstMoves(plan, partner, 0, k, ones);
    var u := Pair(plan, k, partner, m);
    assert After(s, seq(k, _ => 0) + ones) == u;
    assert u[1].plan[q] == plan[k] && Holds(u[1], plan[k]);
    var e :| 0 <= e < |plan[..k]| && plan[..k][e] == partner[m];
    assert u[0].plan[e] == partner[m] && Holds(u[0], partner[m]);
    assert !CanAdvance(u, 0) && !CanAdvance(u, 1);
    assert !u[0].ended;
    assert Sticks(s, seq(k, _ => 0) + ones);
  }

  // ------------------------------------------- an ascending plan cannot be stuck

  lemma {:induction false} RunKeepsPlans(s: System, schedule: seq<nat>)
    requires WellFormed(s) && IsSchedule(s, schedule)
    ensures WellFormed(After(s, schedule)) && |After(s, schedule)| == |s|
    ensures forall i :: 0 <= i < |s| ==> After(s, schedule)[i].plan == s[i].plan
    decreases |schedule|
  {
    if |schedule| > 0 {
      RunKeepsPlans(Advance(s, schedule[0]), schedule[1..]);
    }
  }

  /** The locks whose waiters a sweep waiting in facility f can run into. */
  predicate Above(l: Lock, x: Lock, f: FacilityId)
  {
    ((l.CounterLock? && l.facility == f) || l.KeyLock?) && (l == x || Before(x, l))
  }

  /** Transaction 0 waits for x; j holds something at or above x. Follow the holders: the
      chain climbs inside the facility, so it cannot come back to transaction 0. */
  lemma {:induction false} ChainMoves(s: System, x: Lock, j: nat, h: Lock) returns (r: nat)
    requires WellFormed(s) && |s| > 0 && CountersOnly(s[0].plan) && FacilityOrdered(s[0].plan)
    requires s[0].taken < |s[0].plan| && s[0].plan[s[0].taken] == x
    requires forall i :: 1 <= i < |s| ==> SinglePass(s[i].plan)
    requires 1 <= j < |s| && Holds(s[j], h) && Above(h, x, x.facility)
    ensures CanAdvance(s, r)
    decreases if s[j].taken < |s[j].plan| then |WaitingAbove(s, s[j].plan[s[j].taken])| + 1 else 0
  {
    if CanAdvance(s, j) {
      return j;
    }
    var wanted := s[j].plan[s[j].taken];
    var f :| OneFacility(s[j].plan, f);
    assert Before(h, wanted) && Above(wanted, x, x.facility);
    var i :| 0 <= i < |s| && i != j && Holds(s[i], wanted);
    HoldsNothingAbove(s[0], wanted);
    assert i != 0;
    if s[i].taken < |s[i].plan| {
      var next := s[i].plan[s[i].taken];
      assert Before(wanted, next);
      assert i in WaitingAbove(s, wanted) && i !in WaitingAbove(s, next);
      assert WaitingAbove(s, next) < WaitingAbove(s, wanted);
      SubsetSmaller(WaitingAbove(s, next), WaitingAbove(s, wanted));
    }
    r := ChainMoves(s, x, i, wanted);
  }

  lemma HoldsNothingAbove(t: Txn, l: Lock)
    requires CountersOnly(t.plan) && FacilityOrdered(t.plan) && t.taken < |t.plan|
    requires Above(l, t.plan[t.taken], t.plan[t.taken].facility) && l != t.plan[t.taken]
    ensures !Holds(t, l)
  {
    forall e | 0 <= e < t.taken ensures t.plan[e] != l {
      assert t.plan[e].facility == t.plan[t.taken].facility ==> Before(t.plan[e], t.plan[t.taken]);
    }
  }

  lemma EndedIsOut(s: System, rest: System, r: nat)
    requires |s| > 0 && s[0].ended && rest == s[0 := Txn([], 0, true)] && CanAdvance(rest, r)
    ensures CanAdvance(s, r)
  {
    assert r != 0 && s[r] == rest[r];
    if CanTake(rest, r) {
      var l := s[r].plan[s[r].taken];
      forall j | 0 <= j < |s| && j != r ensures !Holds(s[j], l) {
        assert j != 0 ==> s[j] == rest[j];
      }
    }
  }

  /** A transaction that ascends in each facility, among single-pass ones. */
  lemma SomebodyStillMoves(s: System) returns (r: nat)
    requires WellFormed(s) && |s| > 0 && CountersOnly(s[0].plan) && FacilityOrdered(s[0].plan)
    requires forall i :: 1 <= i < |s| ==> SinglePass(s[i].plan)
    requires !AllEnded(s)
    ensures CanAdvance(s, r)
  {
    if s[0].ended {
      var rest := s[0 := Txn([], 0, true)];
      var i :| 0 <= i < |s| && !s[i].ended;
      r := SomebodyMoves(rest, i);
      EndedIsOut(s, rest, r);
    } else if CanAdvance(s, 0) {
      r := 0;
    } else {
      var x := s[0].plan[s[0].taken];
      var j :| 0 <= j < |s| && j != 0 && Holds(s[j], x);
      r := ChainMoves(s, x, j, x);
    }
  }

  lemma AscendingNeverSticks(plan: seq<Lock>, partners: seq<seq<Lock>>)
    requires CountersOnly(plan) && FacilityOrdered(plan) && AllSinglePass(partners)
    ensures !CanStick(plan, partners)
  {
    var s := Fresh([plan] + partners);
    forall i | 1 <= i < |s| ensures SinglePass(s[i].plan) {
      assert s[i].plan == partners[i - 1];
    }
    forall schedule ensures !Sticks(s, schedule) {
      if IsSchedule(s, schedule) {
        AscendingNeverStuck(s, schedule);
      }
    }
  }

  lemma AscendingNeverStuck(s: System, schedule: seq<nat>)
    requires WellFormed(s) && |s| > 0 && CountersOnly(s[0].plan) && FacilityOrdered(s[0].plan)
    requires (forall i :: 1 <= i < |s| ==> SinglePass(s[i].plan)) && IsSchedule(s, schedule)
    ensures !Stuck(After(s, schedule))
  {
    RunKeepsPlans(s, schedule);
    if !AllEnded(After(s, schedule)) {
      var r := SomebodyStillMoves(After(s, schedule));
    }
  }

  // --------------------------------------------------------- exact conditions

  /** Against ordered partners of any kind, a plan without repeats is safe exactly when it is
      ordered itself. */
  lemma OrderedIsExact(plan: seq<Lock>)
    requires DistinctLocks(plan)
    ensures (exists partners :: (forall i :: 0 <= i < |partners| ==> Ordered(partners[i])) && CanStick(plan, partners))
            <==> !Ordered(plan)
  {
    if !Ordered(plan) {
      var j, k :| 0 <= j < k < |plan| && !Before(plan[j], plan[k]);
      var partner := Inverse(plan, j, k);
    } else {
      forall partners: seq<seq<Lock>> | forall i :: 0 <= i < |partners| ==> Ordered(partners[i])
        ensures !CanStick(plan, partners)
      {
        OrderedNeverSticks(plan, partners);
      }
    }
  }

  lemma OrderedNeverSticks(plan: seq<Lock>, partners: seq<seq<Lock>>)
    requires Ordered(plan) && forall i :: 0 <= i < |partners| ==> Ordered(partners[i])
    ensures !CanStick(plan, partners)
  {
    var s := Fresh([plan] + partners);
    forall i | 0 <= i < |s| ensures Ordered(s[i].plan) {
      assert s[i].plan == if i == 0 then plan else partners[i - 1];
    }
    forall schedule ensures !Sticks(s, schedule) {
      if IsSchedule(s, schedule) {
        OrderedNeverStuck(s, schedule);
      }
    }
  }

  lemma OrderedNeverStuck(s: System, schedule: seq<nat>)
    requires WellFormed(s) && AllOrdered(s) && IsSchedule(s, schedule)
    ensures !Stuck(After(s, schedule))
  {
    RunKeepsPlans(s, schedule);
    NoDeadlock(After(s, schedule));
  }

  /** The partner that takes just the two inverted locks, in their order. */
  lemma Inverse(plan: seq<Lock>, j: nat, k: nat) returns (partner: seq<Lock>)
    requires DistinctLocks(plan) && j < k < |plan| && !Before(plan[j], plan[k])
    ensures partner == [plan[k], plan[j]] && Ordered(partner)
    ensures exists partners :: partners == [partner] && CanStick(plan, partners)
  {
    partner := [plan[k], plan[j]];
    assert plan[j] != plan[k];
    assert plan[..k][j] == plan[j];
    forall e | 0 <= e < 1 ensures partner[e] !in plan[..k] {
    }
    InversionSticks(plan, k, partner, 0, 1);
  }

  // ------------------------------------------------------- repeats cost nothing

  /** The plan with each lock where it is first asked for: a lock already held is granted. */
  function Deduped(plan: seq<Lock>): seq<Lock>
  {
    if plan == [] then []
    else
      var n := |plan| - 1;
      if plan[n] in plan[..n] then Deduped(plan[..n]) else Deduped(plan[..n]) + [plan[n]]
  }

  lemma {:induction false} DedupedExact(plan: seq<Lock>)
    ensures DistinctLocks(Deduped(plan)) && forall l :: l in Deduped(plan) <==> l in plan
  {
    if plan != [] {
      var n := |plan| - 1;
      DedupedExact(plan[..n]);
      assert plan == plan[..n] + [plan[n]];
    }
  }

  lemma DedupedCounters(plan: seq<Lock>)
    requires CountersOnly(plan)
    ensures CountersOnly(Deduped(plan))
  {
    DedupedExact(plan);
    forall k | 0 <= k < |Deduped(plan)| ensures Deduped(plan)[k].CounterLock? {
      assert Deduped(plan)[k] in plan;
    }
  }

  /** Asking again for a lock one already holds never waits. */
  lemma RetakeIsFree(s: System, i: nat)
    requires WellFormed(s) && MutuallyExclusive(s) && i < |s| && !s[i].ended && s[i].taken < |s[i].plan|
    requires s[i].plan[s[i].taken] in s[i].plan[..s[i].taken]
    ensures CanTake(s, i)
  {
    var l := s[i].plan[s[i].taken];
    HeldIsTaken(s[i], l);
    forall j | 0 <= j < |s| && j != i ensures !Holds(s[j], l) {
    }
  }

  predicate NotBelow(d: Lock, l: Lock)
  {
    d.CounterLock? && l.CounterLock? && d.facility == l.facility && !Before(d, l)
  }

  /** The pass adds a lock that is not above all that the plan already has. */
  ghost predicate PassClashes(plan: seq<Lock>, pass: seq<Lock>)
  {
    exists d, l :: d in plan && l in pass && l !in plan && NotBelow(d, l)
  }

  /** One more pass keeps the order exactly when what it adds is above all there was. */
  lemma {:induction false} PassOrdered(plan: seq<Lock>, pass: seq<Lock>)
    requires CountersOnly(plan) && CountersOnly(pass) && Ordered(pass)
    ensures FacilityOrdered(Deduped(plan + pass))
            <==> FacilityOrdered(Deduped(plan)) && !PassClashes(plan, pass)
    decreases |pass|
  {
    if pass == [] {
      assert plan + pass == plan;
    } else {
      var n := |pass| - 1;
      var l := pass[n];
      var before := plan + pass[..n];
      assert plan + pass == before + [l];
      assert (plan + pass)[..|plan| + n] == before;
      PassOrdered(plan, pass[..n]);
      DedupedExact(before);
      DedupedCounters(before);
      OneMoreLock(Deduped(before), l);
      assert FacilityOrdered(Deduped(before) + [l]) <==> FacilityOrdered(Deduped(before)) && !(exists d :: d in before && NotBelow(d, l));
      LastClashes(plan, pass);
    }
  }

  lemma LastClashes(plan: seq<Lock>, pass: seq<Lock>)
    requires CountersOnly(plan) && CountersOnly(pass) && Ordered(pass) && pass != []
    ensures var n := |pass| - 1;
            PassClashes(plan, pass) <==>
              PassClashes(plan, pass[..n])
              || (pass[n] !in plan + pass[..n] && exists d :: d in plan + pass[..n] && NotBelow(d, pass[n]))
  {
    var n := |pass| - 1;
    var l := pass[n];
    assert l !in pass[..n];
    assert forall e :: e in pass[..n] ==> !NotBelow(e, l);
    assert forall e :: e in pass <==> e in pass[..n] || e == l;
    if d :| d in plan + pass[..n] && NotBelow(d, l) && l !in plan {
      assert d in plan && l in pass;
    }
  }

  lemma OneMoreLock(plan: seq<Lock>, l: Lock)
    requires CountersOnly(plan) && l.CounterLock?
    ensures FacilityOrdered(plan + [l]) <==> FacilityOrdered(plan) && forall d :: d in plan ==> !NotBelow(d, l)
  {
    var more := plan + [l];
    if FacilityOrdered(more) {
      forall j, k | 0 <= j < k < |plan| && plan[j].facility == plan[k].facility ensures Before(plan[j], plan[k]) {
        assert more[j] == plan[j] && more[k] == plan[k];
      }
      forall d | d in plan ensures !NotBelow(d, l) {
        var j :| 0 <= j < |plan| && plan[j] == d;
        assert more[j] == d && more[|plan|] == l;
      }
    } else {
      var j, k :| 0 <= j < k < |more| && more[j].CounterLock? && more[k].CounterLock? && more[j].facility == more[k].facility && !Before(more[j], more[k]);
      assert more[j] == plan[j];
      if k < |plan| {
        assert more[k] == plan[k];
      } else {
        assert plan[j] in plan && NotBelow(plan[j], l);
      }
    }
  }

  // ------------------------------------------------------------------- the sweep

  /** ReleaseCapacity for one released booking. */
  function BookingLocks(c: Campus, b: Booking): seq<Lock>
    requires b.facility in c.facilities
  {
    if b.exclusive then [] else CounterLocks(b.facility, SlotsFor(c.facilities[b.facility].granularity, b.start, b.end))
  }

  /** The counters a check-in sweep takes, in the order its no-shows come back. The rows it
      locks with SKIP LOCKED are left out: it never waits for one, and whoever waits for one
      (the first step of a cancel) holds nothing yet. */
  function SweepPlan(c: Campus, t: Tables, batch: seq<nat>): seq<Lock>
    requires InTable(batch, t) && RowsKnown(c, t)
  {
    if batch == [] then []
    else
      var n := |batch| - 1;
      SweepPlan(c, t, batch[..n]) + BookingLocks(c, t.bookings[batch[n]])
  }

  /** Booking b gives up a place in the block of f that starts at x. */
  ghost predicate GivesUp(c: Campus, b: Booking, f: FacilityId, x: Instant)
    requires b.facility in c.facilities
  {
    !b.exclusive && b.facility == f && Has(SlotsFor(c.facilities[f].granularity, b.start, b.end), x)
  }

  ghost predicate GivesUpBefore(c: Campus, t: Tables, batch: seq<nat>, n: nat, f: FacilityId, x: Instant)
    requires InTable(batch, t) && RowsKnown(c, t) && n <= |batch|
  {
    exists a :: 0 <= a < n && GivesUp(c, t.bookings[batch[a]], f, x)
  }

  /** The no-show at position b gives up a block that none before it did, after one of them
      gave up a later block of the same facility. */
  ghost predicate Descends(c: Campus, t: Tables, batch: seq<nat>, b: nat, f: FacilityId, x: Instant, y: Instant)
    requires InTable(batch, t) && RowsKnown(c, t)
  {
    && b < |batch| && x < y && GivesUp(c, t.bookings[batch[b]], f, x)
    && !GivesUpBefore(c, t, batch, b, f, x) && GivesUpBefore(c, t, batch, b, f, y)
  }

  lemma BookingLocksExact(c: Campus, b: Booking)
    requires b.facility in c.facilities && ValidFacility(c.facilities[b.facility])
    ensures CountersOnly(BookingLocks(c, b)) && Ordered(BookingLocks(c, b))
    ensures forall l :: l in BookingLocks(c, b) <==> l.CounterLock? && GivesUp(c, b, l.facility, l.start)
  {
    var g := c.facilities[b.facility].granularity;
    var slots := SlotsFor(g, b.start, b.end);
    var locks := CounterLocks(b.facility, slots);
    SlotsForAscending(g, b.start, b.end);
    forall l: Lock | !b.exclusive && l.CounterLock? && GivesUp(c, b, l.facility, l.start) ensures l in locks {
      var k :| 0 <= k < |slots| && slots[k].start == l.start;
      assert locks[k] == l;
    }
  }

  lemma {:induction false} SweepPlanExact(c: Campus, t: Tables, batch: seq<nat>)
    requires ValidCampus(c) && InTable(batch, t) && RowsKnown(c, t)
    ensures CountersOnly(SweepPlan(c, t, batch))
    ensures forall l :: l in SweepPlan(c, t, batch) <==> l.CounterLock? && GivesUpBefore(c, t, batch, |batch|, l.facility, l.start)
  {
    if batch != [] {
      var n := |batch| - 1;
      SweepPlanExact(c, t, batch[..n]);
      BookingLocksExact(c, t.bookings[batch[n]]);
      forall l: Lock | l.CounterLock?
        ensures GivesUpBefore(c, t, batch, |batch|, l.facility, l.start)
                <==> GivesUpBefore(c, t, batch[..n], n, l.facility, l.start) || GivesUp(c, t.bookings[batch[n]], l.facility, l.start)
      {
        PrefixGivesUp(c, t, batch, n, l.facility, l.start);
      }
    }
  }

  lemma SweepCounters(c: Campus, t: Tables, batch: seq<nat>)
    requires ValidCampus(c) && InTable(batch, t) && RowsKnown(c, t)
    ensures CountersOnly(Deduped(SweepPlan(c, t, batch)))
  {
    SweepPlanExact(c, t, batch);
    DedupedCounters(SweepPlan(c, t, batch));
  }

  lemma PrefixGivesUp(c: Campus, t: Tables, batch: seq<nat>, n: nat, f: FacilityId, x: Instant)
    requires InTable(batch, t) && RowsKnown(c, t) && n <= |batch|
    ensures GivesUpBefore(c, t, batch[..n], n, f, x) <==> GivesUpBefore(c, t, batch, n, f, x)
    ensures n < |batch| ==>
              (GivesUpBefore(c, t, batch, n + 1, f, x) <==> GivesUpBefore(c, t, batch, n, f, x) || GivesUp(c, t.bookings[batch[n]], f, x))
  {
    assert forall a :: 0 <= a < n ==> batch[..n][a] == batch[a];
  }

  /** Some no-show of the batch descends. */
  ghost predicate AnyDescent(c: Campus, t: Tables, batch: seq<nat>)
    requires InTable(batch, t) && RowsKnown(c, t)
  {
    exists b: nat, f: FacilityId, x: Instant, y: Instant :: Descends(c, t, batch, b, f, x, y)
  }

  ghost predicate LastDescent(c: Campus, t: Tables, batch: seq<nat>)
    requires InTable(batch, t) && RowsKnown(c, t) && batch != []
  {
    exists b: nat, f: FacilityId, x: Instant, y: Instant :: b == |batch| - 1 && Descends(c, t, batch, b, f, x, y)
  }

  lemma PrefixDescends(c: Campus, t: Tables, batch: seq<nat>, n: nat, b: nat, f: FacilityId, x: Instant, y: Instant)
    requires InTable(batch, t) && RowsKnown(c, t) && b < n <= |batch|
    ensures Descends(c, t, batch[..n], b, f, x, y) == Descends(c, t, batch, b, f, x, y)
  {
    var q := batch[..n];
    assert q[..b] == batch[..b] && q[b] == batch[b];
    PrefixGivesUp(c, t, q, b, f, x);
    PrefixGivesUp(c, t, batch, b, f, x);
    PrefixGivesUp(c, t, q, b, f, y);
    PrefixGivesUp(c, t, batch, b, f, y);
  }

  lemma AnyDescentGrows(c: Campus, t: Tables, batch: seq<nat>)
    requires InTable(batch, t) && RowsKnown(c, t) && batch != []
    ensures var n := |batch| - 1;
            AnyDescent(c, t, batch) <==> AnyDescent(c, t, batch[..n]) || LastDescent(c, t, batch)
  {
    var n := |batch| - 1;
    if AnyDescent(c, t, batch) {
      var b: nat, f: FacilityId, x: Instant, y: Instant :| Descends(c, t, batch, b, f, x, y);
      if b < n { PrefixDescends(c, t, batch, n, b, f, x, y); }
    }
    if AnyDescent(c, t, batch[..n]) {
      var b: nat, f: FacilityId, x: Instant, y: Instant :| Descends(c, t, batch[..n], b, f, x, y);
      PrefixDescends(c, t, batch, n, b, f, x, y);
    }
  }

  /** The counters of a sweep, repeats aside, ascend in every facility exactly when no
      no-show in the batch descends. */
  lemma {:induction false} SweepOrderedIff(c: Campus, t: Tables, batch: seq<nat>)
    requires ValidCampus(c) && InTable(batch, t) && RowsKnown(c, t)
    ensures FacilityOrdered(Deduped(SweepPlan(c, t, batch))) <==> !AnyDescent(c, t, batch)
  {
    if batch != [] {
      var n := |batch| - 1;
      SweepOrderedIff(c, t, batch[..n]);
      SweepPlanExact(c, t, batch[..n]);
      BookingLocksExact(c, t.bookings[batch[n]]);
      PassOrdered(SweepPlan(c, t, batch[..n]), BookingLocks(c, t.bookings[batch[n]]));
      LastDescends(c, t, batch);
      AnyDescentGrows(c, t, batch);
    }
  }

  /** The pass adds the block x after the plan took the later block y. */
  ghost predicate PairClashes(plan: seq<Lock>, pass: seq<Lock>, f: FacilityId, x: Instant, y: Instant)
  {
    CounterLock(f, y) in plan && CounterLock(f, x) in pass && CounterLock(f, x) !in plan && x < y
  }

  lemma ClashIsPair(plan: seq<Lock>, pass: seq<Lock>)
    requires PassClashes(plan, pass)
    ensures exists f, x, y :: PairClashes(plan, pass, f, x, y)
  {
    var d, l :| d in plan && l in pass && l !in plan && NotBelow(d, l);
    assert d == CounterLock(d.facility, d.start) && l == CounterLock(l.facility, l.start);
    assert PairClashes(plan, pass, l.facility, l.start, d.start);
  }

  lemma PairIsClash(plan: seq<Lock>, pass: seq<Lock>, f: FacilityId, x: Instant, y: Instant)
    requires PairClashes(plan, pass, f, x, y)
    ensures PassClashes(plan, pass)
  {
    assert NotBelow(CounterLock(f, y), CounterLock(f, x));
  }

  lemma LastDescendsAt(c: Campus, t: Tables, batch: seq<nat>, f: FacilityId, x: Instant, y: Instant)
    requires ValidCampus(c) && InTable(batch, t) && RowsKnown(c, t) && batch != []
    ensures Descends(c, t, batch, |batch| - 1, f, x, y)
            <==> PairClashes(SweepPlan(c, t, batch[..|batch| - 1]), BookingLocks(c, t.bookings[batch[|batch| - 1]]), f, x, y)
  {
    var n := |batch| - 1;
    SweepPlanExact(c, t, batch[..n]);
    BookingLocksExact(c, t.bookings[batch[n]]);
    PrefixGivesUp(c, t, batch, n, f, x);
    PrefixGivesUp(c, t, batch, n, f, y);
  }

  lemma LastDescends(c: Campus, t: Tables, batch: seq<nat>)
    requires ValidCampus(c) && InTable(batch, t) && RowsKnown(c, t) && batch != []
    ensures PassClashes(SweepPlan(c, t, batch[..|batch| - 1]), BookingLocks(c, t.bookings[batch[|batch| - 1]]))
            <==> LastDescent(c, t, batch)
  {
    var plan, pass := SweepPlan(c, t, batch[..|batch| - 1]), BookingLocks(c, t.bookings[batch[|batch| - 1]]);
    if PassClashes(plan, pass) {
      ClashIsPair(plan, pass);
      var f: FacilityId, x: Instant, y: Instant :| PairClashes(plan, pass, f, x, y);
      LastDescendsAt(c, t, batch, f, x, y);
    }
    if LastDescent(c, t, batch) {
      var f: FacilityId, x: Instant, y: Instant :| Descends(c, t, batch, |batch| - 1, f, x, y);
      LastDescendsAt(c, t, batch, f, x, y);
      PairIsClash(plan, pass, f, x, y);
    }
  }

  // --------------------------------------------------------- the real partner

  lemma {:induction false} DedupedGrows(plan: seq<Lock>, more: seq<Lock>)
    ensures Deduped(plan) <= Deduped(plan + more)
    decreases |more|
  {
    if more == [] {
      assert plan + more == plan;
    } else {
      var n := |more| - 1;
      assert (plan + more)[..|plan| + n] == plan + more[..n];
      DedupedGrows(plan, more[..n]);
    }
  }

  lemma {:induction false} SweepPlanGrows(c: Campus, t: Tables, batch: seq<nat>, b: nat)
    requires InTable(batch, t) && RowsKnown(c, t) && b <= |batch|
    ensures SweepPlan(c, t, batch[..b]) <= SweepPlan(c, t, batch)
    decreases |batch|
  {
    if b == |batch| {
      assert batch[..b] == batch;
    } else {
      var q := batch[..|batch| - 1];
      assert q[..b] == batch[..b];
      SweepPlanGrows(c, t, q, b);
    }
  }

  /** Where a descent is in the sweep's plan: x comes at k, and y before it. */
  lemma DescentPlaced(c: Campus, t: Tables, batch: seq<nat>, b: nat, f: FacilityId, x: Instant, y: Instant) returns (plan: seq<Lock>, k: nat)
    requires ValidCampus(c) && InTable(batch, t) && RowsKnown(c, t) && Descends(c, t, batch, b, f, x, y)
    ensures plan == Deduped(SweepPlan(c, t, batch)) && CountersOnly(plan)
    ensures DistinctLocks(plan) && k < |plan| && plan[k] == CounterLock(f, x) && CounterLock(f, y) in plan[..k]
  {
    var whole, head := SweepPlan(c, t, batch), SweepPlan(c, t, batch[..b]);
    SweepPlanGrows(c, t, batch, b);
    SweepPlanExact(c, t, batch);
    SweepPlanExact(c, t, batch[..b]);
    PrefixGivesUp(c, t, batch, b, f, x);
    PrefixGivesUp(c, t, batch, b, f, y);
    SweepCounters(c, t, batch);
    plan := Deduped(whole);
    k := Placed(whole, head, CounterLock(f, x), CounterLock(f, y));
  }

  lemma Placed(whole: seq<Lock>, head: seq<Lock>, late: Lock, early: Lock) returns (k: nat)
    requires head <= whole && late in whole && late !in head && early in head
    ensures var plan := Deduped(whole);
            DistinctLocks(plan) && k < |plan| && plan[k] == late && early in plan[..k]
  {
    var plan, first := Deduped(whole), Deduped(head);
    DedupedGrows(head, whole[|head|..]);
    assert head + whole[|head|..] == whole;
    DedupedExact(whole);
    DedupedExact(head);
    k :| 0 <= k < |plan| && plan[k] == late;
    forall j | 0 <= j < |first| ensures plan[j] != late {
      assert plan[j] == first[j];
    }
    var j :| 0 <= j < |first| && first[j] == early;
    assert plan[..k][j] == early;
  }

  lemma FirstHeld(partner: seq<Lock>, held: seq<Lock>, e: nat) returns (m: nat)
    requires e < |partner| && partner[e] in held
    ensures m <= e && partner[m] in held && forall i :: 0 <= i < m ==> partner[i] !in held
  {
    m := 0;
    while partner[m] !in held
      invariant m <= e && forall i :: 0 <= i < m ==> partner[i] !in held
      decreases e - m
    {
      m := m + 1;
    }
  }

  lemma BlocksApart(f: Facility, zone: int, z: Instant, x: Instant)
    requires ValidFacility(f) && f.granularity > 0 && IsBlock(f, zone, z) && IsBlock(f, zone, x) && z < x
    ensures z + f.granularity <= x
  {
    var day, next := Midnight(zone, z), Midnight(zone, x);
    if day == next {
      OnStepDiff(f.granularity, x - next - f.opens, z - day - f.opens);
    } else {
      MidnightApart(zone, day, x);
    }
  }

  lemma {:induction false} OnStepDiff(g: int, a: int, b: int)
    requires g > 0 && OnStep(g, a) && OnStep(g, b) && b <= a
    ensures OnStep(g, a - b)
    decreases b
  {
    OnStepNonneg(g, b);
    if b != 0 {
      OnStepDiff(g, a - g, b - g);
    }
  }

  /** The closed blocks from x to y begin with x and contain y further on. */
  lemma ClosedFrom(fac: Facility, zone: int, x: Instant, y: Instant) returns (slots: seq<Slot>, j: nat)
    requires ValidFacility(fac) && fac.granularity > 0 && IsBlock(fac, zone, x) && IsBlock(fac, zone, y) && x < y
    ensures slots == ClosureSlots(fac, zone, x, y + fac.granularity)
    ensures 0 < j < |slots| && slots[0].start == x && slots[j].start == y
  {
    slots := ClosureSlots(fac, zone, x, y + fac.granularity);
    ClosureSlotsExact(fac, zone, x, y + fac.granularity, x);
    ClosureSlotsExact(fac, zone, x, y + fac.granularity, y);
    ClosureSlotsAscending(fac, zone, x, y + fac.granularity);
    var i :| 0 <= i < |slots| && slots[i].start == x;
    j :| 0 <= j < |slots| && slots[j].start == y;
    var z := slots[0].start;
    assert Has(slots, z);
    ClosureSlotsExact(fac, zone, x, y + fac.granularity, z);
    assert z >= x by {
      if z < x { BlocksApart(fac, zone, z, x); }
    }
  }

  /** A closure over the blocks from x to y asks for x first, and for y later. */
  lemma ClosureFrom(fac: Facility, f: FacilityId, zone: int, key: int, x: Instant, y: Instant) returns (e: nat, partner: seq<Lock>)
    requires ValidFacility(fac) && fac.granularity > 0 && IsBlock(fac, zone, x) && IsBlock(fac, zone, y) && x < y
    ensures partner == ClosurePlan(f, fac, zone, key, x, y + fac.granularity)
    ensures 1 < e < |partner| && partner[0] == FacilityLock(key) && partner[1] == CounterLock(f, x) && partner[e] == CounterLock(f, y)
    ensures SinglePass(partner)
  {
    var slots, j := ClosedFrom(fac, zone, x, y);
    partner := [FacilityLock(key)] + CounterLocks(f, slots);
    e := j + 1;
    ClosureIsSinglePass(f, fac, zone, key, x, y + fac.granularity);
  }

  /** Every block a due no-show gives up is a block of its facility's grid. */
  lemma GivenUpOnGrid(c: Campus, t: Tables, i: nat, now: Instant, f: FacilityId, x: Instant)
    requires ValidCampus(c) && Inv(c, t) && i < |t.bookings| && DueNoShow(t, i, now, c.grace)
    requires t.bookings[i].facility in c.facilities && GivesUp(c, t.bookings[i], f, x)
    ensures OnGrid(c.facilities[f], c.zone, t.bookings[i].start, t.bookings[i].end) && IsBlock(c.facilities[f], c.zone, x)
  {
    assert RowOk(c, t.bookings[i]);
    OnGridBlocks(c.facilities[f], c.zone, t.bookings[i].start, t.bookings[i].end, x);
  }

  /** A sweep that descends can deadlock with one real operation: a closure of that facility
      from the lower block to the higher one. */
  lemma DescentSticks(c: Campus, t: Tables, batch: seq<nat>, now: Instant, b: nat, f: FacilityId, x: Instant, y: Instant, key: int)
    returns (plan: seq<Lock>, partner: seq<Lock>)
    requires ValidCampus(c) && Inv(c, t) && RowsKnown(c, t) && AllDueNoShows(t, now, c.grace, batch)
    requires Descends(c, t, batch, b, f, x, y)
    ensures plan == Deduped(SweepPlan(c, t, batch))
    ensures f in c.facilities && partner == ClosurePlan(f, c.facilities[f], c.zone, key, x, y + c.facilities[f].granularity)
    ensures SinglePass(partner) && CanStick(plan, [partner])
  {
    DescentOnGrid(c, t, batch, now, b, f, x, y);
    plan, partner := GridDescentSticks(c, t, batch, b, f, x, y, key);
  }

  lemma GridDescentSticks(c: Campus, t: Tables, batch: seq<nat>, b: nat, f: FacilityId, x: Instant, y: Instant, key: int)
    returns (plan: seq<Lock>, partner: seq<Lock>)
    requires ValidCampus(c) && InTable(batch, t) && RowsKnown(c, t) && Descends(c, t, batch, b, f, x, y)
    requires f in c.facilities && c.facilities[f].granularity > 0
    requires IsBlock(c.facilities[f], c.zone, x) && IsBlock(c.facilities[f], c.zone, y)
    ensures plan == Deduped(SweepPlan(c, t, batch))
    ensures partner == ClosurePlan(f, c.facilities[f], c.zone, key, x, y + c.facilities[f].granularity)
    ensures SinglePass(partner) && CanStick(plan, [partner])
  {
    var k;
    plan, k := DescentPlaced(c, t, batch, b, f, x, y);
    partner := ClosureAgainst(c.facilities[f], f, c.zone, key, x, y, plan, k);
  }

  lemma ClosureAgainst(fac: Facility, f: FacilityId, zone: int, key: int, x: Instant, y: Instant, plan: seq<Lock>, k: nat)
    returns (partner: seq<Lock>)
    requires ValidFacility(fac) && fac.granularity > 0 && IsBlock(fac, zone, x) && IsBlock(fac, zone, y) && x < y
    requires DistinctLocks(plan) && CountersOnly(plan) && k < |plan| && plan[k] == CounterLock(f, x) && CounterLock(f, y) in plan[..k]
    ensures partner == ClosurePlan(f, fac, zone, key, x, y + fac.granularity)
    ensures SinglePass(partner) && CanStick(plan, [partner])
  {
    var e;
    e, partner := ClosureFrom(fac, f, zone, key, x, y);
    LockedThenInverted(plan, k, partner, e);
  }

  lemma DescentOnGrid(c: Campus, t: Tables, batch: seq<nat>, now: Instant, b: nat, f: FacilityId, x: Instant, y: Instant)
    requires ValidCampus(c) && Inv(c, t) && RowsKnown(c, t) && AllDueNoShows(t, now, c.grace, batch)
    requires Descends(c, t, batch, b, f, x, y)
    ensures f in c.facilities && c.facilities[f].granularity > 0
    ensures IsBlock(c.facilities[f], c.zone, x) && IsBlock(c.facilities[f], c.zone, y)
  {
    GivenUpOnGrid(c, t, batch[b], now, f, x);
    var a :| 0 <= a < b && GivesUp(c, t.bookings[batch[a]], f, y);
    GivenUpOnGrid(c, t, batch[a], now, f, y);
  }

  lemma LockedThenInverted(plan: seq<Lock>, k: nat, partner: seq<Lock>, e: nat)
    requires DistinctLocks(plan) && CountersOnly(plan) && k < |plan| && 1 < e < |partner|
    requires partner[0].FacilityLock? && partner[1] == plan[k] && partner[e] in plan[..k]
    ensures CanStick(plan, [partner])
  {
    var m := FirstHeld(partner, plan[..k], e);
    assert partner[0] !in plan[..k] && partner[1] !in plan[..k];
    InversionSticks(plan, k, partner, 1, m);
  }

  /** Exactly when a check-in sweep can deadlock with single-pass transactions: when some
      no-show of its batch gives up a new block below one that an earlier no-show of the
      batch gave up in the same facility. */
  lemma SweepDeadlockIff(c: Campus, t: Tables, batch: seq<nat>, now: Instant)
    requires ValidCampus(c) && Inv(c, t) && RowsKnown(c, t) && AllDueNoShows(t, now, c.grace, batch)
    ensures (exists partners :: AllSinglePass(partners) && CanStick(Deduped(SweepPlan(c, t, batch)), partners))
            <==> AnyDescent(c, t, batch)
  {
    var plan := Deduped(SweepPlan(c, t, batch));
    if AnyDescent(c, t, batch) {
      var b: nat, f: FacilityId, x: Instant, y: Instant :| Descends(c, t, batch, b, f, x, y);
      var stuck, partner := DescentSticks(c, t, batch, now, b, f, x, y, 0);
      assert AllSinglePass([partner]) && CanStick(plan, [partner]);
    } else {
      SweepOrderedIff(c, t, batch);
      SweepCounters(c, t, batch);
      forall partners | AllSinglePass(partners) ensures !CanStick(plan, partners) {
        AscendingNeverSticks(plan, partners);
      }
    }
  }

  /** A batch that comes back in the order it was selected, by start, never deadlocks with
      single-pass transactions. */
  lemma StartOrderIsSafe(c: Campus, t: Tables, batch: seq<nat>, now: Instant, partners: seq<seq<Lock>>)
    requires ValidCampus(c) && Inv(c, t) && RowsKnown(c, t) && AllDueNoShows(t, now, c.grace, batch)
    requires forall a, b :: 0 <= a < b < |batch| ==> t.bookings[batch[a]].start <= t.bookings[batch[b]].start
    requires AllSinglePass(partners)
    ensures !CanStick(Deduped(SweepPlan(c, t, batch)), partners)
  {
    NoDescentsInOrder(c, t, batch, now);
    SweepDeadlockIff(c, t, batch, now);
  }

  lemma NoDescentInOrder(c: Campus, t: Tables, batch: seq<nat>, now: Instant, b: nat, f: FacilityId, x: Instant, y: Instant)
    requires ValidCampus(c) && Inv(c, t) && RowsKnown(c, t) && AllDueNoShows(t, now, c.grace, batch)
    requires forall a, e :: 0 <= a < e < |batch| ==> t.bookings[batch[a]].start <= t.bookings[batch[e]].start
    requires b < |batch| && x < y && GivesUp(c, t.bookings[batch[b]], f, x) && GivesUpBefore(c, t, batch, b, f, y)
    ensures GivesUpBefore(c, t, batch, b, f, x)
  {
    var a :| 0 <= a < b && GivesUp(c, t.bookings[batch[a]], f, y);
    GivenUpOnGrid(c, t, batch[a], now, f, y);
    GivenUpOnGrid(c, t, batch[b], now, f, x);
    Covered(c.facilities[f], c.zone, t.bookings[batch[a]], t.bookings[batch[b]], x, y);
  }

  /** A block of the later booking below a block of the earlier one is a block of both. */
  lemma Covered(f: Facility, zone: int, early: Booking, late: Booking, x: Instant, y: Instant)
    requires ValidFacility(f) && OnGrid(f, zone, early.start, early.end) && IsBlock(f, zone, x)
    requires early.start <= late.start && x < y
    requires Has(SlotsFor(f.granularity, early.start, early.end), y) && Has(SlotsFor(f.granularity, late.start, late.end), x)
    ensures Has(SlotsFor(f.granularity, early.start, early.end), x)
  {
    SlotsForExact(f.granularity, early.start, early.end, y);
    SlotsForExact(f.granularity, late.start, late.end, x);
    SameDayStep(f, zone, early.start, early.end, x);
    SlotsForExact(f.granularity, early.start, early.end, x);
  }

  lemma SameDay(f: Facility, zone: int, start: Instant, end: Instant, x: Instant)
    requires ValidFacility(f) && OnGrid(f, zone, start, end) && start <= x < end
    ensures Midnight(zone, x) == Midnight(zone, start)
  {
    MidnightApart(zone, Midnight(zone, start), x);
  }

  lemma SameDayStep(f: Facility, zone: int, start: Instant, end: Instant, x: Instant)
    requires ValidFacility(f) && OnGrid(f, zone, start, end) && start <= x < end && IsBlock(f, zone, x)
    ensures OnStep(f.granularity, x - start)
  {
    SameDay(f, zone, start, end, x);
    StepBetween(f.granularity, start - Midnight(zone, start) - f.opens, x - Midnight(zone, x) - f.opens, x - start);
  }

  lemma StepBetween(g: int, a: int, b: int, d: int)
    requires g > 0 && OnStep(g, a) && OnStep(g, b) && a <= b && d == b - a
    ensures OnStep(g, d)
  {
    OnStepDiff(g, b, a);
  }

  // ----------------------------------------------------------- two sweeps at once

  /** One has taken i locks and wants one the other has, the other j and wants one of the
      first's, and so far they have taken nothing in common. */
  ghost predicate Crossing(p: seq<Lock>, q: seq<Lock>, i: nat, j: nat)
  {
    && i < |p| && j < |q| && p[i] in q[..j] && q[j] in p[..i]
    && forall l :: l in p[..i] ==> l !in q[..j]
  }

  lemma AdvanceKeepsExclusion(s: System, i: nat)
    requires WellFormed(s) && MutuallyExclusive(s) && CanAdvance(s, i)
    ensures WellFormed(Advance(s, i)) && MutuallyExclusive(Advance(s, i))
  {
    var u := Advance(s, i);
    forall j, l | 0 <= j < |s| && Holds(u[j], l)
      ensures Holds(s[j], l) || (j == i && s[i].taken < |s[i].plan| && l == s[i].plan[s[i].taken])
    {
    }
    forall j, k, l | 0 <= j < |u| && 0 <= k < |u| && j != k && Holds(u[j], l) ensures !Holds(u[k], l) {
    }
  }

  lemma {:induction false} RunKeepsExclusion(s: System, schedule: seq<nat>)
    requires WellFormed(s) && MutuallyExclusive(s) && IsSchedule(s, schedule)
    ensures MutuallyExclusive(After(s, schedule))
    decreases |schedule|
  {
    if |schedule| > 0 {
      AdvanceKeepsExclusion(s, schedule[0]);
      RunKeepsExclusion(Advance(s, schedule[0]), schedule[1..]);
    }
  }

  /** Two transactions that are stuck have crossed. */
  lemma StuckPairCrosses(s: System)
    requires |s| == 2 && WellFormed(s) && MutuallyExclusive(s) && Stuck(s)
    ensures Crossing(s[0].plan, s[1].plan, s[0].taken, s[1].taken)
  {
    assert !CanAdvance(s, 0) && !CanAdvance(s, 1);
    forall l ensures Holds(s[0], l) <==> !s[0].ended && l in s[0].plan[..s[0].taken] { HeldIsTaken(s[0], l); }
    forall l ensures Holds(s[1], l) <==> !s[1].ended && l in s[1].plan[..s[1].taken] { HeldIsTaken(s[1], l); }
    assert !s[0].ended && !s[1].ended;
  }

  lemma CrossingSticks(p: seq<Lock>, q: seq<Lock>, i: nat, j: nat)
    requires Crossing(p, q, i, j)
    ensures CanStick(p, [q])
  {
    var s := Fresh([p] + [q]);
    assert s == Pair(p, 0, q, 0);
    var ones := seq(j, _ => 1);
    forall e | 0 <= e < j ensures q[e] !in p[..i] {
      assert q[..j][e] == q[e];
    }
    ThenPartnerMoves(p, i, q, 0, j);
    FirstMoves(p, q, 0, i, ones);
    var u := Pair(p, i, q, j);
    assert After(s, seq(i, _ => 0) + ones) == u;
    HeldIsTaken(u[0], q[j]);
    HeldIsTaken(u[1], p[i]);
    assert !CanAdvance(u, 0) && !CanAdvance(u, 1) && !u[0].ended;
    assert Sticks(s, seq(i, _ => 0) + ones);
  }

  lemma StickingPairCrosses(p: seq<Lock>, q: seq<Lock>)
    requires CanStick(p, [q])
    ensures exists i, j :: Crossing(p, q, i, j)
  {
    var s := Fresh([p] + [q]);
    var schedule :| Sticks(s, schedule);
    assert |s| == 2 && s[0].plan == p && s[1].plan == q;
    RunKeepsPlans(s, schedule);
    RunKeepsExclusion(s, schedule);
    StuckPairCrosses(After(s, schedule));
  }

  /** Exactly when two transactions, in whatever order they take their locks, can deadlock. */
  lemma TwoDeadlockIff(p: seq<Lock>, q: seq<Lock>)
    ensures CanStick(p, [q]) <==> exists i, j :: Crossing(p, q, i, j)
  {
    if CanStick(p, [q]) {
      StickingPairCrosses(p, q);
    }
    if i, j :| Crossing(p, q, i, j) {
      CrossingSticks(p, q, i, j);
    }
  }

  /** The shared no-shows of the batch are all of facility f. */
  ghost predicate InFacility(c: Campus, t: Tables, batch: seq<nat>, f: FacilityId)
    requires InTable(batch, t)
  {
    forall a :: 0 <= a < |batch| && !t.bookings[batch[a]].exclusive ==> t.bookings[batch[a]].facility == f
  }

  /** Two sweeps that each handle their batch in order of start never deadlock with each other
      when one of them stays in one shared facility. */
  lemma OneFacilitySweepIsSafe(c: Campus, t: Tables, now: Instant, batch: seq<nat>, other: seq<nat>, f: FacilityId)
    requires ValidCampus(c) && Inv(c, t) && RowsKnown(c, t)
    requires AllDueNoShows(t, now, c.grace, batch) && AllDueNoShows(t, now, c.grace, other)
    requires forall a, b :: 0 <= a < b < |batch| ==> t.bookings[batch[a]].start <= t.bookings[batch[b]].start
    requires forall a, b :: 0 <= a < b < |other| ==> t.bookings[other[a]].start <= t.bookings[other[b]].start
    requires InFacility(c, t, other, f)
    ensures !CanStick(Deduped(SweepPlan(c, t, batch)), [Deduped(SweepPlan(c, t, other))])
  {
    NoDescentsInOrder(c, t, other, now);
    OneFacilitySinglePass(c, t, other, f);
    StartOrderIsSafe(c, t, batch, now, [Deduped(SweepPlan(c, t, other))]);
  }

  lemma NoDescentsInOrder(c: Campus, t: Tables, batch: seq<nat>, now: Instant)
    requires ValidCampus(c) && Inv(c, t) && RowsKnown(c, t) && AllDueNoShows(t, now, c.grace, batch)
    requires forall a, b :: 0 <= a < b < |batch| ==> t.bookings[batch[a]].start <= t.bookings[batch[b]].start
    ensures !AnyDescent(c, t, batch)
  {
    forall b: nat, f: FacilityId, x: Instant, y: Instant ensures !Descends(c, t, batch, b, f, x, y) {
      if Descends(c, t, batch, b, f, x, y) {
        NoDescentInOrder(c, t, batch, now, b, f, x, y);
      }
    }
  }

  lemma OneFacilitySinglePass(c: Campus, t: Tables, batch: seq<nat>, f: FacilityId)
    requires ValidCampus(c) && InTable(batch, t) && RowsKnown(c, t) && InFacility(c, t, batch, f) && !AnyDescent(c, t, batch)
    ensures SinglePass(Deduped(SweepPlan(c, t, batch)))
  {
    var plan := Deduped(SweepPlan(c, t, batch));
    SweepOrderedIff(c, t, batch);
    SweepPlanExact(c, t, batch);
    SweepCounters(c, t, batch);
    DedupedExact(SweepPlan(c, t, batch));
    forall k | 0 <= k < |plan| ensures plan[k].facility == f {
      assert plan[k] in SweepPlan(c, t, batch);
    }
    assert OneFacility(plan, f);
  }
}
