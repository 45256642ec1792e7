/** Locks of the counter path, held to the end of the transaction: why any number of
    single-pass transactions can always make progress. */
module LockOrder {
  import opened Model
  import opened Grid

  /** What the shared write path can wait on: the facility's advisory lock, a booking row,
      a counter row, and the idempotency index entry another open insert has claimed. */
  datatype Lock =
    | FacilityLock(key: int)
    | RowLock(id: nat)
    | CounterLock(facility: FacilityId, start: Instant)
    | KeyLock(entry: nat)

  function Class(l: Lock): nat
  {
    match l
    case FacilityLock(_) => 0
    case RowLock(_) => 1
    case CounterLock(_, _) => 2
    case KeyLock(_) => 3
  }

  predicate Before(a: Lock, b: Lock)
  {
    if Class(a) != Class(b) then Class(a) < Class(b)
    else match a
      case FacilityLock(k) => k < b.key
      case RowLock(i) => i < b.id
      case CounterLock(f, s) => f < b.facility || (f == b.facility && s < b.start)
      case KeyLock(e) => e < b.entry
  }

  /** A transaction: the locks it will take, in order, and how many it has taken. */
  datatype Txn = Txn(plan: seq<Lock>, taken: nat, ended: bool)

  type System = seq<Txn>

  ghost predicate Ordered(plan: seq<Lock>)
  {
    forall i, j :: 0 <= i < j < |plan| ==> Before(plan[i], plan[j])
  }

  ghost predicate WellFormed(s: System)
  {
    forall i :: 0 <= i < |s| ==> s[i].taken <= |s[i].plan|
  }

  ghost predicate AllOrdered(s: System)
  {
    forall i :: 0 <= i < |s| ==> Ordered(s[i].plan)
  }

  ghost predicate Holds(x: Txn, l: Lock)
  {
    !x.ended && exists k :: 0 <= k < x.taken && k < |x.plan| && x.plan[k] == l
  }

  /** Two-phase locking: nobody else holds what i holds. */
  ghost predicate MutuallyExclusive(s: System)
  {
    forall i, j, l :: 0 <= i < |s| && 0 <= j < |s| && i != j && Holds(s[i], l) ==> !Holds(s[j], l)
  }

  ghost predicate CanTake(s: System, i: nat)
  {
    && i < |s| && !s[i].ended && s[i].taken < |s[i].plan|
    && forall j :: 0 <= j < |s| && j != i ==> !Holds(s[j], s[i].plan[s[i].taken])
  }

  ghost predicate CanCommit(s: System, i: nat)
  {
    i < |s| && !s[i].ended && s[i].taken >= |s[i].plan|
  }

  /** i takes its next lock, or commits and lets go of everything. */
  function Advance(s: System, i: nat): System
    requires i < |s|
  {
    if s[i].taken < |s[i].plan| then s[i := s[i].(taken := s[i].taken + 1)] else s[i := s[i].(ended := true)]
  }

  ghost predicate CanAdvance(s: System, i: nat)
  {
    CanTake(s, i) || CanCommit(s, i)
  }

  lemma AdvanceKeeps(s: System, i: nat)
    requires WellFormed(s) && AllOrdered(s) && MutuallyExclusive(s) && CanAdvance(s, i)
    ensures WellFormed(Advance(s, i)) && AllOrdered(Advance(s, i)) && MutuallyExclusive(Advance(s, i))
  {
    var u := Advance(s, i);
    forall j, l | 0 <= j < |s| && Holds(u[j], l)
      ensures Holds(s[j], l) || (j == i && s[i].taken < |s[i].plan| && l == s[i].plan[s[i].taken])
    {
    }
    forall j, k, l | 0 <= j < |u| && 0 <= k < |u| && j != k && Holds(u[j], l) ensures !Holds(u[k], l) {
    }
  }

  /** The unfinished transactions that wait for something later than l. */
  ghost function WaitingAbove(s: System, l: Lock): set<nat>
  {
    set i: nat | i < |s| && !s[i].ended && s[i].taken < |s[i].plan| && Before(l, s[i].plan[s[i].taken])
  }

  /** Follow the holders: the chain climbs the lock order, so it ends at a transaction
      that can move. */
  lemma {:induction false} SomebodyMoves(s: System, i: nat) returns (r: nat)
    requires WellFormed(s) && AllOrdered(s) && i < |s| && !s[i].ended
    ensures CanAdvance(s, r)
    decreases if s[i].taken < |s[i].plan| then |WaitingAbove(s, s[i].plan[s[i].taken])| + 1 else 0
  {
    if CanAdvance(s, i) {
      return i;
    }
    var wanted := s[i].plan[s[i].taken];
    var j :| 0 <= j < |s| && j != i && Holds(s[j], wanted);
    if s[j].taken < |s[j].plan| {
      var next := s[j].plan[s[j].taken];
      assert Before(wanted, next);
      assert j in WaitingAbove(s, wanted) && j !in WaitingAbove(s, next);
      assert WaitingAbove(s, next) < WaitingAbove(s, wanted);
      SubsetSmaller(WaitingAbove(s, next), WaitingAbove(s, wanted));
    }
    r := SomebodyMoves(s, j);
  }

  lemma SubsetSmaller(a: set<nat>, b: set<nat>)
    requires a < b
    ensures |a| < |b|
  {
    var x :| x in b && x !in a;
    assert a <= b - {x};
    SubsetAtMost(a, b - {x});
  }

  lemma {:induction false} SubsetAtMost(a: set<nat>, b: set<nat>)
    requires a <= b
    ensures |a| <= |b|
    decreases a
  {
    if a != {} {
      var x :| x in a;
      SubsetAtMost(a - {x}, b - {x});
    }
  }

  /** Deadlock freedom: unless every transaction has ended, one of them can move. */
  lemma NoDeadlock(s: System)
    requires WellFormed(s) && AllOrdered(s)
    ensures (exists i :: 0 <= i < |s| && !s[i].ended) ==> exists r: nat :: CanAdvance(s, r)
  {
    if i :| 0 <= i < |s| && !s[i].ended {
      var r := SomebodyMoves(s, i);
    }
  }

  // -------------------------------------------------------------- completion

  /** Lock requests and commits still to come. */
  function Remaining(s: System): nat
  {
    if |s| == 0 then 0
    else
      var x := s[|s| - 1];
      Remaining(s[..|s| - 1])
      + (if x.ended then 0 else if x.taken < |x.plan| then |x.plan| - x.taken + 1 else 1)
  }

  lemma {:induction false} AdvanceShrinks(s: System, i: nat)
    requires i < |s| && !s[i].ended
    ensures Remaining(Advance(s, i)) == Remaining(s) - 1
  {
    var n := |s| - 1;
    if i < n {
      assert Advance(s, i)[..n] == Advance(s[..n], i);
      AdvanceShrinks(s[..n], i);
    } else {
      assert Advance(s, i)[..n] == s[..n];
    }
  }

  ghost predicate AllEnded(s: System)
  {
    forall i :: 0 <= i < |s| ==> s[i].ended
  }

  ghost predicate IsSchedule(s: System, schedule: seq<nat>)
    decreases |schedule|
  {
    |schedule| > 0 ==> CanAdvance(s, schedule[0]) && IsSchedule(Advance(s, schedule[0]), schedule[1..])
  }

  ghost function After(s: System, schedule: seq<nat>): System
    requires IsSchedule(s, schedule)
    decreases |schedule|
  {
    if |schedule| == 0 then s else After(Advance(s, schedule[0]), schedule[1..])
  }

  /** From any state, everybody gets to the end; and however the scheduler chooses among the
      transactions that can move, it takes exactly Remaining(s) moves. */
  lemma {:induction false} EverybodyFinishes(s: System) returns (schedule: seq<nat>)
    requires WellFormed(s) && AllOrdered(s) && MutuallyExclusive(s)
    ensures IsSchedule(s, schedule) && AllEnded(After(s, schedule))
    decreases Remaining(s)
  {
    if AllEnded(s) {
      return [];
    }
    var i :| 0 <= i < |s| && !s[i].ended;
    var r := SomebodyMoves(s, i);
    AdvanceKeeps(s, r);
    AdvanceShrinks(s, r);
    var rest := EverybodyFinishes(Advance(s, r));
    schedule := [r] + rest;
    assert schedule[1..] == rest;
  }

  lemma {:induction false} ScheduleLength(s: System, schedule: seq<nat>)
    requires IsSchedule(s, schedule)
    ensures |schedule| == Remaining(s) - Remaining(After(s, schedule))
    decreases |schedule|
  {
    if |schedule| > 0 {
      AdvanceShrinks(s, schedule[0]);
      ScheduleLength(Advance(s, schedule[0]), schedule[1..]);
    }
  }

  // ------------------------------------------------------ the four operations

  function CounterLocks(f: FacilityId, slots: seq<Slot>): seq<Lock>
  {
    seq(|slots|, i requires 0 <= i < |slots| => CounterLock(f, slots[i].start))
  }

  /** attemptShared: a counter per block, then the idempotency key if there is one. */
  function SharedPlan(f: FacilityId, g: int, start: Instant, end: Instant, key: Option<nat>): seq<Lock>
  {
    CounterLocks(f, SlotsFor(g, start, end)) + match key { case Some(e) => [KeyLock(e)] case None => [] }
  }

  /** Cancel of a shared booking: its row, then its counters. */
  function CancelPlan(f: FacilityId, g: int, id: nat, start: Instant, end: Instant): seq<Lock>
  {
    [RowLock(id)] + CounterLocks(f, SlotsFor(g, start, end))
  }

  /** CreateClosure on a shared facility. */
  function ClosurePlan(f: FacilityId, fac: Facility, zone: int, key: int, start: Instant, end: Instant): seq<Lock>
  {
    [FacilityLock(key)] + CounterLocks(f, ClosureSlots(fac, zone, start, end))
  }

  /** Reopen on a shared facility. */
  function ReopenPlan(f: FacilityId, fac: Facility, zone: int, key: int, id: nat, start: Instant, end: Instant): seq<Lock>
  {
    [FacilityLock(key), RowLock(id)] + CounterLocks(f, ClosureSlots(fac, zone, start, end))
  }

  /** Each of them takes its locks in ascending order. */
  lemma PlansOrdered(f: FacilityId, fac: Facility, zone: int, key: int, id: nat, start: Instant, end: Instant, idem: Option<nat>)
    requires ValidFacility(fac)
    ensures Ordered(SharedPlan(f, fac.granularity, start, end, idem))
    ensures Ordered(CancelPlan(f, fac.granularity, id, start, end))
    ensures Ordered(ClosurePlan(f, fac, zone, key, start, end))
    ensures Ordered(ReopenPlan(f, fac, zone, key, id, start, end))
  {
    SlotsForAscending(fac.granularity, start, end);
    ClosureSlotsAscending(fac, zone, start, end);
  }
}
