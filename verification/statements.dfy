/** The SQL statements of the write path, as functions of the tables they touch. */
module Statements {
  import opened Model
  import opened Grid

  // ------------------------------------------------------------------ bookings

  /** Some holding row of the facility overlaps [start, end). */
  predicate Conflicts(bs: seq<Booking>, f: FacilityId, start: Instant, end: Instant)
  {
    exists i :: 0 <= i < |bs| && bs[i].facility == f && Holding(bs[i]) && Overlaps(bs[i].start, bs[i].end, start, end)
  }

  /** The row booking_find_by_idem returns. */
  function FindKey(bs: seq<Booking>, user: Option<UserId>, key: Option<string>): (r: Option<nat>)
    ensures r.Some? ==> r.value < |bs| && key.Some? && bs[r.value].user == user && bs[r.value].key == key
    ensures r.None? && key.Some? ==> forall i :: 0 <= i < |bs| ==> !(bs[i].user == user && bs[i].key == key)
  {
    if key.None? || |bs| == 0 then None
    else
      var n := |bs| - 1;
      match FindKey(bs[..n], user, key)
      case Some(i) => Some(i)
      case None => if bs[n].user == user && bs[n].key == key then Some(n) else None
  }

  datatype InsertVerdict = Admitted | SlotTaken | DuplicateKey

  /** What the constraints say about a new row: uq_bookings_user_idem and
      no_double_book. uniqueFirst is the order in which the indexes are consulted. */
  function CheckInsert(bs: seq<Booking>, row: Booking, uniqueFirst: bool): InsertVerdict
  {
    var duplicate := FindKey(bs, row.user, row.key).Some?;
    var taken := Holding(row) && Conflicts(bs, row.facility, row.start, row.end);
    if duplicate && (uniqueFirst || !taken) then DuplicateKey
    else if taken then SlotTaken
    else Admitted
  }

  /** Row a keeps row out under no_double_book. */
  predicate Clash(a: Booking, row: Booking)
  {
    Holding(a) && Holding(row) && a.facility == row.facility && Overlaps(a.start, a.end, row.start, row.end)
  }

  /** Row a keeps row out under uq_bookings_user_idem. */
  predicate SameKey(a: Booking, row: Booking)
  {
    row.key.Some? && a.user == row.user && a.key == row.key
  }

  /** A row gets in exactly when no row clashes with it and none has its user and key; what is
      reported otherwise is a reason that holds, and the index consulted first if both do. */
  lemma InsertExact(bs: seq<Booking>, row: Booking, uniqueFirst: bool)
    ensures var v := CheckInsert(bs, row, uniqueFirst);
            var clash, twin := exists i :: 0 <= i < |bs| && Clash(bs[i], row), exists i :: 0 <= i < |bs| && SameKey(bs[i], row);
            && (v == Admitted <==> !clash && !twin)
            && (v == SlotTaken <==> clash && !(twin && uniqueFirst))
            && (v == DuplicateKey <==> twin && !(clash && !uniqueFirst))
  {
    var taken := Holding(row) && Conflicts(bs, row.facility, row.start, row.end);
    if taken {
      var i :| 0 <= i < |bs| && bs[i].facility == row.facility && Holding(bs[i]) && Overlaps(bs[i].start, bs[i].end, row.start, row.end);
      assert Clash(bs[i], row);
    }
    if FindKey(bs, row.user, row.key).Some? {
      assert SameKey(bs[FindKey(bs, row.user, row.key).value], row);
    }
  }

  /** CHECK ((status = 'HELD') = (held_until IS NOT NULL)). */
  predicate HeldCheck(b: Booking)
  {
    b.status == Held <==> b.heldUntil.Some?
  }

  /** booking_cancel's SET clause: the status changes, held_until stays; None is zero rows. */
  function CancelUpdate(b: Booking): Option<Booking>
  {
    if b.status == Confirmed || b.status == Held then Some(b.(status := Cancelled)) else None
  }

  /** A status UPDATE over a set of rows; held_until is cleared with it. */
  function Marked(bs: seq<Booking>, ids: set<nat>, status: Status): (r: seq<Booking>)
    ensures |r| == |bs|
    ensures forall i :: 0 <= i < |bs| ==> r[i] == if i in ids then bs[i].(status := status, heldUntil := None) else bs[i]
  {
    seq(|bs|, i requires 0 <= i < |bs| => if i in ids then bs[i].(status := status, heldUntil := None) else bs[i])
  }

  // ------------------------------------------------------------------ capacity

  /** A BLOCKED row of the facility overlaps [start, end). */
  predicate BlockedOver(bs: seq<Booking>, f: FacilityId, start: Instant, end: Instant)
  {
    exists i :: 0 <= i < |bs| && bs[i].facility == f && bs[i].status == Blocked && Overlaps(bs[i].start, bs[i].end, start, end)
  }

  type CapacityTable = map<SlotKey, Counter>

  /** capacity_take; None is zero rows, the slot is full. */
  function Take(cap: CapacityTable, f: FacilityId, slot: Slot, declared: int): Option<CapacityTable>
  {
    var k := SlotKey(f, slot.start);
    if k !in cap then Some(cap[k := Counter(slot.end, declared, 1)])
    else if cap[k].booked < cap[k].capacity then Some(cap[k := cap[k].(booked := cap[k].booked + 1)])
    else None
  }

  /** capacity_release; a guard that matches nothing changes nothing. */
  function Release(cap: CapacityTable, f: FacilityId, slot: Slot): CapacityTable
  {
    var k := SlotKey(f, slot.start);
    if k in cap && cap[k].booked > 0 then cap[k := cap[k].(booked := cap[k].booked - 1)] else cap
  }

  /** closure_zero_capacity. */
  function Zero(cap: CapacityTable, f: FacilityId, slot: Slot): CapacityTable
  {
    var k := SlotKey(f, slot.start);
    cap[k := if k in cap then cap[k].(capacity := 0) else Counter(slot.end, 0, 0)]
  }

  /** closure_restore_capacity. */
  function Restore(cap: CapacityTable, bs: seq<Booking>, f: FacilityId, slot: Slot, declared: int): CapacityTable
  {
    var k := SlotKey(f, slot.start);
    if k in cap && cap[k].capacity == 0 && !BlockedOver(bs, f, k.start, cap[k].end)
    then cap[k := cap[k].(capacity := declared)]
    else cap
  }

  function TakeAll(cap: CapacityTable, f: FacilityId, slots: seq<Slot>, declared: int): Option<CapacityTable>
  {
    if |slots| == 0 then Some(cap)
    else
      var n := |slots| - 1;
      match TakeAll(cap, f, slots[..n], declared)
      case None => None
      case Some(m) => Take(m, f, slots[n], declared)
  }

  function ReleaseAll(cap: CapacityTable, f: FacilityId, slots: seq<Slot>): CapacityTable
  {
    if |slots| == 0 then cap
    else Release(ReleaseAll(cap, f, slots[..|slots| - 1]), f, slots[|slots| - 1])
  }

  function ZeroAll(cap: CapacityTable, f: FacilityId, slots: seq<Slot>): CapacityTable
  {
    if |slots| == 0 then cap
    else Zero(ZeroAll(cap, f, slots[..|slots| - 1]), f, slots[|slots| - 1])
  }

  function RestoreAll(cap: CapacityTable, bs: seq<Booking>, f: FacilityId, slots: seq<Slot>, declared: int): CapacityTable
  {
    if |slots| == 0 then cap
    else Restore(RestoreAll(cap, bs, f, slots[..|slots| - 1], declared), bs, f, slots[|slots| - 1], declared)
  }

  // ------------------------------------------------------------------ waitlist

  /** The WHERE clause of waitlist_claim_head. */
  predicate Eligible(e: Entry, f: FacilityId, start: Instant, end: Instant)
  {
    e.facility == f && e.status == Waiting && Overlaps(e.start, e.end, start, end)
  }

  /** waitlist_claim_head: priority descending, then position ascending, over the
      rows nobody else has locked. */
  function ClaimHead(entries: seq<Entry>, f: FacilityId, start: Instant, end: Instant, locked: set<nat>): (r: Option<nat>)
    ensures r.Some? ==> r.value < |entries|
  {
    if |entries| == 0 then None
    else
      var n := |entries| - 1;
      var best := ClaimHead(entries[..n], f, start, end, locked);
      if n in locked || !Eligible(entries[n], f, start, end) then best
      else if best.Some? && entries[best.value].priority >= entries[n].priority then best
      else Some(n)
  }

  /** w is the unlocked eligible entry that everybody else queues behind. */
  ghost predicate IsHead(entries: seq<Entry>, f: FacilityId, start: Instant, end: Instant, locked: set<nat>, w: nat)
  {
    && w < |entries| && w !in locked && Eligible(entries[w], f, start, end)
    && forall v :: 0 <= v < |entries| && v !in locked && v != w && Eligible(entries[v], f, start, end) ==>
         entries[v].priority < entries[w].priority || (entries[v].priority == entries[w].priority && w < v)
  }

  lemma {:induction false} ClaimHeadIsHead(entries: seq<Entry>, f: FacilityId, start: Instant, end: Instant, locked: set<nat>)
    ensures var r := ClaimHead(entries, f, start, end, locked);
            && (r.Some? ==> IsHead(entries, f, start, end, locked, r.value))
            && (r.None? ==> forall v :: 0 <= v < |entries| && v !in locked ==> !Eligible(entries[v], f, start, end))
  {
    if |entries| > 0 {
      var n := |entries| - 1;
      ClaimHeadIsHead(entries[..n], f, start, end, locked);
    }
  }

  /** waitlist_mark_claimed and waitlist_mark_expired. */
  function Retired(entries: seq<Entry>, booking: nat, status: EntryStatus): (r: seq<Entry>)
    ensures |r| == |entries|
    ensures forall w :: 0 <= w < |entries| ==>
              r[w] == if entries[w].booking == Some(booking) && entries[w].status == Promoted
                      then entries[w].(status := status) else entries[w]
  {
    seq(|entries|, w requires 0 <= w < |entries| =>
      if entries[w].booking == Some(booking) && entries[w].status == Promoted
      then entries[w].(status := status) else entries[w])
  }

  /** uq_waitlist_live already holds this window for this user. */
  predicate LiveEntry(entries: seq<Entry>, f: FacilityId, user: UserId, start: Instant, end: Instant)
  {
    exists w :: 0 <= w < |entries| && (entries[w].status == Waiting || entries[w].status == Promoted)
      && entries[w].facility == f && entries[w].user == user && entries[w].start == start && entries[w].end == end
  }

  // ------------------------------------------------------------------- batches

  const SWEEP_BATCH: nat := 100

  /** booking_expire_held's inner SELECT takes these rows. */
  predicate DueHold(b: Booking, now: Instant)
  {
    b.status == Held && b.heldUntil.Some? && b.heldUntil.value <= now
  }

  /** booking_complete_attended's. */
  predicate DueComplete(t: Tables, i: nat, now: Instant)
    requires i < |t.bookings|
  {
    t.bookings[i].status == Confirmed && t.bookings[i].end <= now && i in t.checkIns
  }

  /** booking_mark_no_show's. */
  predicate DueNoShow(t: Tables, i: nat, now: Instant, grace: int)
    requires i < |t.bookings|
  {
    t.bookings[i].status == Confirmed && t.bookings[i].start < now - grace && i !in t.checkIns
  }

  ghost predicate Distinct(ids: seq<nat>)
  {
    forall i, j :: 0 <= i < j < |ids| ==> ids[i] != ids[j]
  }

  function Ids(batch: seq<nat>): set<nat>
  {
    set i | i in batch
  }

  /** batch is a result of `SELECT id WHERE id in due ORDER BY rank FOR UPDATE SKIP LOCKED
      LIMIT 100`, in whatever order the UPDATE returns it: distinct unlocked due rows, no
      due row left out that ranks before a chosen one, and none at all below the limit. */
  ghost predicate IsBatch(batch: seq<nat>, due: set<nat>, rank: nat -> int, locked: set<nat>)
  {
    && Distinct(batch) && |batch| <= SWEEP_BATCH
    && Ids(batch) <= due - locked
    && (forall i, j :: i in due - locked - Ids(batch) && j in batch ==> rank(j) <= rank(i))
    && (|batch| < SWEEP_BATCH ==> due - locked <= Ids(batch))
  }
}
