/** The counter rows: what a pass over a list of blocks does to each of them, and how
    the counters stay equal to the bookings that hold a place. */
module CounterLemmas {
  import opened Model
  import opened Grid
  import opened Statements
  import opened Transitions
  import opened Invariants

  // -------------------------------------------- one pass over ascending blocks

  lemma AscendingPrefix(slots: seq<Slot>, x: Instant)
    requires |slots| > 0 && Ascending(slots)
    ensures var n := |slots| - 1;
            Ascending(slots[..n]) && (Has(slots, x) <==> Has(slots[..n], x) || x == slots[n].start)
            && !Has(slots[..n], slots[n].start)
  {
    var n := |slots| - 1;
    assert slots == slots[..n] + [slots[n]];
    HasConcat(slots[..n], [slots[n]], x);
    assert Has([slots[n]], x) <==> x == slots[n].start by { assert [slots[n]][0] == slots[n]; }
  }

  ghost predicate InPass(f: FacilityId, slots: seq<Slot>, k: SlotKey)
  {
    k.facility == f && Has(slots, k.start)
  }

  ghost predicate FullBlocks(slots: seq<Slot>, g: int)
  {
    forall i :: 0 <= i < |slots| ==> slots[i].end == slots[i].start + g
  }

  /** A successful pass of takes adds one place to each of its blocks and nothing else. */
  lemma {:induction false} TakeAllAt(cap: CapacityTable, f: FacilityId, slots: seq<Slot>, declared: int, g: int, k: SlotKey)
    requires Ascending(slots) && FullBlocks(slots, g)
    requires TakeAll(cap, f, slots, declared).Some?
    ensures var m := TakeAll(cap, f, slots, declared).value;
            if InPass(f, slots, k) then
              && k in m
              && (if k in cap then cap[k].booked < cap[k].capacity && m[k] == cap[k].(booked := cap[k].booked + 1)
                  else m[k] == Counter(k.start + g, declared, 1))
            else (k in m <==> k in cap) && (k in cap ==> m[k] == cap[k])
  {
    if |slots| > 0 {
      var n := |slots| - 1;
      AscendingPrefix(slots, k.start);
      TakeAllAt(cap, f, slots[..n], declared, g, k);
    }
  }

  /** A pass of takes fails iff one of its blocks is full beforehand. */
  lemma {:induction false} TakeAllFails(cap: CapacityTable, f: FacilityId, slots: seq<Slot>, declared: int, g: int)
    requires Ascending(slots) && FullBlocks(slots, g)
    ensures TakeAll(cap, f, slots, declared).None? <==>
            exists x :: Has(slots, x) && SlotKey(f, x) in cap && cap[SlotKey(f, x)].booked >= cap[SlotKey(f, x)].capacity
  {
    if |slots| > 0 {
      var n := |slots| - 1;
      AscendingPrefix(slots, slots[n].start);
      TakeAllFails(cap, f, slots[..n], declared, g);
      forall x ensures Has(slots, x) <==> Has(slots[..n], x) || x == slots[n].start { AscendingPrefix(slots, x); }
      if TakeAll(cap, f, slots[..n], declared).Some? {
        TakeAllAt(cap, f, slots[..n], declared, g, SlotKey(f, slots[n].start));
      }
    }
  }

  lemma {:induction false} ReleaseAllAt(cap: CapacityTable, f: FacilityId, slots: seq<Slot>, k: SlotKey)
    requires Ascending(slots)
    ensures var m := ReleaseAll(cap, f, slots);
            && (k in m <==> k in cap)
            && (k in cap ==> m[k] == if InPass(f, slots, k) && cap[k].booked > 0
                                     then cap[k].(booked := cap[k].booked - 1) else cap[k])
  {
    if |slots| > 0 {
      AscendingPrefix(slots, k.start);
      ReleaseAllAt(cap, f, slots[..|slots| - 1], k);
    }
  }

  lemma {:induction false} ZeroAllAt(cap: CapacityTable, f: FacilityId, slots: seq<Slot>, g: int, k: SlotKey)
    requires Ascending(slots) && FullBlocks(slots, g)
    ensures var m := ZeroAll(cap, f, slots);
            if InPass(f, slots, k) then
              k in m && m[k] == if k in cap then cap[k].(capacity := 0) else Counter(k.start + g, 0, 0)
            else (k in m <==> k in cap) && (k in cap ==> m[k] == cap[k])
  {
    if |slots| > 0 {
      AscendingPrefix(slots, k.start);
      ZeroAllAt(cap, f, slots[..|slots| - 1], g, k);
    }
  }

  lemma {:induction false} RestoreAllAt(cap: CapacityTable, bs: seq<Booking>, f: FacilityId, slots: seq<Slot>, declared: int, k: SlotKey)
    requires Ascending(slots)
    ensures var m := RestoreAll(cap, bs, f, slots, declared);
            && (k in m <==> k in cap)
            && (k in cap ==> m[k] == Restore(cap, bs, f, Slot(k.start, cap[k].end), declared)[k] || !InPass(f, slots, k))
            && (k in cap && !InPass(f, slots, k) ==> m[k] == cap[k])
  {
    if |slots| > 0 {
      AscendingPrefix(slots, k.start);
      RestoreAllAt(cap, bs, f, slots[..|slots| - 1], declared, k);
    }
  }

  // --------------------------------------------------- holders and closed blocks

  lemma HoldersAppend(c: Campus, bs: seq<Booking>, row: Booking, k: SlotKey)
    ensures Holders(c, bs + [row], k) == Holders(c, bs, k) + if TakesPlace(c, row, k) then {|bs|} else {}
  {
    var bs' := bs + [row];
    forall i: nat ensures i in Holders(c, bs', k) <==> i in Holders(c, bs, k) + if TakesPlace(c, row, k) then {|bs|} else {} {
      if i < |bs| { assert bs'[i] == bs[i]; }
    }
  }

  /** A row that leaves the counted statuses gives up exactly its own places. */
  lemma HoldersVacated(c: Campus, bs: seq<Booking>, i: nat, to: Status, k: SlotKey)
    requires i < |bs| && bs[i].status == Confirmed && (to == Cancelled || to == NoShow)
    ensures Holders(c, Marked(bs, {i}, to), k) == Holders(c, bs, k) - {i}
    ensures i in Holders(c, bs, k) <==> TakesPlace(c, bs[i], k)
  {
  }

  lemma HoldersUnmoved(c: Campus, bs: seq<Booking>, i: nat, to: Status, k: SlotKey)
    requires i < |bs|
    requires Counted(bs[i]) == Counted(bs[i].(status := to, heldUntil := None))
    ensures Holders(c, Marked(bs, {i}, to), k) == Holders(c, bs, k)
  {
  }

  lemma BlockedAppend(bs: seq<Booking>, row: Booking, f: FacilityId, start: Instant, end: Instant)
    ensures BlockedOver(bs + [row], f, start, end) <==>
            BlockedOver(bs, f, start, end) || (row.facility == f && row.status == Blocked && Overlaps(row.start, row.end, start, end))
  {
    var bs' := bs + [row];
    if BlockedOver(bs, f, start, end) {
      var i :| 0 <= i < |bs| && bs[i].facility == f && bs[i].status == Blocked && Overlaps(bs[i].start, bs[i].end, start, end);
      assert bs'[i] == bs[i];
    }
    if row.facility == f && row.status == Blocked && Overlaps(row.start, row.end, start, end) {
      assert bs'[|bs|] == row;
    }
  }

  lemma BlockedUnmoved(bs: seq<Booking>, i: nat, to: Status, f: FacilityId, start: Instant, end: Instant)
    requires i < |bs| && bs[i].status != Blocked && to != Blocked
    ensures BlockedOver(Marked(bs, {i}, to), f, start, end) <==> BlockedOver(bs, f, start, end)
  {
    var bs' := Marked(bs, {i}, to);
    if BlockedOver(bs, f, start, end) {
      var j :| 0 <= j < |bs| && bs[j].facility == f && bs[j].status == Blocked && Overlaps(bs[j].start, bs[j].end, start, end);
      assert bs'[j] == bs[j];
    }
    if BlockedOver(bs', f, start, end) {
      var j :| 0 <= j < |bs'| && bs'[j].facility == f && bs'[j].status == Blocked && Overlaps(bs'[j].start, bs'[j].end, start, end);
      assert bs'[j] == bs[j];
    }
  }

  // ------------------------------------------------------------- preservation

  /** A new row that holds no place and closes no block leaves the counters as they are. */
  lemma CountersAppendNeutral(c: Campus, bs: seq<Booking>, cap: CapacityTable, row: Booking)
    requires Counters(c, bs, cap) && RowOk(c, row) && row.exclusive
    ensures Counters(c, bs + [row], cap)
  {
    forall k: SlotKey ensures CounterOk(c, bs + [row], cap, k) {
      assert CounterOk(c, bs, cap, k);
      HoldersAppend(c, bs, row, k);
      if k.facility in c.facilities {
        BlockedAppend(bs, row, k.facility, k.start, k.start + c.facilities[k.facility].granularity);
      }
    }
  }

  /** A status change that neither gives up a place nor lifts a closure is neutral too. */
  lemma CountersMoveNeutral(c: Campus, bs: seq<Booking>, cap: CapacityTable, i: nat, to: Status)
    requires Counters(c, bs, cap) && i < |bs|
    requires bs[i].status != Blocked && to != Blocked
    requires Counted(bs[i]) == Counted(bs[i].(status := to, heldUntil := None))
    ensures Counters(c, Marked(bs, {i}, to), cap)
  {
    forall k: SlotKey ensures CounterOk(c, Marked(bs, {i}, to), cap, k) {
      assert CounterOk(c, bs, cap, k);
      HoldersUnmoved(c, bs, i, to, k);
      if k.facility in c.facilities {
        BlockedUnmoved(bs, i, to, k.facility, k.start, k.start + c.facilities[k.facility].granularity);
      }
    }
  }

  lemma BookingBlocks(c: Campus, b: Booking)
    requires ValidCampus(c) && RowOk(c, b) && !b.exclusive && b.user.Some?
    ensures var g := c.facilities[b.facility].granularity;
            && Ascending(SlotsFor(g, b.start, b.end)) && FullBlocks(SlotsFor(g, b.start, b.end), g)
            && forall x :: Has(SlotsFor(g, b.start, b.end), x) ==> SharedBlock(c, SlotKey(b.facility, x))
  {
    var f := c.facilities[b.facility];
    SlotsForAscending(f.granularity, b.start, b.end);
    SlotsForFull(f.granularity, b.start, b.end);
    forall x | Has(SlotsFor(f.granularity, b.start, b.end), x) ensures SharedBlock(c, SlotKey(b.facility, x)) {
      OnGridBlocks(f, c.zone, b.start, b.end, x);
    }
  }

  /** Taking a place in every block of a new booking accounts for exactly that booking. */
  lemma CountersTaken(c: Campus, bs: seq<Booking>, cap: CapacityTable, row: Booking)
    requires ValidCampus(c) && Counters(c, bs, cap)
    requires RowOk(c, row) && !row.exclusive && row.user.Some? && row.status == Confirmed
    requires var f := c.facilities[row.facility];
             TakeAll(cap, row.facility, SlotsFor(f.granularity, row.start, row.end), f.capacity).Some?
    ensures var f := c.facilities[row.facility];
            Counters(c, bs + [row], TakeAll(cap, row.facility, SlotsFor(f.granularity, row.start, row.end), f.capacity).value)
  {
    var f := c.facilities[row.facility];
    var slots := SlotsFor(f.granularity, row.start, row.end);
    var m := TakeAll(cap, row.facility, slots, f.capacity).value;
    BookingBlocks(c, row);
    forall k: SlotKey ensures CounterOk(c, bs + [row], m, k) {
      assert CounterOk(c, bs, cap, k);
      TakeAllAt(cap, row.facility, slots, f.capacity, f.granularity, k);
      HoldersAppend(c, bs, row, k);
      if k.facility in c.facilities {
        BlockedAppend(bs, row, k.facility, k.start, k.start + c.facilities[k.facility].granularity);
      }
    }
  }

  /** A booking that gives up its place finds every one of its counters positive, and
      releasing them accounts for exactly that booking. */
  lemma CountersReleased(c: Campus, t: Tables, i: nat, to: Status)
    requires ValidCampus(c) && Rows(c, t.bookings) && Counters(c, t.bookings, t.capacity)
    requires i < |t.bookings| && t.bookings[i].status == Confirmed && (to == Cancelled || to == NoShow)
    ensures Counters(c, Marked(t.bookings, {i}, to), Released(c, t, i).capacity)
    ensures forall k: SlotKey :: TakesPlace(c, t.bookings[i], k) ==> k in t.capacity && t.capacity[k].booked > 0
  {
    var bs, b := t.bookings, t.bookings[i];
    assert RowOk(c, b);
    if b.exclusive {
      CountersMoveNeutral(c, bs, t.capacity, i, to);
    } else {
      var slots := SlotsFor(c.facilities[b.facility].granularity, b.start, b.end);
      BookingBlocks(c, b);
      forall k: SlotKey
        ensures CounterOk(c, Marked(bs, {i}, to), Released(c, t, i).capacity, k)
        ensures TakesPlace(c, b, k) ==> k in t.capacity && t.capacity[k].booked > 0
      {
        assert CounterOk(c, bs, t.capacity, k);
        ReleaseAllAt(t.capacity, b.facility, slots, k);
        HoldersVacated(c, bs, i, to, k);
        if k.facility in c.facilities {
          BlockedUnmoved(bs, i, to, k.facility, k.start, k.start + c.facilities[k.facility].granularity);
        }
      }
    }
  }

  /** Zeroing the blocks a new closure overlaps closes exactly those. */
  lemma CountersZeroed(c: Campus, bs: seq<Booking>, cap: CapacityTable, row: Booking)
    requires ValidCampus(c) && Counters(c, bs, cap)
    requires RowOk(c, row) && !row.exclusive && row.status == Blocked
    ensures var f := c.facilities[row.facility];
            Counters(c, bs + [row], ZeroAll(cap, row.facility, ClosureSlots(f, c.zone, row.start, row.end)))
  {
    var f := c.facilities[row.facility];
    var slots := ClosureSlots(f, c.zone, row.start, row.end);
    var m := ZeroAll(cap, row.facility, slots);
    ClosureSlotsAscending(f, c.zone, row.start, row.end);
    forall k: SlotKey ensures CounterOk(c, bs + [row], m, k) {
      assert CounterOk(c, bs, cap, k);
      ZeroAllAt(cap, row.facility, slots, f.granularity, k);
      ClosureSlotsExact(f, c.zone, row.start, row.end, k.start);
      HoldersAppend(c, bs, row, k);
      if k.facility in c.facilities {
        BlockedAppend(bs, row, k.facility, k.start, k.start + c.facilities[k.facility].granularity);
      }
    }
  }

  /** Withdrawing closure i changes the closed state of the blocks it overlaps only. */
  lemma BlockedLifted(bs: seq<Booking>, i: nat, f: FacilityId, start: Instant, end: Instant)
    requires i < |bs| && bs[i].status == Blocked
    ensures BlockedOver(bs, f, start, end) <==>
            BlockedOver(Marked(bs, {i}, Cancelled), f, start, end)
            || (bs[i].facility == f && Overlaps(bs[i].start, bs[i].end, start, end))
  {
    var bs' := Marked(bs, {i}, Cancelled);
    if BlockedOver(bs, f, start, end) {
      var j :| 0 <= j < |bs| && bs[j].facility == f && bs[j].status == Blocked && Overlaps(bs[j].start, bs[j].end, start, end);
      if j != i { assert bs'[j] == bs[j]; }
    }
    if BlockedOver(bs', f, start, end) {
      var j :| 0 <= j < |bs'| && bs'[j].facility == f && bs'[j].status == Blocked && Overlaps(bs'[j].start, bs'[j].end, start, end);
      assert bs'[j] == bs[j];
    }
  }

  /** Restoring the blocks of a withdrawn closure reopens exactly those no other closure covers. */
  lemma CountersRestored(c: Campus, bs: seq<Booking>, cap: CapacityTable, i: nat)
    requires ValidCampus(c) && Rows(c, bs) && Counters(c, bs, cap)
    requires i < |bs| && bs[i].status == Blocked && !bs[i].exclusive
    ensures var f := c.facilities[bs[i].facility];
            var bs' := Marked(bs, {i}, Cancelled);
            Counters(c, bs', RestoreAll(cap, bs', bs[i].facility, ClosureSlots(f, c.zone, bs[i].start, bs[i].end), f.capacity))
  {
    var b := bs[i];
    assert RowOk(c, b);
    var f := c.facilities[b.facility];
    var bs' := Marked(bs, {i}, Cancelled);
    var slots := ClosureSlots(f, c.zone, b.start, b.end);
    ClosureSlotsAscending(f, c.zone, b.start, b.end);
    forall k: SlotKey ensures CounterOk(c, bs', RestoreAll(cap, bs', b.facility, slots, f.capacity), k) {
      assert CounterOk(c, bs, cap, k);
      RestoreAllAt(cap, bs', b.facility, slots, f.capacity, k);
      ClosureSlotsExact(f, c.zone, b.start, b.end, k.start);
      HoldersUnmoved(c, bs, i, Cancelled, k);
      if k.facility in c.facilities {
        BlockedLifted(bs, i, k.facility, k.start, k.start + c.facilities[k.facility].granularity);
      }
    }
  }

  lemma CountersReopenExclusive(c: Campus, bs: seq<Booking>, cap: CapacityTable, i: nat)
    requires Rows(c, bs) && Counters(c, bs, cap)
    requires i < |bs| && bs[i].status == Blocked && bs[i].exclusive
    ensures Counters(c, Marked(bs, {i}, Cancelled), cap)
  {
    assert RowOk(c, bs[i]);
    forall k: SlotKey ensures CounterOk(c, Marked(bs, {i}, Cancelled), cap, k) {
      assert CounterOk(c, bs, cap, k);
      HoldersUnmoved(c, bs, i, Cancelled, k);
      if k.facility in c.facilities {
        BlockedLifted(bs, i, k.facility, k.start, k.start + c.facilities[k.facility].granularity);
      }
    }
  }
}
