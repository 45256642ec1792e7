/** The grid of a shared facility: the blocks a booking takes (capacity.go), the
    blocks a closure covers (closure.go), and the validation that keeps bookings
    on the grid (service.go). */
module Grid {
  import opened Model

  datatype Slot = Slot(start: Instant, end: Instant)

  ghost predicate Has(slots: seq<Slot>, x: Instant)
  {
    exists k :: 0 <= k < |slots| && slots[k].start == x
  }

  ghost predicate Ascending(slots: seq<Slot>)
  {
    forall i, j :: 0 <= i < j < |slots| ==> slots[i].start < slots[j].start
  }

  lemma HasConcat(a: seq<Slot>, b: seq<Slot>, x: Instant)
    ensures Has(a + b, x) <==> Has(a, x) || Has(b, x)
  {
    if Has(a, x) {
      var k :| 0 <= k < |a| && a[k].start == x;
      assert (a + b)[k].start == x;
    }
    if Has(b, x) {
      var k :| 0 <= k < |b| && b[k].start == x;
      assert (a + b)[|a| + k].start == x;
    }
  }

  /** d is a whole, nonnegative number of steps of length g. */
  predicate OnStep(g: int, d: int)
    requires g > 0
    decreases d
  {
    d == 0 || (d >= g && OnStep(g, d - g))
  }

  lemma {:induction false} OnStepIsMod(g: int, d: int)
    requires g > 0 && d >= 0
    ensures OnStep(g, d) <==> d % g == 0
    decreases d
  {
    if d >= g {
      OnStepIsMod(g, d - g);
      ModStep(g, d);
    } else {
      assert d % g == d by { ModSmall(g, d); }
    }
  }

  lemma ModSmall(g: int, d: int)
    requires 0 <= d < g
    ensures d % g == d
  {
  }

  lemma ModStep(g: int, d: int)
    requires g > 0
    ensures (d - g) % g == d % g
  {
    var q, r := d / g, d % g;
    assert d - g == (q - 1) * g + r;
    DivModUnique(g, d - g, q - 1, r);
  }

  lemma DivModUnique(g: int, d: int, q: int, r: int)
    requires g > 0 && 0 <= r < g && d == q * g + r
    ensures d % g == r
  {
    var k, r' := q - d / g, d % g;
    assert k * g == r' - r by {
      assert d == (d / g) * g + r';
      assert k * g == q * g - (d / g) * g;
    }
    if k >= 1 {
      MulAtLeast(k, g);
    } else if k <= -1 {
      MulAtLeast(-k, g);
    }
  }

  lemma MulAtLeast(k: int, g: int)
    requires k >= 1 && g > 0
    ensures k * g >= g
  {
    assert k * g == g + (k - 1) * g;
  }

  lemma {:induction false} OnStepSum(g: int, a: int, b: int)
    requires g > 0 && OnStep(g, a) && OnStep(g, b)
    ensures OnStep(g, a + b)
    decreases b
  {
    if b != 0 {
      OnStepSum(g, a, b - g);
      OnStepNonneg(g, a);
      OnStepNonneg(g, b - g);
    }
  }

  lemma {:induction false} OnStepNonneg(g: int, d: int)
    requires g > 0 && OnStep(g, d)
    ensures d >= 0
  {
  }

  // ------------------------------------------------------------------ bookings

  /** The blocks of [start, end), stepping from start. */
  function SlotsFor(g: int, start: Instant, end: Instant): (slots: seq<Slot>)
    decreases end - start
  {
    if g <= 0 then [Slot(start, end)]
    else if start >= end then []
    else [Slot(start, if start + g > end then end else start + g)] + SlotsFor(g, start + g, end)
  }

  lemma Shift(a: seq<Slot>, x: Slot, b: seq<Slot>)
    ensures a + ([x] + b) == (a + [x]) + b
  {
  }

  method ComputeSlotsFor(g: int, start: Instant, end: Instant) returns (slots: seq<Slot>)
    ensures slots == SlotsFor(g, start, end)
  {
    if g <= 0 {
      return [Slot(start, end)];
    }
    slots := [];
    var cur := start;
    while cur < end
      invariant slots + SlotsFor(g, cur, end) == SlotsFor(g, start, end)
      decreases end - cur
    {
      var next := cur + g;
      if next > end {
        next := end;
      }
      ghost var rest := SlotsFor(g, cur + g, end);
      assert SlotsFor(g, cur, end) == [Slot(cur, next)] + rest;
      Shift(slots, Slot(cur, next), rest);
      slots := slots + [Slot(cur, next)];
      cur := cur + g;
    }
  }

  lemma {:induction false} SlotsForAscending(g: int, start: Instant, end: Instant)
    ensures Ascending(SlotsFor(g, start, end))
    ensures g > 0 ==> forall k :: 0 <= k < |SlotsFor(g, start, end)| ==> start <= SlotsFor(g, start, end)[k].start
    decreases end - start
  {
    if g > 0 && start < end {
      SlotsForAscending(g, start + g, end);
    }
  }

  /** Membership, in closed form: x starts a block of the booking iff it lies in the
      window a whole number of steps after its start. */
  lemma {:induction false} SlotsForExact(g: int, start: Instant, end: Instant, x: Instant)
    requires g > 0
    ensures Has(SlotsFor(g, start, end), x) <==> start <= x < end && OnStep(g, x - start)
    decreases end - start
  {
    if start < end {
      var head := Slot(start, if start + g > end then end else start + g);
      SlotsForExact(g, start + g, end, x);
      HasConcat([head], SlotsFor(g, start + g, end), x);
      assert Has([head], x) <==> x == start by {
        assert [head][0].start == start;
      }
    }
  }

  /** The blocks of a window that is a whole number of steps long are full blocks. */
  lemma {:induction false} SlotsForFull(g: int, start: Instant, end: Instant)
    requires g > 0 && OnStep(g, end - start)
    ensures forall k :: 0 <= k < |SlotsFor(g, start, end)| ==>
              SlotsFor(g, start, end)[k].end == SlotsFor(g, start, end)[k].start + g
    decreases end - start
  {
    OnStepNonneg(g, end - start);
    if start < end {
      SlotsForFull(g, start + g, end);
    }
  }

  /** The blocks cover the window: every instant of it lies in one of them. */
  lemma {:induction false} SlotsForCover(g: int, start: Instant, end: Instant, p: Instant) returns (x: Instant)
    requires g > 0 && start <= p < end
    ensures Has(SlotsFor(g, start, end), x) && x <= p < x + g
    decreases end - start
  {
    var head := Slot(start, if start + g > end then end else start + g);
    if p < start + g {
      x := start;
      assert SlotsFor(g, start, end)[0].start == start;
    } else {
      x := SlotsForCover(g, start + g, end, p);
      HasConcat([head], SlotsFor(g, start + g, end), x);
    }
  }

  // ------------------------------------------------------------------ closures

  /** Local midnight at or before x, as an instant. */
  function Midnight(zone: int, x: Instant): Instant
  {
    x - (x + zone) % DAY
  }

  /** x is the start of one of the facility's grid blocks, on some local day. */
  predicate IsBlock(f: Facility, zone: int, x: Instant)
    requires f.granularity > 0
  {
    var off := x - Midnight(zone, x);
    && f.opens <= off
    && off + f.granularity <= f.closes
    && OnStep(f.granularity, off - f.opens)
  }

  function DayBlocks(f: Facility, day: Instant, off: int, start: Instant, end: Instant): seq<Slot>
    requires f.granularity > 0
    decreases f.closes - off
  {
    if off + f.granularity > f.closes then []
    else
      (if day + off < end && day + off + f.granularity > start
       then [Slot(day + off, day + off + f.granularity)] else [])
      + DayBlocks(f, day, off + f.granularity, start, end)
  }

  function DaysBlocks(f: Facility, day: Instant, last: Instant, start: Instant, end: Instant): seq<Slot>
    requires f.granularity > 0
    decreases last - day
  {
    if day > last then []
    else DayBlocks(f, day, f.opens, start, end) + DaysBlocks(f, day + DAY, last, start, end)
  }

  /** The grid blocks that overlap [start, end), from the local day before it. */
  function ClosureSlots(f: Facility, zone: int, start: Instant, end: Instant): seq<Slot>
  {
    if f.granularity <= 0 then [Slot(start, end)]
    else DaysBlocks(f, Midnight(zone, start - DAY), Midnight(zone, end), start, end)
  }

  method ComputeClosureSlots(f: Facility, zone: int, start: Instant, end: Instant) returns (out: seq<Slot>)
    ensures out == ClosureSlots(f, zone, start, end)
  {
    if f.granularity <= 0 {
      return [Slot(start, end)];
    }
    out := [];
    var day, last := Midnight(zone, start - DAY), Midnight(zone, end);
    while day <= last
      invariant out + DaysBlocks(f, day, last, start, end) == ClosureSlots(f, zone, start, end)
      decreases last - day
    {
      var off := f.opens;
      ghost var before := out;
      while off + f.granularity <= f.closes
        invariant out + DayBlocks(f, day, off, start, end) == before + DayBlocks(f, day, f.opens, start, end)
        decreases f.closes - off
      {
        var slotStart := day + off;
        var slotEnd := slotStart + f.granularity;
        if slotStart < end && slotEnd > start {
          out := out + [Slot(slotStart, slotEnd)];
        }
        off := off + f.granularity;
      }
      assert out == before + DayBlocks(f, day, f.opens, start, end);
      day := day + DAY;
    }
  }

  lemma {:induction false} DayBlocksExact(f: Facility, day: Instant, off: int, start: Instant, end: Instant, x: Instant)
    requires f.granularity > 0
    ensures Has(DayBlocks(f, day, off, start, end), x) <==>
            && off <= x - day && x - day + f.granularity <= f.closes
            && OnStep(f.granularity, x - day - off)
            && x < end && start < x + f.granularity
    decreases f.closes - off
  {
    var g := f.granularity;
    if off + g <= f.closes {
      DayBlocksExact(f, day, off + g, start, end, x);
      var head := if day + off < end && day + off + g > start then [Slot(day + off, day + off + g)] else [];
      HasConcat(head, DayBlocks(f, day, off + g, start, end), x);
      assert Has(head, x) <==> |head| == 1 && x == day + off by {
        if |head| == 1 { assert head[0].start == day + off; }
      }
      if x - day - off != 0 && OnStep(g, x - day - off) {
        assert OnStep(g, x - day - off - g);
      }
    }
  }

  lemma {:induction false} DayBlocksShape(f: Facility, day: Instant, off: int, start: Instant, end: Instant)
    requires f.granularity > 0
    ensures var s := DayBlocks(f, day, off, start, end);
            && Ascending(s)
            && forall k :: 0 <= k < |s| ==>
                 day + off <= s[k].start && s[k].end == s[k].start + f.granularity <= day + f.closes
    decreases f.closes - off
  {
    if off + f.granularity <= f.closes {
      DayBlocksShape(f, day, off + f.granularity, start, end);
    }
  }

  lemma {:induction false} DaysBlocksExact(f: Facility, zone: int, day: Instant, last: Instant, start: Instant, end: Instant, x: Instant)
    requires f.granularity > 0 && 0 <= f.opens && f.closes <= DAY
    requires Midnight(zone, day) == day
    ensures Has(DaysBlocks(f, day, last, start, end), x) <==>
            && day <= Midnight(zone, x) <= last && IsBlock(f, zone, x)
            && x < end && start < x + f.granularity
    decreases last - day
  {
    if day <= last {
      DaysBlocksExact(f, zone, day + DAY, last, start, end, x);
      DayBlocksExact(f, day, f.opens, start, end, x);
      HasConcat(DayBlocks(f, day, f.opens, start, end), DaysBlocks(f, day + DAY, last, start, end), x);
      if Midnight(zone, x) != day {
        MidnightApart(zone, day, x);
      }
    }
  }

  lemma MidnightApart(zone: int, day: Instant, x: Instant)
    requires Midnight(zone, day) == day
    ensures Midnight(zone, x) == day <==> 0 <= x - day < DAY
    ensures day < Midnight(zone, x) <==> day + DAY <= Midnight(zone, x)
  {
  }

  lemma {:induction false} DaysBlocksShape(f: Facility, day: Instant, last: Instant, start: Instant, end: Instant)
    requires f.granularity > 0 && 0 <= f.opens && f.closes <= DAY
    ensures var s := DaysBlocks(f, day, last, start, end);
            && Ascending(s)
            && forall k :: 0 <= k < |s| ==> day <= s[k].start && s[k].end == s[k].start + f.granularity
    decreases last - day
  {
    if day <= last {
      DaysBlocksShape(f, day + DAY, last, start, end);
      DayBlocksShape(f, day, f.opens, start, end);
    }
  }

  /** closureSlots returns exactly the opening-hours blocks that overlap the window. */
  lemma ClosureSlotsExact(f: Facility, zone: int, start: Instant, end: Instant, x: Instant)
    requires ValidFacility(f) && f.granularity > 0
    ensures Has(ClosureSlots(f, zone, start, end), x) <==>
            IsBlock(f, zone, x) && Overlaps(x, x + f.granularity, start, end)
  {
    DaysBlocksExact(f, zone, Midnight(zone, start - DAY), Midnight(zone, end), start, end, x);
    if IsBlock(f, zone, x) && Overlaps(x, x + f.granularity, start, end) {
      assert f.granularity <= DAY;
    }
  }

  /** ... once each, in ascending order, and as whole blocks. */
  lemma ClosureSlotsAscending(f: Facility, zone: int, start: Instant, end: Instant)
    requires ValidFacility(f)
    ensures Ascending(ClosureSlots(f, zone, start, end))
    ensures f.granularity > 0 ==> forall k :: 0 <= k < |ClosureSlots(f, zone, start, end)| ==>
              ClosureSlots(f, zone, start, end)[k].end == ClosureSlots(f, zone, start, end)[k].start + f.granularity
  {
    if f.granularity > 0 {
      DaysBlocksShape(f, Midnight(zone, start - DAY), Midnight(zone, end), start, end);
    }
  }

  // ---------------------------------------------------------------- validation

  const CLOCK_SLACK: int := 60 * SECOND

  datatype Refusal = UserRequired | Inactive | NotPositive | TooShort | TooLong
                   | InThePast | BeforeOpening | AfterClosing | StartMisaligned | DurationMisaligned

  /** What can be decided without the database; None means the request is accepted. */
  function Validate(f: Facility, zone: int, user: UserId, start: Instant, duration: int, now: Instant): Option<Refusal>
  {
    if user == NIL_USER then Some(UserRequired)
    else if !f.active then Some(Inactive)
    else if duration <= 0 then Some(NotPositive)
    else if duration < f.minDuration then Some(TooShort)
    else if duration > f.maxDuration then Some(TooLong)
    else if start < now - CLOCK_SLACK then Some(InThePast)
    else
      var offset := start - Midnight(zone, start);
      if offset < f.opens then Some(BeforeOpening)
      else if offset + duration > f.closes then Some(AfterClosing)
      else if f.exclusive || f.granularity <= 0 then None
      else if (offset - f.opens) % f.granularity != 0 then Some(StartMisaligned)
      else if duration % f.granularity != 0 then Some(DurationMisaligned)
      else None
  }

  /** day is the instant at which some local day begins. */
  predicate DayStart(zone: int, day: Instant)
  {
    (day + zone) % DAY == 0
  }

  /** The local day of an instant is the one that began at Midnight, and no other. */
  lemma MidnightExact(zone: int, x: Instant, day: Instant)
    ensures DayStart(zone, day) && day <= x < day + DAY <==> day == Midnight(zone, x)
  {
    var m := Midnight(zone, x);
    assert DayStart(zone, m) && m <= x < m + DAY;
    if DayStart(zone, day) && day <= x < day + DAY {
      assert (day - m) % DAY == 0;
    }
  }

  /** The whole window lies within the opening hours of the local day on which it starts. */
  ghost predicate WithinHours(f: Facility, zone: int, start: Instant, end: Instant)
  {
    exists day :: DayStart(zone, day) && day <= start < day + DAY && day + f.opens <= start && end <= day + f.closes
  }

  /** Start and length are whole steps from opening time, where the facility counts by steps. */
  ghost predicate OnSteps(f: Facility, zone: int, start: Instant, duration: int)
  {
    f.exclusive || f.granularity <= 0 ||
    (OnStep(f.granularity, start - Midnight(zone, start) - f.opens) && OnStep(f.granularity, duration))
  }

  lemma WithinHoursIs(f: Facility, zone: int, start: Instant, end: Instant)
    ensures WithinHours(f, zone, start, end) <==> Midnight(zone, start) + f.opens <= start && end <= Midnight(zone, start) + f.closes
  {
    MidnightExact(zone, start, Midnight(zone, start));
    if day :| DayStart(zone, day) && day <= start < day + DAY && day + f.opens <= start && end <= day + f.closes {
      MidnightExact(zone, start, day);
    }
  }

  /** Which requests pass, on every facility: a court is bound by opening hours, duration limits
      and the clock as everything else is, and only by steps it is not. */
  lemma ValidateExact(f: Facility, zone: int, user: UserId, start: Instant, duration: int, now: Instant)
    ensures Validate(f, zone, user, start, duration, now) == None <==>
            && user != NIL_USER && f.active
            && 0 < duration && f.minDuration <= duration <= f.maxDuration
            && now - 60_000_000_000 <= start
            && WithinHours(f, zone, start, start + duration)
            && OnSteps(f, zone, start, duration)
  {
    WithinHoursIs(f, zone, start, start + duration);
    if f.granularity > 0 && start - Midnight(zone, start) >= f.opens && duration > 0 {
      OnStepIsMod(f.granularity, start - Midnight(zone, start) - f.opens);
      OnStepIsMod(f.granularity, duration);
    }
  }

  /** A refusal names the first of the tests that fails. */
  lemma RefusalsExact(f: Facility, zone: int, user: UserId, start: Instant, duration: int, now: Instant)
    ensures var v, m := Validate(f, zone, user, start, duration, now), Midnight(zone, start);
            var known := user != NIL_USER && f.active;
            var sized := known && 0 < duration && f.minDuration <= duration <= f.maxDuration;
            var timely := sized && now - 60_000_000_000 <= start;
            var open := timely && WithinHours(f, zone, start, start + duration);
            && (v == Some(UserRequired) <==> user == NIL_USER)
            && (v == Some(Inactive) <==> user != NIL_USER && !f.active)
            && (v == Some(NotPositive) <==> known && duration <= 0)
            && (v == Some(TooShort) <==> known && 0 < duration < f.minDuration)
            && (v == Some(TooLong) <==> known && 0 < duration && f.minDuration <= duration && f.maxDuration < duration)
            && (v == Some(InThePast) <==> sized && start < now - 60_000_000_000)
            && (v == Some(BeforeOpening) <==> timely && start < m + f.opens)
            && (v == Some(AfterClosing) <==> timely && m + f.opens <= start && m + f.closes < start + duration)
            && (v == Some(StartMisaligned) || v == Some(DurationMisaligned) <==> open && !OnSteps(f, zone, start, duration))
            && (v == Some(StartMisaligned) ==> !OnStep(f.granularity, start - m - f.opens))
            && (v == Some(DurationMisaligned) ==> OnStep(f.granularity, start - m - f.opens) && !OnStep(f.granularity, duration))
  {
    WithinHoursIs(f, zone, start, start + duration);
    if f.granularity > 0 && start - Midnight(zone, start) >= f.opens && duration > 0 {
      OnStepIsMod(f.granularity, start - Midnight(zone, start) - f.opens);
      OnStepIsMod(f.granularity, duration);
    }
  }

  /** A window made of whole grid blocks of one local day. */
  predicate OnGrid(f: Facility, zone: int, start: Instant, end: Instant)
  {
    && f.granularity > 0
    && start < end
    && IsBlock(f, zone, start)
    && OnStep(f.granularity, end - start)
    && end - Midnight(zone, start) <= f.closes
  }

  lemma ValidateOnGrid(f: Facility, zone: int, user: UserId, start: Instant, duration: int, now: Instant)
    requires f.granularity > 0 && !f.exclusive
    requires Validate(f, zone, user, start, duration, now) == None
    ensures OnGrid(f, zone, start, start + duration)
  {
    var g, off := f.granularity, start - Midnight(zone, start);
    OnStepIsMod(g, off - f.opens);
    OnStepIsMod(g, duration);
    assert duration >= g by {
      if duration < g { ModSmall(g, duration); }
    }
  }

  /** Every block of an accepted booking is a block of the facility's grid. */
  lemma OnGridBlocks(f: Facility, zone: int, start: Instant, end: Instant, x: Instant)
    requires ValidFacility(f) && OnGrid(f, zone, start, end)
    requires Has(SlotsFor(f.granularity, start, end), x)
    ensures IsBlock(f, zone, x)
  {
    var g, day := f.granularity, Midnight(zone, start);
    SlotsForExact(g, start, end, x);
    OnStepSum(g, start - day - f.opens, x - start);
    OnStepFits(g, end - start, x - start);
    OnGridBlock(f, zone, day, x);
  }

  lemma OnGridBlock(f: Facility, zone: int, day: Instant, x: Instant)
    requires ValidFacility(f) && f.granularity > 0 && day == Midnight(zone, day)
    requires OnStep(f.granularity, x - day - f.opens) && day + f.opens <= x && x + f.granularity <= day + f.closes
    ensures IsBlock(f, zone, x)
  {
    MidnightApart(zone, day, x);
  }

  lemma {:induction false} OnStepFits(g: int, total: int, part: int)
    requires g > 0 && OnStep(g, total) && OnStep(g, part) && part < total
    ensures part + g <= total
    decreases total
  {
    OnStepNonneg(g, part);
    if part > 0 {
      OnStepFits(g, total - g, part - g);
    }
  }

  /** A booking accepted onto the grid that overlaps a closure shares a block with it. */
  lemma SharesBlock(f: Facility, zone: int, start: Instant, end: Instant, from: Instant, to: Instant) returns (x: Instant)
    requires ValidFacility(f) && OnGrid(f, zone, start, end)
    requires from < to && Overlaps(start, end, from, to)
    ensures Has(SlotsFor(f.granularity, start, end), x)
    ensures Has(ClosureSlots(f, zone, from, to), x)
  {
    var p := if start > from then start else from;
    x := SlotsForCover(f.granularity, start, end, p);
    OnGridBlocks(f, zone, start, end, x);
    ClosureSlotsExact(f, zone, from, to, x);
  }
}
