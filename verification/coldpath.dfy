/** The two ways to answer "what else?" for exclusive facilities: a scan of the campus grid,
    and the fallback queries on the bookings. When they list the same candidates. */
module ColdPath {
  import opened Model
  import opened Grid
  import opened Statements
  import A = Announcements
  import P = Pivot
  import S = Alternatives

  /** One local day of the campus: the union of all opening hours, and the smallest
      granularity, from midnight. */
  datatype Day = Day(midnight: Instant, opens: int, closes: int, step: int)

  /** generate_series(from, last, step), as columns. */
  function Columns(from: Instant, last: Instant, step: int): seq<P.Slot>
    requires step > 0
    decreases last - from
  {
    if from > last then [] else [P.Slot(from, from + step)] + Columns(from + step, last, step)
  }

  function Axis(d: Day): seq<P.Slot>
    requires d.step > 0
  {
    Columns(d.midnight + d.opens, d.midnight + d.closes - d.step, d.step)
  }

  /** The campus query's cell for an exclusive facility. */
  ghost function Cell(bs: seq<Booking>, id: FacilityId, f: Facility, d: Day, s: P.Slot): P.State
  {
    if s.start < d.midnight + f.opens || s.end > d.midnight + f.closes then "closed"
    else match A.WindowState(bs, id, s.start, s.end)
      case StateClosed => "closed"
      case StateBooked => "booked"
      case StateHeld => "held"
      case StateFree => "free"
  }

  ghost function Line(bs: seq<Booking>, id: FacilityId, f: Facility, d: Day): seq<P.State>
    requires d.step > 0
  {
    seq(|Axis(d)|, i requires 0 <= i < |Axis(d)| => Cell(bs, id, f, d, Axis(d)[i]))
  }

  // ------------------------------------------------------------------ the axis

  lemma {:induction false} ColumnsShape(from: Instant, last: Instant, step: int)
    requires step > 0
    ensures S.IsAxis(Columns(from, last, step))
    ensures forall i :: 0 <= i < |Columns(from, last, step)| ==>
              var s := Columns(from, last, step)[i];
              s.end == s.start + step && from <= s.start <= last && OnStep(step, s.start - from)
    decreases last - from
  {
    if from <= last {
      var rest := Columns(from + step, last, step);
      ColumnsShape(from + step, last, step);
      forall i | 0 <= i < |rest| ensures OnStep(step, rest[i].start - from) {
        assert OnStep(step, rest[i].start - (from + step));
      }
    }
  }

  lemma {:induction false} ColumnAt(from: Instant, last: Instant, step: int, t: Instant, stop: Instant) returns (i: nat)
    requires step > 0 && from <= t < stop <= last + step && OnStep(step, stop - from)
    ensures i < |Columns(from, last, step)| && Columns(from, last, step)[i].start <= t < Columns(from, last, step)[i].start + step
    decreases last - from
  {
    OnStepNonneg(step, stop - from);
    if t < from + step {
      i := 0;
    } else {
      i := ColumnAt(from + step, last, step, t, stop);
      i := i + 1;
    }
  }

  lemma {:induction false} ColumnOf(from: Instant, last: Instant, step: int, s: Instant) returns (i: nat)
    requires step > 0 && from <= s <= last && OnStep(step, s - from)
    ensures i < |Columns(from, last, step)| && Columns(from, last, step)[i] == P.Slot(s, s + step)
    decreases last - from
  {
    if s == from {
      i := 0;
    } else {
      i := ColumnOf(from + step, last, step, s);
      i := i + 1;
    }
  }

  // --------------------------------------------------------- one cell, one window

  /** Inside the facility's hours of that day. */
  predicate Open(f: Facility, d: Day, start: Instant, end: Instant)
  {
    d.midnight + f.opens <= start && end <= d.midnight + f.closes
  }

  lemma CellIsFree(bs: seq<Booking>, id: FacilityId, f: Facility, d: Day, s: P.Slot)
    ensures S.Bookable(Cell(bs, id, f, d, s)) <==> Open(f, d, s.start, s.end) && !Conflicts(bs, id, s.start, s.end)
  {
    if Conflicts(bs, id, s.start, s.end) {
      var i :| 0 <= i < |bs| && bs[i].facility == id && Holding(bs[i]) && Overlaps(bs[i].start, bs[i].end, s.start, s.end);
      assert A.RowOver(bs, bs[i].status, id, s.start, s.end);
    }
  }

  ghost predicate RowsNonempty(bs: seq<Booking>)
  {
    forall i :: 0 <= i < |bs| ==> bs[i].start < bs[i].end
  }

  /** The facility's hours lie within the campus's. */
  predicate Fitting(f: Facility, d: Day)
  {
    d.step > 0 && d.opens <= f.opens && f.closes <= d.closes
  }

  /** The cell of column s can be booked. */
  ghost predicate FreeCell(bs: seq<Booking>, id: FacilityId, f: Facility, d: Day, s: P.Slot)
  {
    Open(f, d, s.start, s.end) && !Conflicts(bs, id, s.start, s.end)
  }

  /** A grid line that shows what the bookings say. */
  ghost predicate Shows(line: seq<P.State>, axis: seq<P.Slot>, bs: seq<Booking>, id: FacilityId, f: Facility, d: Day)
  {
    && |line| == |axis| && S.IsAxis(axis)
    && forall i :: 0 <= i < |axis| ==> S.Bookable(line[i]) == FreeCell(bs, id, f, d, axis[i])
  }

  lemma LineShows(bs: seq<Booking>, id: FacilityId, f: Facility, d: Day) returns (line: seq<P.State>, axis: seq<P.Slot>)
    requires d.step > 0
    ensures line == Line(bs, id, f, d) && axis == Axis(d) && Shows(line, axis, bs, id, f, d)
  {
    line, axis := Line(bs, id, f, d), Axis(d);
    ColumnsShape(d.midnight + d.opens, d.midnight + d.closes - d.step, d.step);
    forall i | 0 <= i < |axis| ensures S.Bookable(line[i]) == FreeCell(bs, id, f, d, axis[i]) {
      CellIsFree(bs, id, f, d, axis[i]);
    }
  }

  /** A moment of a window that fits lies in a column the facility is open and free for. */
  lemma FittingMoment(line: seq<P.State>, axis: seq<P.Slot>, bs: seq<Booking>, id: FacilityId, f: Facility, d: Day, si: nat, length: int, t: Instant)
    returns (i: nat)
    requires Shows(line, axis, bs, id, f, d) && si < |axis| && S.Fits(line, axis, si, length)
    requires axis[si].start <= t < axis[si].start + length
    ensures i < |axis| && axis[i].start <= t < axis[i].end && FreeCell(bs, id, f, d, axis[i])
  {
    S.FitsIsSound(line, axis, si, length, t);
    i :| 0 <= i < S.Width(line, axis) && S.Bookable(line[i]) && axis[i].start <= t < axis[i].end;
  }

  lemma SameColumn(axis: seq<P.Slot>, i: nat, j: nat)
    requires S.IsAxis(axis) && i < |axis| && j < |axis| && axis[i].start <= axis[j].start < axis[i].end
    ensures i == j
  {
  }

  lemma FitsThenOpen(line: seq<P.State>, axis: seq<P.Slot>, bs: seq<Booking>, id: FacilityId, f: Facility, d: Day, si: nat, length: int)
    requires Shows(line, axis, bs, id, f, d) && si < |axis| && S.Fits(line, axis, si, length) && length > 0
    ensures Open(f, d, axis[si].start, axis[si].start + length)
  {
    var first := FittingMoment(line, axis, bs, id, f, d, si, length, axis[si].start);
    SameColumn(axis, first, si);
    var last := FittingMoment(line, axis, bs, id, f, d, si, length, axis[si].start + length - 1);
  }

  lemma FitsThenUntaken(line: seq<P.State>, axis: seq<P.Slot>, bs: seq<Booking>, id: FacilityId, f: Facility, d: Day, si: nat, length: int, b: nat)
    requires Shows(line, axis, bs, id, f, d) && si < |axis| && S.Fits(line, axis, si, length)
    requires b < |bs| && bs[b].start < bs[b].end && bs[b].facility == id && Holding(bs[b]) && length > 0
    ensures !Overlaps(bs[b].start, bs[b].end, axis[si].start, axis[si].start + length)
  {
    var s := axis[si].start;
    if Overlaps(bs[b].start, bs[b].end, s, s + length) {
      var i := FittingMoment(line, axis, bs, id, f, d, si, length, if bs[b].start < s then s else bs[b].start);
    }
  }

  lemma FitsThenFree(line: seq<P.State>, axis: seq<P.Slot>, bs: seq<Booking>, id: FacilityId, f: Facility, d: Day, si: nat, length: int)
    requires Shows(line, axis, bs, id, f, d) && RowsNonempty(bs) && si < |axis| && length > 0 && S.Fits(line, axis, si, length)
    ensures FreeWindow(bs, id, f, d, axis[si].start, length)
  {
    FitsThenOpen(line, axis, bs, id, f, d, si, length);
    forall b | 0 <= b < |bs| && bs[b].facility == id && Holding(bs[b])
      ensures !Overlaps(bs[b].start, bs[b].end, axis[si].start, axis[si].start + length)
    {
      FitsThenUntaken(line, axis, bs, id, f, d, si, length, b);
    }
  }

  /** The facility is open for the window, and no holding row overlaps it. */
  ghost predicate FreeWindow(bs: seq<Booking>, id: FacilityId, f: Facility, d: Day, start: Instant, length: int)
  {
    Open(f, d, start, start + length) && !Conflicts(bs, id, start, start + length)
  }

  /** The column over a moment of a window of whole steps lies inside the window. */
  lemma ColumnInside(d: Day, si: nat, length: int, t: Instant) returns (i: nat)
    requires d.step > 0 && si < |Axis(d)| && OnStep(d.step, length)
    requires var s := Axis(d)[si].start; s <= t < s + length <= d.midnight + d.closes
    ensures i < |Axis(d)| && Axis(d)[i].start <= t < Axis(d)[i].end
    ensures Axis(d)[si].start <= Axis(d)[i].start && Axis(d)[i].end <= Axis(d)[si].start + length
  {
    var from, last := d.midnight + d.opens, d.midnight + d.closes - d.step;
    var axis := Axis(d);
    var s := axis[si].start;
    ColumnsShape(from, last, d.step);
    assert forall k :: 0 <= k < si ==> axis[k].end <= s;
    OnStepSum(d.step, s - from, length);
    i := ColumnAt(from, last, d.step, t, s + length);
    assert i >= si && (i > si ==> axis[si].end <= axis[i].start);
    InsideWindow(d.step, axis[i].start - from, s - from, length);
  }

  lemma FreeThenCovered(line: seq<P.State>, bs: seq<Booking>, id: FacilityId, f: Facility, d: Day, si: nat, length: int, t: Instant)
    requires Fitting(f, d) && Shows(line, Axis(d), bs, id, f, d) && si < |Axis(d)| && length > 0 && OnStep(d.step, length)
    requires FreeWindow(bs, id, f, d, Axis(d)[si].start, length)
    requires Axis(d)[si].start <= t < Axis(d)[si].start + length
    ensures S.Covered(line, Axis(d), t)
  {
    var s := Axis(d)[si].start;
    var i := ColumnInside(d, si, length, t);
    NoSmallerConflict(bs, id, s, s + length, Axis(d)[i].start, Axis(d)[i].end);
    assert FreeCell(bs, id, f, d, Axis(d)[i]);
    assert S.Bookable(line[i]);
  }

  lemma InsideWindow(g: int, c: int, s: int, length: int)
    requires g > 0 && OnStep(g, c) && OnStep(g, s) && OnStep(g, length) && s <= c < s + length
    ensures c + g <= s + length
  {
    OnStepSum(g, s, length);
    OnStepBetween(g, s + length, c);
  }

  lemma {:induction false} OnStepBetween(g: int, a: int, b: int)
    requires g > 0 && OnStep(g, a) && OnStep(g, b) && b < a
    ensures b + g <= a && OnStep(g, a - b)
    decreases b
  {
    OnStepNonneg(g, b);
    if b != 0 {
      OnStepBetween(g, a - g, b - g);
    }
  }

  lemma NoSmallerConflict(bs: seq<Booking>, id: FacilityId, start: Instant, end: Instant, s: Instant, e: Instant)
    requires !Conflicts(bs, id, start, end) && start <= s && e <= end
    ensures !Conflicts(bs, id, s, e)
  {
  }

  lemma FreeThenFits(line: seq<P.State>, bs: seq<Booking>, id: FacilityId, f: Facility, d: Day, si: nat, length: int)
    requires Fitting(f, d) && Shows(line, Axis(d), bs, id, f, d) && si < |Axis(d)| && length > 0 && OnStep(d.step, length)
    requires FreeWindow(bs, id, f, d, Axis(d)[si].start, length)
    ensures S.Fits(line, Axis(d), si, length)
  {
    forall t | Axis(d)[si].start <= t < Axis(d)[si].start + length ensures S.Covered(line, Axis(d), t) {
      FreeThenCovered(line, bs, id, f, d, si, length, t);
    }
    S.FitsIsCoverage(line, Axis(d), si, length);
  }

  /** A grid line fits a window of whole steps from a column exactly when the facility is open
      for it and no holding row overlaps it. */
  lemma FitsIffFree(bs: seq<Booking>, id: FacilityId, f: Facility, d: Day, si: nat, length: int)
    requires Fitting(f, d) && RowsNonempty(bs) && si < |Axis(d)| && length > 0 && OnStep(d.step, length)
    ensures S.Fits(Line(bs, id, f, d), Axis(d), si, length) <==> FreeWindow(bs, id, f, d, Axis(d)[si].start, length)
  {
    var line, axis := LineShows(bs, id, f, d);
    if S.Fits(line, axis, si, length) {
      FitsThenFree(line, axis, bs, id, f, d, si, length);
    } else if FreeWindow(bs, id, f, d, axis[si].start, length) {
      FreeThenFits(line, bs, id, f, d, si, length);
    }
  }

  // ---------------------------------------------------------------- the candidates

  predicate WithinLimits(f: Facility, length: int)
  {
    f.minDuration <= length <= f.maxDuration
  }

  /** A start the grid scan lists for the lost facility. */
  ghost predicate WarmLater(bs: seq<Booking>, id: FacilityId, f: Facility, d: Day, lost: Instant, length: int, s: Instant)
    requires d.step > 0
  {
    s > lost && exists si: nat :: FitsAt(bs, id, f, d, si, s, length)
  }

  ghost predicate FitsAt(bs: seq<Booking>, id: FacilityId, f: Facility, d: Day, si: nat, s: Instant, length: int)
    requires d.step > 0
  {
    si < |Axis(d)| && Axis(d)[si].start == s && S.Fits(Line(bs, id, f, d), Axis(d), si, length)
  }

  /** A start alternatives_same_facility lists. */
  ghost predicate ColdLater(bs: seq<Booking>, id: FacilityId, f: Facility, d: Day, lost: Instant, length: int, s: Instant)
    requires f.granularity > 0
  {
    && s > lost && WithinLimits(f, length)
    && d.midnight + f.opens <= s <= d.midnight + f.closes - length && OnStep(f.granularity, s - (d.midnight + f.opens))
    && !Conflicts(bs, id, s, s + length)
  }

  /** Where the facility's own grid is part of the campus axis and the window is of whole
      steps, the queries list exactly the starts that the scan lists, except that they list
      none at all when the facility refuses the duration. */
  lemma LaterAgree(bs: seq<Booking>, id: FacilityId, f: Facility, d: Day, lost: Instant, length: int, s: Instant)
    requires Fitting(f, d) && RowsNonempty(bs) && length > 0
    requires OnStep(d.step, length)
    requires f.granularity == d.step && OnStep(d.step, f.opens - d.opens)
    ensures ColdLater(bs, id, f, d, lost, length, s) <==> WarmLater(bs, id, f, d, lost, length, s) && WithinLimits(f, length)
  {
    if ColdLater(bs, id, f, d, lost, length, s) {
      ColdIsWarm(bs, id, f, d, lost, length, s);
    } else if WarmLater(bs, id, f, d, lost, length, s) && WithinLimits(f, length) {
      WarmIsCold(bs, id, f, d, lost, length, s);
    }
  }

  lemma ColdIsWarm(bs: seq<Booking>, id: FacilityId, f: Facility, d: Day, lost: Instant, length: int, s: Instant)
    requires Fitting(f, d) && RowsNonempty(bs) && length > 0 && OnStep(d.step, length)
    requires f.granularity == d.step && OnStep(d.step, f.opens - d.opens) && ColdLater(bs, id, f, d, lost, length, s)
    ensures WarmLater(bs, id, f, d, lost, length, s)
  {
    var from, last := d.midnight + d.opens, d.midnight + d.closes - d.step;
    OnStepSum(d.step, f.opens - d.opens, s - (d.midnight + f.opens));
    assert s - from == (f.opens - d.opens) + (s - (d.midnight + f.opens));
    AtLeastAStep(d.step, length);
    var si := ColumnOf(from, last, d.step, s);
    FitsIffFree(bs, id, f, d, si, length);
    assert FitsAt(bs, id, f, d, si, s, length);
  }

  lemma AtLeastAStep(g: int, a: int)
    requires g > 0 && OnStep(g, a) && a > 0
    ensures a >= g
  {
  }

  lemma WarmIsCold(bs: seq<Booking>, id: FacilityId, f: Facility, d: Day, lost: Instant, length: int, s: Instant)
    requires Fitting(f, d) && RowsNonempty(bs) && length > 0 && OnStep(d.step, length)
    requires f.granularity == d.step && OnStep(d.step, f.opens - d.opens)
    requires WarmLater(bs, id, f, d, lost, length, s) && WithinLimits(f, length)
    ensures ColdLater(bs, id, f, d, lost, length, s)
  {
    var si: nat :| FitsAt(bs, id, f, d, si, s, length);
    FitsIffFree(bs, id, f, d, si, length);
    ColumnOnStep(d, si);
    OnStepDifference(d.step, s - (d.midnight + d.opens), f.opens - d.opens);
    assert s - (d.midnight + f.opens) == (s - (d.midnight + d.opens)) - (f.opens - d.opens);
  }

  lemma ColumnOnStep(d: Day, si: nat)
    requires d.step > 0 && si < |Axis(d)|
    ensures OnStep(d.step, Axis(d)[si].start - (d.midnight + d.opens))
  {
    ColumnsShape(d.midnight + d.opens, d.midnight + d.closes - d.step, d.step);
  }

  lemma OnStepDifference(g: int, a: int, b: int)
    requires g > 0 && OnStep(g, a) && OnStep(g, b) && b <= a
    ensures OnStep(g, a - b)
  {
    if b < a {
      OnStepBetween(g, a, b);
    }
  }

  /** The grid scan lists the facility for the lost time itself. */
  ghost predicate WarmSameTime(bs: seq<Booking>, id: FacilityId, f: Facility, d: Day, start: Instant, length: int)
    requires d.step > 0
  {
    S.Fits(Line(bs, id, f, d), Axis(d), S.FirstColumn(Axis(d), start), length)
  }

  /** alternatives_same_sport does, for an exclusive facility. */
  ghost predicate ColdSameTime(bs: seq<Booking>, id: FacilityId, f: Facility, d: Day, start: Instant, length: int)
  {
    Open(f, d, start, start + length) && WithinLimits(f, length) && !Conflicts(bs, id, start, start + length)
  }

  /** The same for the lost time on another facility, wherever that time is a column: here the
      facility's own granularity does not matter. */
  lemma SameTimeAgrees(bs: seq<Booking>, id: FacilityId, f: Facility, d: Day, start: Instant, length: int)
    requires Fitting(f, d) && RowsNonempty(bs) && length > 0
    requires OnStep(d.step, length)
    requires start >= d.midnight + d.opens ==> OnStep(d.step, start - (d.midnight + d.opens))
    ensures ColdSameTime(bs, id, f, d, start, length) <==> WarmSameTime(bs, id, f, d, start, length) && WithinLimits(f, length)
  {
    var from, last := d.midnight + d.opens, d.midnight + d.closes - d.step;
    var si := S.FirstColumn(Axis(d), start);
    if ColdSameTime(bs, id, f, d, start, length) {
      AtLeastAStep(d.step, length);
      var i := ColumnOf(from, last, d.step, start);
      assert si >= 0;
      FitsIffFree(bs, id, f, d, si, length);
    } else if WarmSameTime(bs, id, f, d, start, length) && WithinLimits(f, length) {
      FitsIffFree(bs, id, f, d, si, length);
    }
  }
}
