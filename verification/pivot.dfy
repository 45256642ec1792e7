/** The campus grid: one row per facility and slot, pivoted into a dense rectangle. */
module Pivot {
  type Instant = int
  type State = string

  const CLOSED: State := "closed"
  const UNSET: State := ""

  datatype Court = Court(id: nat, name: nat, sport: nat, exclusive: bool)
  datatype Slot = Slot(start: Instant, end: Instant)
  datatype Row = Row(court: Court, slot: Slot, state: State)
  datatype Campus = Campus(courts: seq<Court>, slots: seq<Slot>, cells: seq<seq<State>>)

  // --------------------------------------------------------------- reference

  predicate SeenCourt(rows: seq<Row>, id: nat)
  {
    exists k :: 0 <= k < |rows| && rows[k].court.id == id
  }

  predicate SeenSlot(rows: seq<Row>, start: Instant)
  {
    exists k :: 0 <= k < |rows| && rows[k].slot.start == start
  }

  predicate SeenPair(rows: seq<Row>, id: nat, start: Instant)
  {
    exists k :: 0 <= k < |rows| && rows[k].court.id == id && rows[k].slot.start == start
  }

  /** The distinct courts in the order they first appear, each as it first appears. */
  function Courts(rows: seq<Row>): seq<Court>
  {
    if rows == [] then []
    else
      var n := |rows| - 1;
      if SeenCourt(rows[..n], rows[n].court.id) then Courts(rows[..n]) else Courts(rows[..n]) + [rows[n].court]
  }

  function Slots(rows: seq<Row>): seq<Slot>
  {
    if rows == [] then []
    else
      var n := |rows| - 1;
      if SeenSlot(rows[..n], rows[n].slot.start) then Slots(rows[..n]) else Slots(rows[..n]) + [rows[n].slot]
  }

  /** The state the last row about this court and start gave. */
  function Latest(rows: seq<Row>, id: nat, start: Instant): State
    requires SeenPair(rows, id, start)
  {
    var n := |rows| - 1;
    if rows[n].court.id == id && rows[n].slot.start == start then rows[n].state
    else
      assert SeenPair(rows[..n], id, start) by {
        var k :| 0 <= k < |rows| && rows[k].court.id == id && rows[k].slot.start == start;
        assert rows[..n][k] == rows[k];
      }
      Latest(rows[..n], id, start)
  }

  /** A pair nobody reported is a hole when a later column of its court was reported, and
      padding otherwise. */
  ghost predicate Hole(rows: seq<Row>, slots: seq<Slot>, id: nat, c: nat)
  {
    exists j :: c < j < |slots| && SeenPair(rows, id, slots[j].start)
  }

  ghost function CellOf(rows: seq<Row>, slots: seq<Slot>, id: nat, c: nat): State
    requires c < |slots|
  {
    if SeenPair(rows, id, slots[c].start) then Latest(rows, id, slots[c].start)
    else if Hole(rows, slots, id, c) then UNSET
    else CLOSED
  }

  /** What the pivot of a row stream is. */
  ghost predicate IsPivot(rows: seq<Row>, g: Campus)
  {
    && g.courts == Courts(rows) && g.slots == Slots(rows)
    && |g.cells| == |g.courts|
    && (forall r :: 0 <= r < |g.cells| ==> |g.cells[r]| == |g.slots|)
    && (forall r, c :: 0 <= r < |g.cells| && 0 <= c < |g.slots| ==> g.cells[r][c] == CellOf(rows, g.slots, g.courts[r].id, c))
  }

  // ---------------------------------------------------- what the reference says

  lemma SeenMore(rows: seq<Row>, r: Row)
    ensures forall id :: SeenCourt(rows + [r], id) == (SeenCourt(rows, id) || id == r.court.id)
    ensures forall t :: SeenSlot(rows + [r], t) == (SeenSlot(rows, t) || t == r.slot.start)
    ensures forall id, t :: SeenPair(rows + [r], id, t) == (SeenPair(rows, id, t) || (id == r.court.id && t == r.slot.start))
  {
    var more := rows + [r];
    assert more[|rows|] == r;
    forall id | SeenCourt(rows, id) ensures SeenCourt(more, id) {
      var k :| 0 <= k < |rows| && rows[k].court.id == id;
      assert more[k] == rows[k];
    }
    forall t | SeenSlot(rows, t) ensures SeenSlot(more, t) {
      var k :| 0 <= k < |rows| && rows[k].slot.start == t;
      assert more[k] == rows[k];
    }
    forall id, t | SeenPair(rows, id, t) ensures SeenPair(more, id, t) {
      var k :| 0 <= k < |rows| && rows[k].court.id == id && rows[k].slot.start == t;
      assert more[k] == rows[k];
    }
  }

  lemma Unfold(rows: seq<Row>, r: Row)
    ensures Courts(rows + [r]) == if SeenCourt(rows, r.court.id) then Courts(rows) else Courts(rows) + [r.court]
    ensures Slots(rows + [r]) == if SeenSlot(rows, r.slot.start) then Slots(rows) else Slots(rows) + [r.slot]
    ensures forall id, t :: SeenPair(rows + [r], id, t) ==>
              Latest(rows + [r], id, t) == (if id == r.court.id && t == r.slot.start then r.state else if SeenPair(rows, id, t) then Latest(rows, id, t) else UNSET)
  {
    var more := rows + [r];
    assert more[..|more| - 1] == rows && more[|more| - 1] == r;
    SeenMore(rows, r);
  }

  /** Row headers are the distinct courts of the stream, once each. */
  lemma {:induction false} CourtsAreDistinct(rows: seq<Row>)
    ensures forall i, j :: 0 <= i < j < |Courts(rows)| ==> Courts(rows)[i].id != Courts(rows)[j].id
    ensures forall id :: SeenCourt(rows, id) <==> exists i :: 0 <= i < |Courts(rows)| && Courts(rows)[i].id == id
  {
    if rows != [] {
      var n := |rows| - 1;
      var before := rows[..n];
      CourtsAreDistinct(before);
      assert rows == before + [rows[n]];
      SeenMore(before, rows[n]);
      Unfold(before, rows[n]);
      if !SeenCourt(before, rows[n].court.id) {
        assert Courts(rows)[|Courts(before)|] == rows[n].court;
        forall id | SeenCourt(before, id) ensures exists i :: 0 <= i < |Courts(rows)| && Courts(rows)[i].id == id {
          var i :| 0 <= i < |Courts(before)| && Courts(before)[i].id == id;
          assert Courts(rows)[i].id == id;
        }
      }
    }
  }

  lemma {:induction false} SlotsAreDistinct(rows: seq<Row>)
    ensures forall i, j :: 0 <= i < j < |Slots(rows)| ==> Slots(rows)[i].start != Slots(rows)[j].start
    ensures forall t :: SeenSlot(rows, t) <==> exists i :: 0 <= i < |Slots(rows)| && Slots(rows)[i].start == t
  {
    if rows != [] {
      var n := |rows| - 1;
      var before := rows[..n];
      SlotsAreDistinct(before);
      assert rows == before + [rows[n]];
      SeenMore(before, rows[n]);
      Unfold(before, rows[n]);
      if !SeenSlot(before, rows[n].slot.start) {
        assert Slots(rows)[|Slots(before)|] == rows[n].slot;
        forall t | SeenSlot(before, t) ensures exists i :: 0 <= i < |Slots(rows)| && Slots(rows)[i].start == t {
          var i :| 0 <= i < |Slots(before)| && Slots(before)[i].start == t;
          assert Slots(rows)[i].start == t;
        }
      }
    }
  }

  lemma LatestIsReported(rows: seq<Row>, id: nat, start: Instant)
    requires SeenPair(rows, id, start)
    ensures exists k :: 0 <= k < |rows| && rows[k].court.id == id && rows[k].slot.start == start && rows[k].state == Latest(rows, id, start)
                        && forall j :: k < j < |rows| ==> !(rows[j].court.id == id && rows[j].slot.start == start)
  {
    var k := |rows| - 1;
    assert rows[..k + 1] == rows;
    while !(rows[k].court.id == id && rows[k].slot.start == start)
      invariant 0 <= k < |rows|
      invariant SeenPair(rows[..k + 1], id, start) && Latest(rows[..k + 1], id, start) == Latest(rows, id, start)
      invariant forall j :: k < j < |rows| ==> !(rows[j].court.id == id && rows[j].slot.start == start)
      decreases k
    {
      assert rows[..k + 1][..k] == rows[..k];
      k := k - 1;
    }
  }

  /** The grid is a lookup: wherever every court was reported for every slot, each cell is
      that pair's last report and no cell is a hole or padding. */
  lemma CompleteStreamsHaveNoGaps(rows: seq<Row>, g: Campus, r: nat, c: nat)
    requires IsPivot(rows, g) && r < |g.courts| && c < |g.slots|
    requires forall id, t :: SeenCourt(rows, id) && SeenSlot(rows, t) ==> SeenPair(rows, id, t)
    ensures SeenPair(rows, g.courts[r].id, g.slots[c].start)
    ensures g.cells[r][c] == Latest(rows, g.courts[r].id, g.slots[c].start)
  {
    CourtsAreDistinct(rows);
    SlotsAreDistinct(rows);
    assert SeenCourt(rows, g.courts[r].id) && SeenSlot(rows, g.slots[c].start);
  }

  /** A cell stays empty exactly when its pair was never reported and a later column of the
      same court was, provided no report is itself empty. */
  lemma EmptyCellsAreHoles(rows: seq<Row>, g: Campus, r: nat, c: nat)
    requires IsPivot(rows, g) && r < |g.courts| && c < |g.slots|
    requires forall k :: 0 <= k < |rows| ==> rows[k].state != UNSET
    ensures g.cells[r][c] == UNSET
            <==> !SeenPair(rows, g.courts[r].id, g.slots[c].start) && Hole(rows, g.slots, g.courts[r].id, c)
  {
    if SeenPair(rows, g.courts[r].id, g.slots[c].start) {
      LatestIsReported(rows, g.courts[r].id, g.slots[c].start);
    }
  }

  /** Every cell of the grid: what the last row about its court and start reported, if any did;
      otherwise empty if the same court was reported in some later column, and "closed" in all
      the columns after the court's last report. */
  lemma CellsExact(rows: seq<Row>, g: Campus, r: nat, c: nat)
    requires IsPivot(rows, g) && r < |g.courts| && c < |g.slots|
    ensures var id, start := g.courts[r].id, g.slots[c].start;
            && (forall k :: 0 <= k < |rows| && IsLastAbout(rows, k, id, start) ==> g.cells[r][c] == rows[k].state)
            && (!SeenPair(rows, id, start) ==>
                  g.cells[r][c] == if exists j :: c < j < |g.slots| && SeenPair(rows, id, g.slots[j].start) then "" else "closed")
            && (SeenPair(rows, id, start) <==> exists k :: 0 <= k < |rows| && IsLastAbout(rows, k, id, start))
  {
    var id, start := g.courts[r].id, g.slots[c].start;
    if SeenPair(rows, id, start) {
      LatestIsReported(rows, id, start);
      var k :| 0 <= k < |rows| && IsLastAbout(rows, k, id, start) && rows[k].state == Latest(rows, id, start);
      assert forall k' :: 0 <= k' < |rows| && IsLastAbout(rows, k', id, start) ==> k' == k;
    }
  }

  ghost predicate IsLastAbout(rows: seq<Row>, k: int, id: nat, start: Instant)
    requires 0 <= k < |rows|
  {
    && rows[k].court.id == id && rows[k].slot.start == start
    && forall j :: k < j < |rows| ==> !(rows[j].court.id == id && rows[j].slot.start == start)
  }

  // ------------------------------------------------------------------- the pivot

  /** How far court id's ragged row reaches: just past its last reported column. */
  ghost predicate Reaches(rows: seq<Row>, slots: seq<Slot>, id: nat, width: nat)
  {
    && width <= |slots|
    && (width > 0 ==> SeenPair(rows, id, slots[width - 1].start))
    && (forall j :: width <= j < |slots| ==> !SeenPair(rows, id, slots[j].start))
  }

  ghost predicate RowSoFar(rows: seq<Row>, slots: seq<Slot>, id: nat, line: seq<State>)
  {
    && Reaches(rows, slots, id, |line|)
    && (forall c :: 0 <= c < |line| ==>
          line[c] == if SeenPair(rows, id, slots[c].start) then Latest(rows, id, slots[c].start) else UNSET)
  }

  ghost predicate RowsSoFar(rows: seq<Row>, slots: seq<Slot>, courts: seq<Court>, cells: seq<seq<State>>)
    requires |cells| == |courts|
  {
    if cells == [] then true
    else
      var n := |cells| - 1;
      RowsSoFar(rows, slots, courts[..n], cells[..n]) && RowSoFar(rows, slots, courts[n].id, cells[n])
  }

  lemma {:induction false} RowAt(rows: seq<Row>, slots: seq<Slot>, courts: seq<Court>, cells: seq<seq<State>>, i: nat)
    requires |cells| == |courts| && RowsSoFar(rows, slots, courts, cells) && i < |cells|
    ensures RowSoFar(rows, slots, courts[i].id, cells[i])
  {
    var n := |cells| - 1;
    if i < n {
      RowAt(rows, slots, courts[..n], cells[..n], i);
    }
  }

  lemma {:induction false} AllRows(rows: seq<Row>, slots: seq<Slot>, courts: seq<Court>, cells: seq<seq<State>>)
    requires |cells| == |courts|
    requires forall i :: 0 <= i < |courts| ==> RowSoFar(rows, slots, courts[i].id, cells[i])
    ensures RowsSoFar(rows, slots, courts, cells)
  {
    if cells != [] {
      var n := |cells| - 1;
      AllRows(rows, slots, courts[..n], cells[..n]);
    }
  }

  ghost predicate CourtsIndexed(rows: seq<Row>, courts: seq<Court>, courtAt: map<nat, nat>)
  {
    && courts == Courts(rows)
    && (forall id :: id in courtAt <==> SeenCourt(rows, id))
    && (forall id :: id in courtAt ==> courtAt[id] < |courts| && courts[courtAt[id]].id == id)
  }

  ghost predicate SlotsIndexed(rows: seq<Row>, slots: seq<Slot>, slotAt: map<Instant, nat>)
  {
    && slots == Slots(rows)
    && (forall t :: t in slotAt <==> SeenSlot(rows, t))
    && (forall t :: t in slotAt ==> slotAt[t] < |slots| && slots[slotAt[t]].start == t)
  }

  /** A ragged row after its court is reported in column c. */
  function Written(line: seq<State>, c: nat, state: State): seq<State>
  {
    (if |line| <= c then line + seq(c + 1 - |line|, i => UNSET) else line)[c := state]
  }

  lemma PairMore(rows: seq<Row>, r: Row, id: nat, t: Instant)
    ensures SeenPair(rows + [r], id, t) == (SeenPair(rows, id, t) || (id == r.court.id && t == r.slot.start))
    ensures SeenPair(rows + [r], id, t) ==>
              Latest(rows + [r], id, t) == (if id == r.court.id && t == r.slot.start then r.state else if SeenPair(rows, id, t) then Latest(rows, id, t) else UNSET)
  {
    SeenMore(rows, r);
    Unfold(rows, r);
  }

  lemma NewSlotUnpaired(rows: seq<Row>, id: nat, t: Instant)
    requires !SeenSlot(rows, t)
    ensures !SeenPair(rows, id, t)
  {
  }

  lemma OwnReach(rows: seq<Row>, r: Row, slots: seq<Slot>, slots': seq<Slot>, c: nat, width: nat)
    requires Reaches(rows, slots, r.court.id, width)
    requires slots' == slots || (slots' == slots + [r.slot] && !SeenSlot(rows, r.slot.start))
    requires c < |slots'| && slots'[c].start == r.slot.start
    requires forall i, j :: 0 <= i < j < |slots'| ==> slots'[i].start != slots'[j].start
    ensures Reaches(rows + [r], slots', r.court.id, if width <= c then c + 1 else width)
  {
    var id, width' := r.court.id, if width <= c then c + 1 else width;
    PairMore(rows, r, id, slots'[width' - 1].start);
    forall j | width' <= j < |slots'| ensures !SeenPair(rows + [r], id, slots'[j].start) {
      PairMore(rows, r, id, slots'[j].start);
      assert slots'[j].start != slots'[c].start;
      assert j < |slots| ==> slots'[j] == slots[j];
    }
  }

  lemma OwnRow(rows: seq<Row>, r: Row, slots: seq<Slot>, slots': seq<Slot>, c: nat, line: seq<State>)
    requires RowSoFar(rows, slots, r.court.id, line)
    requires slots' == slots || (slots' == slots + [r.slot] && !SeenSlot(rows, r.slot.start))
    requires c < |slots'| && slots'[c].start == r.slot.start
    requires forall i, j :: 0 <= i < j < |slots'| ==> slots'[i].start != slots'[j].start
    ensures RowSoFar(rows + [r], slots', r.court.id, Written(line, c, r.state))
  {
    var id, line' := r.court.id, Written(line, c, r.state);
    OwnReach(rows, r, slots, slots', c, |line|);
    forall k | 0 <= k < |line'|
      ensures line'[k] == if SeenPair(rows + [r], id, slots'[k].start) then Latest(rows + [r], id, slots'[k].start) else UNSET
    {
      PairMore(rows, r, id, slots'[k].start);
      if k != c {
        assert slots'[k].start != slots'[c].start;
        assert line'[k] == if k < |line| then line[k] else UNSET;
        assert k < |slots| && slots'[k] == slots[k];
      }
    }
  }

  lemma OtherRow(rows: seq<Row>, r: Row, slots: seq<Slot>, slots': seq<Slot>, id: nat, line: seq<State>)
    requires RowSoFar(rows, slots, id, line) && id != r.court.id
    requires slots' == slots || (slots' == slots + [r.slot] && !SeenSlot(rows, r.slot.start))
    ensures RowSoFar(rows + [r], slots', id, line)
  {
    forall t ensures SeenPair(rows + [r], id, t) == SeenPair(rows, id, t) {
      PairMore(rows, r, id, t);
    }
    forall k | 0 <= k < |line| ensures slots'[k] == slots[k] && (SeenPair(rows, id, slots[k].start) ==> Latest(rows + [r], id, slots[k].start) == Latest(rows, id, slots[k].start)) {
      PairMore(rows, r, id, slots[k].start);
    }
    forall k | |line| <= k < |slots'| ensures !SeenPair(rows, id, slots'[k].start) {
      if k == |slots| {
        NewSlotUnpaired(rows, id, slots'[k].start);
      } else {
        assert slots'[k] == slots[k];
      }
    }
  }

  lemma Padded(rows: seq<Row>, slots: seq<Slot>, id: nat, line: seq<State>, c: nat)
    requires RowSoFar(rows, slots, id, line) && c < |slots|
    ensures CellOf(rows, slots, id, c) == if c < |line| then line[c] else CLOSED
  {
    if c < |line| - 1 && !SeenPair(rows, id, slots[c].start) {
      assert Hole(rows, slots, id, c);
    }
  }

  lemma PaddedRow(rows: seq<Row>, slots: seq<Slot>, id: nat, row: seq<State>, line: seq<State>)
    requires RowSoFar(rows, slots, id, row) && |line| == |slots|
    requires forall c :: 0 <= c < |slots| ==> line[c] == if c < |row| then row[c] else CLOSED
    ensures forall c :: 0 <= c < |slots| ==> line[c] == CellOf(rows, slots, id, c)
  {
    forall c | 0 <= c < |slots| ensures line[c] == CellOf(rows, slots, id, c) {
      Padded(rows, slots, id, row, c);
    }
  }

  /** One report: its court's row is rewritten, every other row stays right. */
  lemma StepRows(rows: seq<Row>, r: Row, courts: seq<Court>, slots: seq<Slot>, slots': seq<Slot>, cells: seq<seq<State>>, fi: nat, si: nat)
    requires slots' == slots || (slots' == slots + [r.slot] && !SeenSlot(rows, r.slot.start))
    requires courts == Courts(rows + [r]) && slots' == Slots(rows + [r])
    requires fi < |courts| == |cells| && courts[fi].id == r.court.id
    requires si < |slots'| && slots'[si].start == r.slot.start
    requires RowsSoFar(rows, slots, courts, cells)
    ensures RowsSoFar(rows + [r], slots', courts, cells[fi := Written(cells[fi], si, r.state)])
  {
    var next := cells[fi := Written(cells[fi], si, r.state)];
    CourtsAreDistinct(rows + [r]);
    SlotsAreDistinct(rows + [r]);
    forall i | 0 <= i < |courts| ensures RowSoFar(rows + [r], slots', courts[i].id, next[i]) {
      RowAt(rows, slots, courts, cells, i);
      if i == fi {
        OwnRow(rows, r, slots, slots', si, cells[fi]);
      } else {
        OtherRow(rows, r, slots, slots', courts[i].id, cells[i]);
      }
    }
    AllRows(rows + [r], slots', courts, next);
  }

  lemma EmptyRow(rows: seq<Row>, slots: seq<Slot>, courts: seq<Court>, cells: seq<seq<State>>, court: Court)
    requires |cells| == |courts| && RowsSoFar(rows, slots, courts, cells) && !SeenCourt(rows, court.id)
    ensures RowsSoFar(rows, slots, courts + [court], cells + [[]])
  {
    assert (courts + [court])[..|courts|] == courts && (cells + [[]])[..|courts|] == cells;
    assert RowSoFar(rows, slots, court.id, []);
  }

  /** Grow a ragged row until it has column c, then set it. */
  method Write(row: seq<State>, c: nat, state: State) returns (line: seq<State>)
    ensures line == Written(row, c, state)
  {
    line := row;
    while |line| <= c
      invariant |row| <= |line|
      invariant |line| <= c + 1 || line == row
      invariant line == row + seq(|line| - |row|, i => UNSET)
    {
      line := line + [UNSET];
    }
    line := line[c := state];
  }

  method Pad(row: seq<State>, width: nat) returns (line: seq<State>)
    requires |row| <= width
    ensures |line| == width && forall c :: 0 <= c < width ==> line[c] == if c < |row| then row[c] else CLOSED
  {
    line := row;
    while |line| < width
      invariant |row| <= |line| <= width
      invariant forall c :: 0 <= c < |line| ==> line[c] == if c < |row| then row[c] else CLOSED
    {
      line := line + [CLOSED];
    }
  }

  /** The locals of campusFromDB while rows arrive. */
  datatype Partial = Partial(
    courts: seq<Court>, slots: seq<Slot>, cells: seq<seq<State>>, courtAt: map<nat, nat>, slotAt: map<Instant, nat>)

  ghost predicate PartialOk(rows: seq<Row>, p: Partial)
  {
    && |p.cells| == |p.courts|
    && CourtsIndexed(rows, p.courts, p.courtAt) && SlotsIndexed(rows, p.slots, p.slotAt)
    && RowsSoFar(rows, p.slots, p.courts, p.cells)
  }

  method FindCourt(ghost rows: seq<Row>, r: Row, p: Partial) returns (q: Partial, fi: nat)
    requires PartialOk(rows, p)
    ensures |q.cells| == |q.courts| && q.slots == p.slots && q.slotAt == p.slotAt
    ensures CourtsIndexed(rows + [r], q.courts, q.courtAt) && RowsSoFar(rows, q.slots, q.courts, q.cells)
    ensures fi < |q.courts| && q.courts[fi].id == r.court.id
  {
    SeenMore(rows, r);
    Unfold(rows, r);
    q := p;
    if r.court.id !in p.courtAt {
      EmptyRow(rows, p.slots, p.courts, p.cells, r.court);
      q := p.(courtAt := p.courtAt[r.court.id := |p.courts|], courts := p.courts + [r.court], cells := p.cells + [[]]);
    }
    fi := q.courtAt[r.court.id];
  }

  method FindSlot(ghost rows: seq<Row>, r: Row, slots: seq<Slot>, slotAt: map<Instant, nat>)
    returns (slots': seq<Slot>, slotAt': map<Instant, nat>, si: nat)
    requires SlotsIndexed(rows, slots, slotAt)
    ensures SlotsIndexed(rows + [r], slots', slotAt')
    ensures slots' == slots || (slots' == slots + [r.slot] && !SeenSlot(rows, r.slot.start))
    ensures si < |slots'| && slots'[si].start == r.slot.start
  {
    SeenMore(rows, r);
    Unfold(rows, r);
    slots', slotAt' := slots, slotAt;
    if r.slot.start !in slotAt {
      slotAt' := slotAt[r.slot.start := |slots|];
      slots' := slots + [r.slot];
    }
    si := slotAt'[r.slot.start];
  }

  method Absorb(ghost rows: seq<Row>, r: Row, p: Partial) returns (q: Partial)
    requires PartialOk(rows, p)
    ensures PartialOk(rows + [r], q)
  {
    var fi, si, slots, slotAt;
    q, fi := FindCourt(rows, r, p);
    slots, slotAt, si := FindSlot(rows, r, q.slots, q.slotAt);
    StepRows(rows, r, q.courts, q.slots, slots, q.cells, fi, si);
    var line := Write(q.cells[fi], si, r.state);
    q := q.(slots := slots, slotAt := slotAt, cells := q.cells[fi := line]);
  }

  method PadAll(ghost rows: seq<Row>, ghost courts: seq<Court>, slots: seq<Slot>, ragged: seq<seq<State>>) returns (cells: seq<seq<State>>)
    requires |ragged| == |courts| && RowsSoFar(rows, slots, courts, ragged)
    ensures |cells| == |courts|
    ensures forall r :: 0 <= r < |cells| ==> |cells[r]| == |slots|
    ensures forall r, c :: 0 <= r < |cells| && 0 <= c < |slots| ==> cells[r][c] == CellOf(rows, slots, courts[r].id, c)
  {
    cells := ragged;
    var i := 0;
    while i < |cells|
      invariant 0 <= i <= |cells| == |ragged|
      invariant forall r :: i <= r < |cells| ==> cells[r] == ragged[r]
      invariant forall r :: 0 <= r < i ==> |cells[r]| == |slots|
      invariant forall r, c :: 0 <= r < i && 0 <= c < |slots| ==> cells[r][c] == CellOf(rows, slots, courts[r].id, c)
    {
      RowAt(rows, slots, courts, ragged, i);
      var line := Pad(cells[i], |slots|);
      PaddedRow(rows, slots, courts[i].id, ragged[i], line);
      cells := cells[i := line];
      i := i + 1;
    }
  }

  method Collect(rows: seq<Row>) returns (p: Partial)
    ensures PartialOk(rows, p)
  {
    p := Partial([], [], [], map[], map[]);
    var n := 0;
    ghost var seen: seq<Row> := [];
    while n < |rows|
      invariant 0 <= n <= |rows| && seen == rows[..n]
      invariant PartialOk(seen, p)
    {
      p := Absorb(seen, rows[n], p);
      seen := seen + [rows[n]];
      n := n + 1;
    }
    assert seen == rows;
  }

  /** campusFromDB, given the rows of its query in the order they arrive. */
  method CampusFromRows(rows: seq<Row>) returns (g: Campus)
    ensures IsPivot(rows, g)
  {
    var p := Collect(rows);
    var cells := PadAll(rows, p.courts, p.slots, p.cells);
    g := Campus(p.courts, p.slots, cells);
  }
}
