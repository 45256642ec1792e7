/** Promotion, statement by statement, with any number of open transactions interleaved:
    cancels, sweeps and plain bookings, each with its own uncommitted writes, row locks
    and savepoint. Committed rows are visible to everybody, uncommitted ones to their own
    transaction only, and the exclusion constraint waits for open transactions. */
module SkipLocked {
  import opened Model
  import opened Statements

  /** A booking row; live while its status is inside no_double_book's predicate. */
  datatype Row = Row(facility: FacilityId, start: Instant, end: Instant, live: bool)

  /** What a transaction has written to the four tables a promotion touches, and which of
      the windows it freed it has already offered on. */
  datatype Writes = Writes(promoted: seq<nat>, rows: seq<Row>, events: seq<nat>, outbox: seq<nat>, offered: set<nat>)

  /** Where a savepoint truncates back to. */
  datatype Marks = Marks(promoted: nat, rows: nat, events: nat, outbox: nat, offered: set<nat>, locks: set<nat>)

  /** Inside a promotion of freed row `row`: how many of its steps are done (claim, hold,
      mark, log, enqueue), the entry claimed, and the savepoint. */
  datatype Phase = Outside | Inside(row: nat, stage: nat, claimed: Option<nat>, marks: Marks, image: Writes)

  datatype Tx = Tx(open: bool, writes: Writes, locks: set<nat>, freed: set<nat>, phase: Phase)

  /** Committed tables, all transactions ever begun, and the entries whose promotion has
      committed, in commit order. */
  datatype World = World(entries: seq<Entry>, rows: seq<Row>, txs: seq<Tx>, promotions: seq<nat>)

  const NOTHING: Writes := Writes([], [], [], [], {})

  const START: World := World([], [], [], [])

  predicate Clear(a: Row, b: Row)
  {
    a.facility != b.facility || !Overlaps(a.start, a.end, b.start, b.end)
  }

  // -------------------------------------------------------------------- views

  /** The waitlist rows other open transactions have locked. */
  function LockedByOthers(w: World, t: nat): set<nat>
  {
    set i, l | 0 <= i < |w.txs| && i != t && w.txs[i].open && l in w.txs[i].locks :: l
  }

  /** The waitlist as transaction x sees it: its own promotions are already PROMOTED. */
  function View(entries: seq<Entry>, x: Tx): (r: seq<Entry>)
    ensures |r| == |entries|
    ensures forall v :: 0 <= v < |entries| ==>
              r[v] == if v in x.writes.promoted then entries[v].(status := Promoted) else entries[v]
  {
    seq(|entries|, v requires 0 <= v < |entries| => if v in x.writes.promoted then entries[v].(status := Promoted) else entries[v])
  }

  /** The row a promotion of freed row r inserts. */
  function HoldOf(w: World, r: nat): Row
    requires r < |w.rows|
  {
    w.rows[r].(live := true)
  }

  /** Some visible live row stands in the way: the insert raises 23P01. */
  ghost predicate Blocked23P01(w: World, x: Tx, row: Row)
  {
    || (exists r :: 0 <= r < |w.rows| && w.rows[r].live && r !in x.freed && !Clear(w.rows[r], row))
    || (exists k :: 0 <= k < |x.writes.rows| && !Clear(x.writes.rows[k], row))
  }

  /** Another open transaction has inserted, or is giving up, a row in the way: the insert
      waits for it to end. */
  ghost predicate MustWait(w: World, t: nat, row: Row)
  {
    exists i :: 0 <= i < |w.txs| && i != t && w.txs[i].open
      && ((exists k :: 0 <= k < |w.txs[i].writes.rows| && !Clear(w.txs[i].writes.rows[k], row))
          || (exists r :: r in w.txs[i].freed && r < |w.rows| && !Clear(w.rows[r], row)))
  }

  // -------------------------------------------------------------------- steps

  predicate IsOpen(w: World, t: nat)
  {
    t < |w.txs| && w.txs[t].open
  }

  predicate AtStage(w: World, t: nat, stage: nat)
  {
    IsOpen(w, t) && w.txs[t].phase.Inside? && w.txs[t].phase.stage == stage
  }

  function Put(w: World, t: nat, x: Tx): World
    requires t < |w.txs|
  {
    w.(txs := w.txs[t := x])
  }

  function MarksOf(x: Tx): Marks
  {
    Marks(|x.writes.promoted|, |x.writes.rows|, |x.writes.events|, |x.writes.outbox|, x.writes.offered, x.locks)
  }

  predicate MarksFit(x: Tx, m: Marks)
  {
    m.promoted <= |x.writes.promoted| && m.rows <= |x.writes.rows| && m.events <= |x.writes.events| && m.outbox <= |x.writes.outbox|
  }

  /** ROLLBACK TO SAVEPOINT: truncate every table to its mark, drop the locks taken since. */
  function RolledBack(x: Tx): Tx
    requires x.phase.Inside? && MarksFit(x, x.phase.marks)
  {
    var m := x.phase.marks;
    x.(writes := Writes(x.writes.promoted[..m.promoted], x.writes.rows[..m.rows], x.writes.events[..m.events],
                        x.writes.outbox[..m.outbox], m.offered),
       locks := m.locks, phase := Outside)
  }

  /** The entry the locking SELECT of transaction t returns. */
  function Claimable(w: World, t: nat): Option<nat>
    requires AtStage(w, t, 0) && w.txs[t].phase.row < |w.rows|
  {
    var r := w.rows[w.txs[t].phase.row];
    ClaimHead(View(w.entries, w.txs[t]), r.facility, r.start, r.end, LockedByOthers(w, t))
  }

  datatype Action =
    | Begin
    | Free(t: nat, row: nat)
    | Book(t: nat, booking: Row)
    | Savepoint(t: nat, row: nat)
    | ClaimEntry(t: nat)
    | Hold(t: nat)
    | Mark(t: nat)
    | Log(t: nat)
    | Announce(t: nat)
    | ReleaseSavepoint(t: nat)
    | Fail(t: nat)
    | Commit(t: nat)
    | Abort(t: nat)
    | JoinQueue(newcomer: Entry)
    | LeaveQueue(entry: nat)
    | Settle(entry: nat, status: EntryStatus)

  ghost predicate Enabled(w: World, a: Action)
  {
    match a
    case Begin => true
    // the guarded UPDATE of a holding row; a row another transaction is updating is not taken
    case Free(t, r) =>
      IsOpen(w, t) && w.txs[t].phase.Outside? && w.txs[t].writes.rows == [] && r < |w.rows| && w.rows[r].live
      && forall i :: 0 <= i < |w.txs| && w.txs[i].open ==> r !in w.txs[i].freed
    // a plain booking or closure
    case Book(t, b) =>
      IsOpen(w, t) && w.txs[t].phase.Outside? && w.txs[t].freed == {} && b.live && b.start < b.end
      && !MustWait(w, t, b) && !Blocked23P01(w, w.txs[t], b)
    case Savepoint(t, r) => IsOpen(w, t) && w.txs[t].phase.Outside? && r in w.txs[t].freed
    case ClaimEntry(t) => AtStage(w, t, 0) && w.txs[t].phase.row < |w.rows| && Claimable(w, t).Some?
    case Hold(t) =>
      AtStage(w, t, 1) && w.txs[t].phase.row < |w.rows|
      && !MustWait(w, t, HoldOf(w, w.txs[t].phase.row)) && !Blocked23P01(w, w.txs[t], HoldOf(w, w.txs[t].phase.row))
    case Mark(t) => AtStage(w, t, 2) && w.txs[t].phase.claimed.Some?
    case Log(t) => AtStage(w, t, 3) && w.txs[t].phase.claimed.Some?
    case Announce(t) => AtStage(w, t, 4) && w.txs[t].phase.claimed.Some?
    case ReleaseSavepoint(t) => AtStage(w, t, 5)
    // an empty queue, 23P01, or any error of the five statements
    case Fail(t) => IsOpen(w, t) && w.txs[t].phase.Inside? && MarksFit(w.txs[t], w.txs[t].phase.marks)
    case Commit(t) => IsOpen(w, t) && w.txs[t].phase.Outside?
    case Abort(t) => IsOpen(w, t)
    case JoinQueue(e) => e.status == Waiting
    case LeaveQueue(v) =>
      v < |w.entries| && w.entries[v].status == Waiting
      && forall i :: 0 <= i < |w.txs| && w.txs[i].open ==> v !in w.txs[i].locks
    // a committed offer is claimed or expires
    case Settle(v, status) =>
      v < |w.entries| && w.entries[v].status == Promoted && (status == EntryStatus.Claimed || status == EntryStatus.Expired)
  }

  function Staged(x: Tx, stage: nat, writes: Writes): Tx
    requires x.phase.Inside?
  {
    x.(writes := writes, phase := x.phase.(stage := stage))
  }

  /** COMMIT: the writes become visible and the locks go. */
  function Committed(w: World, t: nat): World
    requires t < |w.txs|
  {
    var x := w.txs[t];
    World(
      seq(|w.entries|, v requires 0 <= v < |w.entries| =>
        if v in x.writes.promoted then w.entries[v].(status := Promoted) else w.entries[v]),
      seq(|w.rows|, r requires 0 <= r < |w.rows| => if r in x.freed then w.rows[r].(live := false) else w.rows[r]) + x.writes.rows,
      w.txs[t := x.(open := false)],
      w.promotions + x.writes.promoted)
  }

  function Do(w: World, a: Action): World
    requires Enabled(w, a)
  {
    match a
    case Begin => w.(txs := w.txs + [Tx(true, NOTHING, {}, {}, Outside)])
    case Free(t, r) => Put(w, t, w.txs[t].(freed := w.txs[t].freed + {r}))
    case Book(t, b) => Put(w, t, w.txs[t].(writes := w.txs[t].writes.(rows := w.txs[t].writes.rows + [b])))
    case Savepoint(t, r) => Put(w, t, w.txs[t].(phase := Inside(r, 0, None, MarksOf(w.txs[t]), w.txs[t].writes)))
    case ClaimEntry(t) =>
      var x, v := w.txs[t], Claimable(w, t).value;
      Put(w, t, x.(locks := x.locks + {v}, phase := x.phase.(stage := 1, claimed := Some(v))))
    case Hold(t) =>
      var x := w.txs[t];
      Put(w, t, Staged(x, 2, x.writes.(rows := x.writes.rows + [HoldOf(w, x.phase.row)], offered := x.writes.offered + {x.phase.row})))
    case Mark(t) =>
      var x := w.txs[t];
      Put(w, t, Staged(x, 3, x.writes.(promoted := x.writes.promoted + [x.phase.claimed.value])))
    case Log(t) =>
      var x := w.txs[t];
      Put(w, t, Staged(x, 4, x.writes.(events := x.writes.events + [x.phase.claimed.value])))
    case Announce(t) =>
      var x := w.txs[t];
      Put(w, t, Staged(x, 5, x.writes.(outbox := x.writes.outbox + [x.phase.claimed.value])))
    case ReleaseSavepoint(t) => Put(w, t, w.txs[t].(phase := Outside))
    case Fail(t) => Put(w, t, RolledBack(w.txs[t]))
    case Commit(t) => Committed(w, t)
    case Abort(t) => Put(w, t, w.txs[t].(open := false))
    case JoinQueue(e) => w.(entries := w.entries + [e])
    case LeaveQueue(v) => w.(entries := w.entries[v := w.entries[v].(status := Left)])
    case Settle(v, status) => w.(entries := w.entries[v := w.entries[v].(status := status)])
  }

  // --------------------------------------------------------------- invariants

  ghost predicate Unique(ids: seq<nat>)
  {
    forall i, j :: 0 <= i < j < |ids| ==> ids[i] != ids[j]
  }

  function Optional(present: bool, v: Option<nat>): seq<nat>
  {
    if present && v.Some? then [v.value] else []
  }

  /** Inside a promotion, the writes are those at the savepoint plus the steps done since. */
  ghost predicate PhaseOk(w: World, x: Tx)
  {
    match x.phase
    case Outside => x.locks == Ids(x.writes.promoted)
    case Inside(r, stage, claimed, marks, image) =>
      && stage <= 5 && r in x.freed && r < |w.rows|
      && (claimed.Some? <==> stage >= 1)
      && marks == Marks(|image.promoted|, |image.rows|, |image.events|, |image.outbox|, image.offered, Ids(image.promoted))
      && x.writes.promoted == image.promoted + Optional(stage >= 3, claimed)
      && x.writes.rows == image.rows + (if stage >= 2 then [HoldOf(w, r)] else [])
      && x.writes.events == image.events + Optional(stage >= 4, claimed)
      && x.writes.outbox == image.outbox + Optional(stage >= 5, claimed)
      && x.writes.offered == image.offered + (if stage >= 2 then {r} else {})
      && Unique(image.promoted)
      && (claimed.Some? ==> claimed.value !in image.promoted)
      && x.locks == Ids(image.promoted) + Ids(Optional(true, claimed))
  }

  ghost predicate TxOk(w: World, x: Tx)
  {
    x.open ==>
      && PhaseOk(w, x)
      && Unique(x.writes.promoted)
      && (forall l :: l in x.locks ==> l < |w.entries| && w.entries[l].status == Waiting)
      && (forall r :: r in x.freed ==> r < |w.rows| && w.rows[r].live)
  }

  ghost predicate RowsClear(w: World)
  {
    && (forall r :: 0 <= r < |w.rows| && w.rows[r].live ==> w.rows[r].start < w.rows[r].end)
    && forall r, q :: 0 <= r < q < |w.rows| && w.rows[r].live && w.rows[q].live ==> Clear(w.rows[r], w.rows[q])
  }

  /** What x has inserted is clear of every committed live row it has not itself freed, of
      its own other rows, and of the windows it has freed but not offered on. */
  ghost predicate InsertsClear(w: World, x: Tx)
  {
    x.open ==>
      && (forall k :: 0 <= k < |x.writes.rows| ==> x.writes.rows[k].live && x.writes.rows[k].start < x.writes.rows[k].end)
      && (forall j, k :: 0 <= j < k < |x.writes.rows| ==> Clear(x.writes.rows[j], x.writes.rows[k]))
      && (forall k, r :: 0 <= k < |x.writes.rows| && 0 <= r < |w.rows| && w.rows[r].live && (r in x.freed ==> r !in x.writes.offered) ==>
            Clear(w.rows[r], x.writes.rows[k]))
  }

  /** Two open transactions have nothing in common. */
  ghost predicate Independent(x: Tx, y: Tx)
  {
    x.open && y.open ==>
      && x.locks !! y.locks && x.freed !! y.freed
      && forall j, k :: 0 <= j < |x.writes.rows| && 0 <= k < |y.writes.rows| ==> Clear(x.writes.rows[j], y.writes.rows[k])
  }

  /** The promotions that have committed: distinct, and none of them waits any more. */
  ghost predicate HistoryOk(w: World)
  {
    && Unique(w.promotions)
    && (forall k :: 0 <= k < |w.promotions| ==>
          w.promotions[k] < |w.entries|
          && var s := w.entries[w.promotions[k]].status; s == Promoted || s == EntryStatus.Claimed || s == EntryStatus.Expired)
  }

  ghost predicate Inv(w: World)
  {
    && RowsClear(w)
    && HistoryOk(w)
    && (forall i :: 0 <= i < |w.txs| ==> TxOk(w, w.txs[i]))
    && (forall i :: 0 <= i < |w.txs| ==> InsertsClear(w, w.txs[i]))
    && forall i, j :: 0 <= i < |w.txs| && 0 <= j < |w.txs| && i != j ==> Independent(w.txs[i], w.txs[j])
  }

  // ------------------------------------------------------------- preservation

  /** A step of one transaction that commits nothing: the others and the tables stay. */
  lemma PutKeeps(w: World, t: nat, x: Tx)
    requires Inv(w) && t < |w.txs|
    requires TxOk(w, x) && InsertsClear(w, x)
    requires forall i :: 0 <= i < |w.txs| && i != t ==> Independent(w.txs[i], x) && Independent(x, w.txs[i])
    ensures Inv(Put(w, t, x))
  {
    var u := Put(w, t, x);
    forall i | 0 <= i < |u.txs| ensures TxOk(u, u.txs[i]) && InsertsClear(u, u.txs[i]) {
      assert TxOk(w, w.txs[i]) && InsertsClear(w, w.txs[i]);
      SameTables(w, u, u.txs[i]);
    }
  }

  lemma SameTables(w: World, u: World, x: Tx)
    requires w.entries == u.entries && w.rows == u.rows
    ensures TxOk(w, x) <==> TxOk(u, x)
    ensures InsertsClear(w, x) <==> InsertsClear(u, x)
  {
  }

  /** Fewer locks, rows and claims than before: still independent of everybody. */
  lemma IndependentSmaller(w: World, t: nat, x: Tx)
    requires Inv(w) && t < |w.txs| && w.txs[t].open
    requires x.locks <= w.txs[t].locks && x.freed <= w.txs[t].freed
    requires forall k :: 0 <= k < |x.writes.rows| ==> x.writes.rows[k] in w.txs[t].writes.rows
    ensures forall i :: 0 <= i < |w.txs| && i != t ==> Independent(w.txs[i], x) && Independent(x, w.txs[i])
  {
    forall i | 0 <= i < |w.txs| && i != t ensures Independent(w.txs[i], x) && Independent(x, w.txs[i]) {
      assert Independent(w.txs[i], w.txs[t]) && Independent(w.txs[t], w.txs[i]);
    }
  }

  lemma FreeKeeps(w: World, t: nat, r: nat)
    requires Inv(w) && Enabled(w, Free(t, r))
    ensures Inv(Do(w, Free(t, r)))
  {
    var x := w.txs[t].(freed := w.txs[t].freed + {r});
    assert TxOk(w, w.txs[t]);
    forall i | 0 <= i < |w.txs| && i != t ensures Independent(w.txs[i], x) && Independent(x, w.txs[i]) {
      assert Independent(w.txs[i], w.txs[t]) && Independent(w.txs[t], w.txs[i]);
    }
    PutKeeps(w, t, x);
  }

  /** A row that neither conflicts nor has to wait is clear of everything it should be. */
  lemma InsertIsClear(w: World, t: nat, row: Row)
    requires Inv(w) && IsOpen(w, t) && !MustWait(w, t, row) && !Blocked23P01(w, w.txs[t], row)
    ensures forall r :: 0 <= r < |w.rows| && w.rows[r].live && r !in w.txs[t].freed ==> Clear(w.rows[r], row)
    ensures forall k :: 0 <= k < |w.txs[t].writes.rows| ==> Clear(w.txs[t].writes.rows[k], row)
    ensures forall i, k :: 0 <= i < |w.txs| && i != t && w.txs[i].open && 0 <= k < |w.txs[i].writes.rows| ==> Clear(w.txs[i].writes.rows[k], row)
  {
  }

  lemma BookKeeps(w: World, t: nat, b: Row)
    requires Inv(w) && Enabled(w, Book(t, b))
    ensures Inv(Do(w, Book(t, b)))
  {
    var x := w.txs[t];
    var x' := x.(writes := x.writes.(rows := x.writes.rows + [b]));
    assert TxOk(w, x) && InsertsClear(w, x);
    InsertIsClear(w, t, b);
    forall i | 0 <= i < |w.txs| && i != t ensures Independent(w.txs[i], x') && Independent(x', w.txs[i]) {
      assert Independent(w.txs[i], x) && Independent(x, w.txs[i]);
    }
    PutKeeps(w, t, x');
  }

  lemma HoldKeeps(w: World, t: nat)
    requires Inv(w) && Enabled(w, Hold(t))
    ensures Inv(Do(w, Hold(t)))
  {
    var x := w.txs[t];
    var r := x.phase.row;
    var row := HoldOf(w, r);
    var x' := Do(w, Hold(t)).txs[t];
    assert TxOk(w, x) && InsertsClear(w, x);
    InsertIsClear(w, t, row);
    forall q | 0 <= q < |w.rows| && w.rows[q].live && q != r ensures Clear(w.rows[q], row) {
      if q < r { assert Clear(w.rows[q], w.rows[r]); } else { assert Clear(w.rows[r], w.rows[q]); }
    }
    assert InsertsClear(w, x');
    forall i | 0 <= i < |w.txs| && i != t ensures Independent(w.txs[i], x') && Independent(x', w.txs[i]) {
      assert Independent(w.txs[i], x) && Independent(x, w.txs[i]);
    }
    PutKeeps(w, t, x');
  }

  lemma ClaimIsFresh(w: World, t: nat)
    requires Enabled(w, ClaimEntry(t))
    ensures var v := Claimable(w, t).value;
            && v < |w.entries| && w.entries[v].status == Waiting && v !in w.txs[t].writes.promoted
            && forall i :: 0 <= i < |w.txs| && i != t && w.txs[i].open ==> v !in w.txs[i].locks
  {
    var x := w.txs[t];
    var v := Claimable(w, t).value;
    var r := w.rows[x.phase.row];
    ClaimHeadIsHead(View(w.entries, x), r.facility, r.start, r.end, LockedByOthers(w, t));
    forall i | 0 <= i < |w.txs| && i != t && w.txs[i].open ensures v !in w.txs[i].locks {
      assert v in w.txs[i].locks ==> v in LockedByOthers(w, t);
    }
  }

  ghost function AfterClaim(w: World, t: nat): Tx
    requires Enabled(w, ClaimEntry(t))
  {
    var x := w.txs[t];
    var v := Claimable(w, t).value;
    x.(locks := x.locks + {v}, phase := x.phase.(stage := 1, claimed := Some(v)))
  }

  lemma ClaimedTxOk(w: World, t: nat)
    requires Enabled(w, ClaimEntry(t)) && TxOk(w, w.txs[t])
    ensures TxOk(w, AfterClaim(w, t))
  {
    var x, x' := w.txs[t], AfterClaim(w, t);
    ClaimIsFresh(w, t);
    assert x'.locks == Ids(x.phase.image.promoted) + Ids(Optional(true, x'.phase.claimed));
  }

  /** One more lock, which nobody else holds. */
  lemma LockKeeps(w: World, t: nat, x: Tx, v: nat)
    requires Inv(w) && t < |w.txs| && w.txs[t].open
    requires x == w.txs[t].(locks := w.txs[t].locks + {v}, phase := x.phase) && TxOk(w, x)
    requires forall i :: 0 <= i < |w.txs| && i != t && w.txs[i].open ==> v !in w.txs[i].locks
    ensures Inv(Put(w, t, x))
  {
    SameInserts(w, w.txs[t], x);
    forall i | 0 <= i < |w.txs| && i != t ensures Independent(w.txs[i], x) && Independent(x, w.txs[i]) {
      assert Independent(w.txs[i], w.txs[t]) && Independent(w.txs[t], w.txs[i]);
    }
    PutKeeps(w, t, x);
  }

  lemma SameInserts(w: World, x: Tx, y: Tx)
    requires y.open == x.open && y.writes == x.writes && y.freed == x.freed && InsertsClear(w, x)
    ensures InsertsClear(w, y)
  {
  }

  lemma ClaimKeeps(w: World, t: nat)
    requires Inv(w) && Enabled(w, ClaimEntry(t))
    ensures Inv(Do(w, ClaimEntry(t)))
  {
    assert TxOk(w, w.txs[t]);
    ClaimIsFresh(w, t);
    ClaimedTxOk(w, t);
    LockKeeps(w, t, AfterClaim(w, t), Claimable(w, t).value);
  }

  lemma MarkKeeps(w: World, t: nat)
    requires Inv(w) && Enabled(w, Mark(t))
    ensures Inv(Do(w, Mark(t)))
  {
    assert TxOk(w, w.txs[t]) && InsertsClear(w, w.txs[t]);
    IndependentSmaller(w, t, Do(w, Mark(t)).txs[t]);
    PutKeeps(w, t, Do(w, Mark(t)).txs[t]);
  }

  lemma NoteKeeps(w: World, t: nat, a: Action)
    requires Inv(w) && Enabled(w, a) && (a == Log(t) || a == Announce(t))
    ensures Inv(Do(w, a))
  {
    assert TxOk(w, w.txs[t]) && InsertsClear(w, w.txs[t]);
    IndependentSmaller(w, t, Do(w, a).txs[t]);
    PutKeeps(w, t, Do(w, a).txs[t]);
  }

  lemma SavepointKeeps(w: World, t: nat, r: nat)
    requires Inv(w) && Enabled(w, Savepoint(t, r))
    ensures Inv(Do(w, Savepoint(t, r)))
  {
    assert TxOk(w, w.txs[t]) && InsertsClear(w, w.txs[t]);
    var x' := Do(w, Savepoint(t, r)).txs[t];
    assert x'.locks == Ids(x'.phase.image.promoted) + Ids(Optional(true, None));
    IndependentSmaller(w, t, x');
    PutKeeps(w, t, x');
  }

  lemma ReleaseKeeps(w: World, t: nat)
    requires Inv(w) && Enabled(w, ReleaseSavepoint(t))
    ensures Inv(Do(w, ReleaseSavepoint(t)))
  {
    var x := w.txs[t];
    assert TxOk(w, x) && InsertsClear(w, x);
    var x' := Do(w, ReleaseSavepoint(t)).txs[t];
    assert x'.locks == Ids(x'.writes.promoted);
    IndependentSmaller(w, t, x');
    PutKeeps(w, t, x');
  }

  /** A failed promotion leaves the transaction exactly as it was at the savepoint. */
  lemma FailRestores(w: World, t: nat)
    requires Inv(w) && IsOpen(w, t) && w.txs[t].phase.Inside?
    ensures Enabled(w, Fail(t))
    ensures RolledBack(w.txs[t]) == w.txs[t].(writes := w.txs[t].phase.image, locks := Ids(w.txs[t].phase.image.promoted), phase := Outside)
  {
    assert TxOk(w, w.txs[t]);
  }

  lemma FailedInsertsClear(w: World, t: nat)
    requires IsOpen(w, t) && w.txs[t].phase.Inside? && TxOk(w, w.txs[t]) && InsertsClear(w, w.txs[t])
    requires RolledBack(w.txs[t]) == w.txs[t].(writes := w.txs[t].phase.image, locks := Ids(w.txs[t].phase.image.promoted), phase := Outside)
    ensures InsertsClear(w, RolledBack(w.txs[t]))
  {
    var x, x' := w.txs[t], RolledBack(w.txs[t]);
    assert forall k :: 0 <= k < |x'.writes.rows| ==> x'.writes.rows[k] == x.writes.rows[k];
    forall k, r | 0 <= k < |x'.writes.rows| && 0 <= r < |w.rows| && w.rows[r].live && (r in x'.freed ==> r !in x'.writes.offered)
      ensures Clear(w.rows[r], x'.writes.rows[k])
    {
      if r in x.freed && r in x.writes.offered {
        // only the window being offered was added since the savepoint
        assert r == x.phase.row && x.phase.stage >= 2;
        assert x.writes.rows[|x.writes.rows| - 1] == HoldOf(w, r);
        assert Clear(x.writes.rows[k], x.writes.rows[|x.writes.rows| - 1]);
      }
    }
  }

  lemma FailKeeps(w: World, t: nat)
    requires Inv(w) && Enabled(w, Fail(t))
    ensures Inv(Do(w, Fail(t)))
  {
    var x := w.txs[t];
    assert TxOk(w, x) && InsertsClear(w, x);
    FailRestores(w, t);
    FailedInsertsClear(w, t);
    IndependentSmaller(w, t, RolledBack(x));
    PutKeeps(w, t, RolledBack(x));
  }

  lemma CloseKeeps(w: World, t: nat)
    requires Inv(w) && t < |w.txs|
    ensures Inv(Put(w, t, w.txs[t].(open := false)))
  {
    PutKeeps(w, t, w.txs[t].(open := false));
  }

  lemma CommitHistory(w: World, t: nat)
    requires Inv(w) && Enabled(w, Commit(t))
    ensures HistoryOk(Do(w, Commit(t)))
  {
    var x, u := w.txs[t], Do(w, Commit(t));
    assert TxOk(w, x);
    forall k | 0 <= k < |x.writes.promoted| ensures x.writes.promoted[k] in x.locks {
      assert x.writes.promoted[k] in Ids(x.writes.promoted);
    }
    forall j, k | 0 <= j < k < |u.promotions| ensures u.promotions[j] != u.promotions[k] {
      if j < |w.promotions| && k >= |w.promotions| {
        assert u.promotions[k] == x.writes.promoted[k - |w.promotions|];
      }
    }
  }

  lemma CommitRows(w: World, t: nat)
    requires Inv(w) && Enabled(w, Commit(t))
    ensures RowsClear(Do(w, Commit(t)))
  {
    var x, u := w.txs[t], Do(w, Commit(t));
    assert InsertsClear(w, x);
    var n := |w.rows|;
    forall r, q | 0 <= r < q < |u.rows| && u.rows[r].live && u.rows[q].live ensures Clear(u.rows[r], u.rows[q]) {
      if q < n {
        assert Clear(w.rows[r], w.rows[q]);
      } else if r < n {
        assert Clear(w.rows[r], x.writes.rows[q - n]);
      } else {
        assert Clear(x.writes.rows[r - n], x.writes.rows[q - n]);
      }
    }
  }

  lemma CommitOtherTx(w: World, t: nat, i: nat)
    requires Inv(w) && Enabled(w, Commit(t)) && i < |w.txs| && i != t
    ensures TxOk(Do(w, Commit(t)), w.txs[i])
  {
    var x, y, u := w.txs[t], w.txs[i], Do(w, Commit(t));
    assert TxOk(w, x) && TxOk(w, y) && Independent(x, y);
    if y.open {
      forall l | l in y.locks ensures l < |u.entries| && u.entries[l].status == Waiting {
        assert l !in Ids(x.writes.promoted);
      }
      if y.phase.Inside? { assert HoldOf(u, y.phase.row) == HoldOf(w, y.phase.row); }
    }
  }

  lemma CommittedRowClear(w: World, t: nat, i: nat, k: nat, r: nat)
    requires t < |w.txs| && i < |w.txs| && w.txs[t].open && w.txs[i].open
    requires InsertsClear(w, w.txs[i]) && Independent(w.txs[t], w.txs[i])
    requires k < |w.txs[i].writes.rows| && r < |Committed(w, t).rows| && Committed(w, t).rows[r].live
    requires r in w.txs[i].freed ==> r !in w.txs[i].writes.offered
    ensures Clear(Committed(w, t).rows[r], w.txs[i].writes.rows[k])
  {
    var x, y := w.txs[t], w.txs[i];
    CommittedRowAt(w, t, r);
    if r < |w.rows| {
      assert Clear(w.rows[r], y.writes.rows[k]);
    } else {
      assert Clear(x.writes.rows[r - |w.rows|], y.writes.rows[k]);
    }
  }

  lemma CommittedRowAt(w: World, t: nat, r: nat)
    requires t < |w.txs| && r < |Committed(w, t).rows| && Committed(w, t).rows[r].live
    ensures Committed(w, t).rows[r] == if r < |w.rows| then w.rows[r] else w.txs[t].writes.rows[r - |w.rows|]
    ensures r < |w.rows| ==> r !in w.txs[t].freed
  {
  }

  lemma CommitOtherInserts(w: World, t: nat, i: nat)
    requires Inv(w) && Enabled(w, Commit(t)) && i < |w.txs| && i != t
    ensures InsertsClear(Do(w, Commit(t)), w.txs[i])
  {
    var y, u := w.txs[i], Do(w, Commit(t));
    assert InsertsClear(w, y) && Independent(w.txs[t], y);
    if y.open {
      forall k, r | 0 <= k < |y.writes.rows| && 0 <= r < |u.rows| && u.rows[r].live && (r in y.freed ==> r !in y.writes.offered)
        ensures Clear(u.rows[r], y.writes.rows[k])
      {
        CommittedRowClear(w, t, i, k, r);
      }
    }
  }

  lemma CommitKeeps(w: World, t: nat)
    requires Inv(w) && Enabled(w, Commit(t))
    ensures Inv(Do(w, Commit(t)))
  {
    var u := Do(w, Commit(t));
    CommitHistory(w, t);
    CommitRows(w, t);
    forall i | 0 <= i < |u.txs| ensures TxOk(u, u.txs[i]) && InsertsClear(u, u.txs[i]) {
      if i != t {
        CommitOtherTx(w, t, i);
        CommitOtherInserts(w, t, i);
      }
    }
    forall i, j | 0 <= i < |u.txs| && 0 <= j < |u.txs| && i != j ensures Independent(u.txs[i], u.txs[j]) {
      assert Independent(w.txs[i], w.txs[j]);
    }
  }

  /** The queue changes under rows nobody has locked. */
  lemma QueueTxKeeps(w: World, a: Action, i: nat)
    requires Enabled(w, a) && (a.JoinQueue? || a.LeaveQueue? || a.Settle?)
    requires i < |w.txs| && TxOk(w, w.txs[i])
    ensures TxOk(Do(w, a), w.txs[i])
  {
    var x := w.txs[i];
    if x.open && x.phase.Inside? { assert HoldOf(Do(w, a), x.phase.row) == HoldOf(w, x.phase.row); }
  }

  lemma QueueInsertsKeep(w: World, a: Action, x: Tx)
    requires Enabled(w, a) && (a.JoinQueue? || a.LeaveQueue? || a.Settle?) && InsertsClear(w, x)
    ensures InsertsClear(Do(w, a), x)
  {
  }

  lemma QueueKeeps(w: World, a: Action)
    requires Inv(w) && Enabled(w, a) && (a.JoinQueue? || a.LeaveQueue? || a.Settle?)
    ensures Inv(Do(w, a))
  {
    forall i | 0 <= i < |w.txs| ensures TxOk(Do(w, a), w.txs[i]) && InsertsClear(Do(w, a), w.txs[i]) {
      QueueTxKeeps(w, a, i);
      QueueInsertsKeep(w, a, w.txs[i]);
    }
  }

  lemma BeginKeeps(w: World)
    requires Inv(w)
    ensures Inv(Do(w, Begin))
  {
    var u := Do(w, Begin);
    forall i | 0 <= i < |u.txs| ensures TxOk(u, u.txs[i]) && InsertsClear(u, u.txs[i]) {
      if i < |w.txs| {
        assert TxOk(w, w.txs[i]) && InsertsClear(w, w.txs[i]);
        SameTables(w, u, w.txs[i]);
      }
    }
    forall i, j | 0 <= i < |u.txs| && 0 <= j < |u.txs| && i != j ensures Independent(u.txs[i], u.txs[j]) {
      if i < |w.txs| && j < |w.txs| { assert Independent(w.txs[i], w.txs[j]); }
    }
  }

  lemma StepKeeps(w: World, a: Action)
    requires Inv(w) && Enabled(w, a)
    ensures Inv(Do(w, a))
  {
    match a
    case Begin => BeginKeeps(w);
    case Free(t, r) => FreeKeeps(w, t, r);
    case Book(t, b) => BookKeeps(w, t, b);
    case Savepoint(t, r) => SavepointKeeps(w, t, r);
    case ClaimEntry(t) => ClaimKeeps(w, t);
    case Hold(t) => HoldKeeps(w, t);
    case Mark(t) => MarkKeeps(w, t);
    case Log(t) => NoteKeeps(w, t, a);
    case Announce(t) => NoteKeeps(w, t, a);
    case ReleaseSavepoint(t) => ReleaseKeeps(w, t);
    case Fail(t) => FailKeeps(w, t);
    case Commit(t) => CommitKeeps(w, t);
    case Abort(t) => CloseKeeps(w, t);
    case JoinQueue(e) => QueueKeeps(w, a);
    case LeaveQueue(v) => QueueKeeps(w, a);
    case Settle(v, status) => QueueKeeps(w, a);
  }

  // ------------------------------------------------------------------ theorems

  ghost predicate Interleaving(worlds: seq<World>, actions: seq<Action>)
  {
    && |worlds| == |actions| + 1 && worlds[0] == START
    && forall k :: 0 <= k < |actions| ==> Enabled(worlds[k], actions[k]) && worlds[k + 1] == Do(worlds[k], actions[k])
  }

  lemma {:induction false} InterleavingInv(worlds: seq<World>, actions: seq<Action>, k: nat)
    requires Interleaving(worlds, actions) && k <= |actions|
    ensures Inv(worlds[k])
  {
    if k > 0 {
      InterleavingInv(worlds, actions, k - 1);
      StepKeeps(worlds[k - 1], actions[k - 1]);
    }
  }

  /** In every interleaving: committed promotions are of distinct entries; no two open
      transactions own one entry; an entry an open transaction is promoting has not been
      promoted before; and committed live rows never overlap. */
  lemma PromotionsExclusive(worlds: seq<World>, actions: seq<Action>, k: nat)
    requires Interleaving(worlds, actions) && k <= |actions|
    ensures var w := worlds[k];
            && Unique(w.promotions)
            && (forall i, j, l :: 0 <= i < |w.txs| && 0 <= j < |w.txs| && i != j && w.txs[i].open && w.txs[j].open && l in w.txs[i].locks ==>
                  l !in w.txs[j].locks)
            && (forall i, l :: 0 <= i < |w.txs| && w.txs[i].open && l in w.txs[i].writes.promoted ==> l !in w.promotions)
            && (forall r, q :: 0 <= r < q < |w.rows| && w.rows[r].live && w.rows[q].live ==> Clear(w.rows[r], w.rows[q]))
  {
    InterleavingInv(worlds, actions, k);
    var w := worlds[k];
    forall i, j, l | 0 <= i < |w.txs| && 0 <= j < |w.txs| && i != j && w.txs[i].open && w.txs[j].open && l in w.txs[i].locks
      ensures l !in w.txs[j].locks
    {
      assert Independent(w.txs[i], w.txs[j]);
    }
    forall i, l | 0 <= i < |w.txs| && w.txs[i].open && l in w.txs[i].writes.promoted ensures l !in w.promotions {
      assert TxOk(w, w.txs[i]);
      OwnsPromoted(w, w.txs[i], l);
    }
  }

  lemma OwnsPromoted(w: World, x: Tx, l: nat)
    requires x.open && TxOk(w, x) && l in x.writes.promoted
    ensures l in x.locks
  {
    assert l in Ids(x.writes.promoted);
    if x.phase.Inside? {
      var p := x.phase;
      assert l in p.image.promoted || Optional(p.stage >= 3, p.claimed) == [l];
      assert l in Ids(p.image.promoted) || Optional(true, p.claimed) == [l];
    }
  }

  /** A claim takes the unlocked overlapping WAITING entry everybody else queues behind,
      and finds none only when there is none. */
  lemma ClaimTakesTheBest(w: World, t: nat, v: nat)
    requires Inv(w) && AtStage(w, t, 0)
    requires v < |w.entries| && v !in LockedByOthers(w, t) && v !in w.txs[t].writes.promoted
    requires w.txs[t].phase.row < |w.rows|
    requires var r := w.rows[w.txs[t].phase.row]; Eligible(w.entries[v], r.facility, r.start, r.end)
    ensures Enabled(w, ClaimEntry(t))
    ensures var u := Do(w, ClaimEntry(t));
            var best := u.txs[t].phase.claimed.value;
            && best < |w.entries| && best !in LockedByOthers(w, t) && best !in w.txs[t].writes.promoted
            && Eligible(w.entries[best], w.rows[w.txs[t].phase.row].facility, w.rows[w.txs[t].phase.row].start, w.rows[w.txs[t].phase.row].end)
            && (best == v || w.entries[v].priority < w.entries[best].priority
                || (w.entries[v].priority == w.entries[best].priority && best < v))
  {
    var x := w.txs[t];
    var r := w.rows[x.phase.row];
    ClaimHeadIsHead(View(w.entries, x), r.facility, r.start, r.end, LockedByOthers(w, t));
    assert View(w.entries, x)[v] == w.entries[v];
  }

  /** The first offer of a freed window neither waits for another transaction nor loses the
      window, whatever the others do: claim or find the queue empty, then hold. */
  lemma FirstOfferNeverLoses(w: World, t: nat)
    requires Inv(w) && AtStage(w, t, 1) && w.txs[t].phase.row !in w.txs[t].phase.image.offered
    ensures Enabled(w, Hold(t))
  {
    var x := w.txs[t];
    assert TxOk(w, x) && InsertsClear(w, x);
    var r := x.phase.row;
    var row := HoldOf(w, r);
    assert r !in x.writes.offered;
    forall q | 0 <= q < |w.rows| && w.rows[q].live && q != r ensures Clear(w.rows[q], row) {
      if q < r { assert Clear(w.rows[q], w.rows[r]); } else { assert Clear(w.rows[r], w.rows[q]); }
    }
    forall i | 0 <= i < |w.txs| && i != t && w.txs[i].open
      ensures forall k :: 0 <= k < |w.txs[i].writes.rows| ==> Clear(w.txs[i].writes.rows[k], row)
      ensures forall q :: q in w.txs[i].freed && q < |w.rows| ==> Clear(w.rows[q], row)
    {
      var y := w.txs[i];
      assert TxOk(w, y) && InsertsClear(w, y) && Independent(x, y);
      forall k | 0 <= k < |y.writes.rows| ensures Clear(y.writes.rows[k], row) {
        assert Clear(w.rows[r], y.writes.rows[k]);
      }
    }
    forall k | 0 <= k < |x.writes.rows| ensures Clear(x.writes.rows[k], row) {
      assert Clear(w.rows[r], x.writes.rows[k]);
    }
  }

  /** From a savepoint to the failure of that promotion, with any steps of the other
      transactions and of the promotion itself in between: the transaction's entries,
      bookings, events and outbox rows, and its locks, are those it had at the savepoint. */
  lemma FailedPromotionLeavesNothing(worlds: seq<World>, actions: seq<Action>, i: nat, j: nat, t: nat, r: nat)
    requires Interleaving(worlds, actions) && i < j < |actions|
    requires actions[i] == Savepoint(t, r) && actions[j] == Fail(t)
    requires forall k :: i < k <= j ==> IsOpen(worlds[k], t) && worlds[k].txs[t].phase.Inside?
    ensures worlds[j + 1].txs[t] == worlds[i].txs[t]
  {
    InterleavingInv(worlds, actions, i);
    InterleavingInv(worlds, actions, j);
    assert TxOk(worlds[i], worlds[i].txs[t]);
    ImageKept(worlds, actions, i, j, t, r);
    FailRestores(worlds[j], t);
  }

  lemma StepKeepsImage(w: World, a: Action, t: nat)
    requires Enabled(w, a) && IsOpen(w, t) && w.txs[t].phase.Inside?
    requires IsOpen(Do(w, a), t) && Do(w, a).txs[t].phase.Inside?
    ensures Do(w, a).txs[t].phase.image == w.txs[t].phase.image && Do(w, a).txs[t].freed == w.txs[t].freed
  {
  }

  lemma {:induction false} ImageKept(worlds: seq<World>, actions: seq<Action>, i: nat, j: nat, t: nat, r: nat)
    requires Interleaving(worlds, actions) && i < j < |actions| && actions[i] == Savepoint(t, r)
    requires forall k :: i < k <= j ==> IsOpen(worlds[k], t) && worlds[k].txs[t].phase.Inside?
    requires IsOpen(worlds[i], t) && IsOpen(worlds[j], t) && worlds[j].txs[t].phase.Inside?
    ensures worlds[j].txs[t].phase.image == worlds[i].txs[t].writes && worlds[j].txs[t].freed == worlds[i].txs[t].freed
    decreases j
  {
    if j > i + 1 {
      ImageKept(worlds, actions, i, j - 1, t, r);
      var w, a := worlds[j - 1], actions[j - 1];
      assert Enabled(w, a) && worlds[j] == Do(w, a);
      StepKeepsImage(w, a, t);
    }
  }
}
