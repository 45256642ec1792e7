/** The two models of a promotion meet: run without interruption, the statements of
    SkipLocked do to what their transaction sees what Transitions.Promote does in one step. */
module PromotionSteps {
  import opened Model
  import opened Statements
  import T = Transitions
  import opened SkipLocked

  /** A live row of transaction t's view: committed and not given up, or its own. */
  ghost predicate Sees(w: World, x: Tx, row: Row)
  {
    || (exists r :: 0 <= r < |w.rows| && w.rows[r].live && r !in x.freed && w.rows[r] == row)
    || (exists k :: 0 <= k < |x.writes.rows| && x.writes.rows[k] == row)
  }

  function RowOf(b: Booking): Row
  {
    Row(b.facility, b.start, b.end, true)
  }

  ghost predicate HasHolding(t: Tables, row: Row)
  {
    exists i :: 0 <= i < |t.bookings| && Holding(t.bookings[i]) && RowOf(t.bookings[i]) == row
  }

  /** The tables hold what the transaction sees: the same queue, the same holding rows. */
  ghost predicate Agree(w: World, x: Tx, t: Tables)
  {
    && |t.waitlist| == |w.entries|
    && (forall v :: 0 <= v < |w.entries| ==> t.waitlist[v].(booking := None) == View(w.entries, x)[v].(booking := None))
    && (forall row: Row :: Sees(w, x, row) == HasHolding(t, row))
  }

  /** What the steps of one completed offer of row r to entry v leave of transaction x. */
  function AfterOffer(w: World, x: Tx, r: nat, v: nat): Tx
    requires r < |w.rows|
  {
    x.(writes := Writes(x.writes.promoted + [v], x.writes.rows + [HoldOf(w, r)], x.writes.events + [v],
                        x.writes.outbox + [v], x.writes.offered + {r}),
       locks := x.locks + {v})
  }

  ghost predicate Played(w: World, steps: seq<Action>, u: World)
    decreases |steps|
  {
    if steps == [] then u == w else Enabled(w, steps[0]) && Played(Do(w, steps[0]), steps[1..], u)
  }

  /** Claiming reads only what the two views share. */
  lemma {:induction false} SameHead(a: seq<Entry>, b: seq<Entry>, f: FacilityId, start: Instant, end: Instant, locked: set<nat>)
    requires |a| == |b| && forall v :: 0 <= v < |a| ==> a[v].(booking := None) == b[v].(booking := None)
    ensures ClaimHead(a, f, start, end, locked) == ClaimHead(b, f, start, end, locked)
  {
    if a != [] {
      var n := |a| - 1;
      SameHead(a[..n], b[..n], f, start, end, locked);
      assert a[n].(booking := None) == b[n].(booking := None);
      var best := ClaimHead(a[..n], f, start, end, locked);
      if best.Some? {
        assert a[best.value].(booking := None) == b[best.value].(booking := None);
      }
    }
  }

  lemma SameConflict(w: World, x: Tx, t: Tables, row: Row)
    requires Agree(w, x, t) && (forall k :: 0 <= k < |x.writes.rows| ==> x.writes.rows[k].live)
    ensures Blocked23P01(w, x, row) <==> Conflicts(t.bookings, row.facility, row.start, row.end)
  {
    if r :| 0 <= r < |w.rows| && w.rows[r].live && r !in x.freed && !Clear(w.rows[r], row) {
      assert Sees(w, x, w.rows[r]);
      assert HasHolding(t, w.rows[r]);
    } else if k :| 0 <= k < |x.writes.rows| && !Clear(x.writes.rows[k], row) {
      assert Sees(w, x, x.writes.rows[k]);
      assert HasHolding(t, x.writes.rows[k]);
    } else if Conflicts(t.bookings, row.facility, row.start, row.end) {
      var i :| 0 <= i < |t.bookings| && t.bookings[i].facility == row.facility && Holding(t.bookings[i])
               && Overlaps(t.bookings[i].start, t.bookings[i].end, row.start, row.end);
      assert HasHolding(t, RowOf(t.bookings[i]));
      assert Sees(w, x, RowOf(t.bookings[i]));
    }
  }

  // ------------------------------------------------------------- the seven steps

  function Opened(x: Tx, r: nat): Tx
  {
    x.(phase := Inside(r, 0, None, MarksOf(x), x.writes))
  }

  function Claiming(x: Tx, r: nat, v: nat): Tx
  {
    x.(locks := x.locks + {v}, phase := Inside(r, 1, Some(v), MarksOf(x), x.writes))
  }

  /** After the first `done` of hold, mark, log and announce. */
  function Midway(w: World, x: Tx, r: nat, v: nat, done: nat): Tx
    requires r < |w.rows| && 1 <= done <= 4
  {
    Tx(x.open,
       Writes(if done >= 2 then x.writes.promoted + [v] else x.writes.promoted,
              x.writes.rows + [HoldOf(w, r)],
              if done >= 3 then x.writes.events + [v] else x.writes.events,
              if done >= 4 then x.writes.outbox + [v] else x.writes.outbox,
              x.writes.offered + {r}),
       x.locks + {v}, x.freed, Inside(r, done + 1, Some(v), MarksOf(x), x.writes))
  }

  lemma ClaimStep(w: World, t: nat, r: nat, v: nat)
    requires IsOpen(w, t) && w.txs[t].phase.Outside? && r < |w.rows|
    requires ClaimHead(View(w.entries, w.txs[t]), w.rows[r].facility, w.rows[r].start, w.rows[r].end, LockedByOthers(w, t)) == Some(v)
    ensures var w1 := Put(w, t, Opened(w.txs[t], r));
            Enabled(w1, ClaimEntry(t)) && Do(w1, ClaimEntry(t)) == Put(w, t, Claiming(w.txs[t], r, v))
  {
    var w1 := Put(w, t, Opened(w.txs[t], r));
    OthersAlike(w, w1, t);
    assert View(w1.entries, w1.txs[t]) == View(w.entries, w.txs[t]);
    assert Claimable(w1, t) == Some(v);
    assert Do(w1, ClaimEntry(t)).txs == Put(w, t, Claiming(w.txs[t], r, v)).txs;
  }

  lemma HoldStep(w: World, t: nat, r: nat, v: nat)
    requires IsOpen(w, t) && w.txs[t].phase.Outside? && r < |w.rows|
    requires !MustWait(w, t, HoldOf(w, r)) && !Blocked23P01(w, w.txs[t], HoldOf(w, r))
    ensures var w2 := Put(w, t, Claiming(w.txs[t], r, v));
            Enabled(w2, Hold(t)) && Do(w2, Hold(t)) == Put(w, t, Midway(w, w.txs[t], r, v, 1))
  {
    var w2 := Put(w, t, Claiming(w.txs[t], r, v));
    SameObstacles(w, w2, t, HoldOf(w, r));
    assert HoldOf(w2, r) == HoldOf(w, r);
    assert Do(w2, Hold(t)).txs == Put(w, t, Midway(w, w.txs[t], r, v, 1)).txs;
  }

  lemma MarkStep(w: World, t: nat, r: nat, v: nat)
    requires IsOpen(w, t) && w.txs[t].phase.Outside? && r < |w.rows|
    ensures var w3 := Put(w, t, Midway(w, w.txs[t], r, v, 1));
            Enabled(w3, Mark(t)) && Do(w3, Mark(t)) == Put(w, t, Midway(w, w.txs[t], r, v, 2))
  {
    assert Do(Put(w, t, Midway(w, w.txs[t], r, v, 1)), Mark(t)).txs == Put(w, t, Midway(w, w.txs[t], r, v, 2)).txs;
  }

  lemma LogStep(w: World, t: nat, r: nat, v: nat)
    requires IsOpen(w, t) && w.txs[t].phase.Outside? && r < |w.rows|
    ensures var w4 := Put(w, t, Midway(w, w.txs[t], r, v, 2));
            Enabled(w4, Log(t)) && Do(w4, Log(t)) == Put(w, t, Midway(w, w.txs[t], r, v, 3))
  {
    assert Do(Put(w, t, Midway(w, w.txs[t], r, v, 2)), Log(t)).txs == Put(w, t, Midway(w, w.txs[t], r, v, 3)).txs;
  }

  lemma AnnounceStep(w: World, t: nat, r: nat, v: nat)
    requires IsOpen(w, t) && w.txs[t].phase.Outside? && r < |w.rows|
    ensures var w5 := Put(w, t, Midway(w, w.txs[t], r, v, 3));
            Enabled(w5, Announce(t)) && Do(w5, Announce(t)) == Put(w, t, Midway(w, w.txs[t], r, v, 4))
  {
    assert Do(Put(w, t, Midway(w, w.txs[t], r, v, 3)), Announce(t)).txs == Put(w, t, Midway(w, w.txs[t], r, v, 4)).txs;
  }

  lemma ReleaseStep(w: World, t: nat, r: nat, v: nat)
    requires IsOpen(w, t) && w.txs[t].phase.Outside? && r < |w.rows|
    ensures var w6 := Put(w, t, Midway(w, w.txs[t], r, v, 4));
            Enabled(w6, ReleaseSavepoint(t)) && Do(w6, ReleaseSavepoint(t)) == Put(w, t, AfterOffer(w, w.txs[t], r, v))
  {
    assert Do(Put(w, t, Midway(w, w.txs[t], r, v, 4)), ReleaseSavepoint(t)).txs == Put(w, t, AfterOffer(w, w.txs[t], r, v)).txs;
  }

  /** The seven steps of an offer. */
  lemma OfferRuns(w: World, t: nat, r: nat, v: nat) returns (u: World)
    requires IsOpen(w, t) && w.txs[t].phase.Outside? && r in w.txs[t].freed && r < |w.rows|
    requires ClaimHead(View(w.entries, w.txs[t]), w.rows[r].facility, w.rows[r].start, w.rows[r].end, LockedByOthers(w, t)) == Some(v)
    requires !MustWait(w, t, HoldOf(w, r)) && !Blocked23P01(w, w.txs[t], HoldOf(w, r))
    ensures Played(w, [Savepoint(t, r), ClaimEntry(t), Hold(t), Mark(t), Log(t), Announce(t), ReleaseSavepoint(t)], u)
    ensures u == Put(w, t, AfterOffer(w, w.txs[t], r, v))
  {
    u := Put(w, t, AfterOffer(w, w.txs[t], r, v));
    var notes := [Mark(t), Log(t), Announce(t), ReleaseSavepoint(t)];
    NotesPlayed(w, t, r, v);
    HoldStep(w, t, r, v);
    Prefixed(Put(w, t, Claiming(w.txs[t], r, v)), Hold(t), Put(w, t, Midway(w, w.txs[t], r, v, 1)), notes, u);
    ClaimStep(w, t, r, v);
    Prefixed(Put(w, t, Opened(w.txs[t], r)), ClaimEntry(t), Put(w, t, Claiming(w.txs[t], r, v)), [Hold(t)] + notes, u);
    Prefixed(w, Savepoint(t, r), Put(w, t, Opened(w.txs[t], r)), [ClaimEntry(t)] + ([Hold(t)] + notes), u);
    assert [Savepoint(t, r)] + ([ClaimEntry(t)] + ([Hold(t)] + notes))
        == [Savepoint(t, r), ClaimEntry(t), Hold(t), Mark(t), Log(t), Announce(t), ReleaseSavepoint(t)];
  }

  lemma NotesPlayed(w: World, t: nat, r: nat, v: nat)
    requires IsOpen(w, t) && w.txs[t].phase.Outside? && r < |w.rows|
    ensures Played(Put(w, t, Midway(w, w.txs[t], r, v, 1)), [Mark(t), Log(t), Announce(t), ReleaseSavepoint(t)],
                   Put(w, t, AfterOffer(w, w.txs[t], r, v)))
  {
    var u := Put(w, t, AfterOffer(w, w.txs[t], r, v));
    MarkStep(w, t, r, v);
    LogStep(w, t, r, v);
    AnnounceStep(w, t, r, v);
    ReleaseStep(w, t, r, v);
    assert Played(u, [], u);
    Prefixed(Put(w, t, Midway(w, w.txs[t], r, v, 4)), ReleaseSavepoint(t), u, [], u);
    Prefixed(Put(w, t, Midway(w, w.txs[t], r, v, 3)), Announce(t), Put(w, t, Midway(w, w.txs[t], r, v, 4)), [ReleaseSavepoint(t)], u);
    Prefixed(Put(w, t, Midway(w, w.txs[t], r, v, 2)), Log(t), Put(w, t, Midway(w, w.txs[t], r, v, 3)), [Announce(t), ReleaseSavepoint(t)], u);
    Prefixed(Put(w, t, Midway(w, w.txs[t], r, v, 1)), Mark(t), Put(w, t, Midway(w, w.txs[t], r, v, 2)),
             [Log(t), Announce(t), ReleaseSavepoint(t)], u);
    assert [ReleaseSavepoint(t)] + [] == [ReleaseSavepoint(t)];
    assert [Announce(t)] + [ReleaseSavepoint(t)] == [Announce(t), ReleaseSavepoint(t)];
    assert [Log(t)] + [Announce(t), ReleaseSavepoint(t)] == [Log(t), Announce(t), ReleaseSavepoint(t)];
    assert [Mark(t)] + [Log(t), Announce(t), ReleaseSavepoint(t)] == [Mark(t), Log(t), Announce(t), ReleaseSavepoint(t)];
  }

  lemma Prefixed(w: World, a: Action, v: World, rest: seq<Action>, u: World)
    requires Enabled(w, a) && Do(w, a) == v && Played(v, rest, u)
    ensures Played(w, [a] + rest, u)
  {
    assert ([a] + rest)[1..] == rest;
  }

  lemma PlayedStep(w: World, steps: seq<Action>, u: World)
    requires steps != [] && Enabled(w, steps[0]) && Played(Do(w, steps[0]), steps[1..], u)
    ensures Played(w, steps, u)
  {
  }

  /** Only transaction t has moved. */
  lemma OthersAlike(w: World, u: World, t: nat)
    requires t < |w.txs| && |u.txs| == |w.txs| && u == Put(w, t, u.txs[t])
    ensures LockedByOthers(u, t) == LockedByOthers(w, t)
  {
    assert forall i :: 0 <= i < |w.txs| && i != t ==> u.txs[i] == w.txs[i];
    forall l ensures l in LockedByOthers(u, t) <==> l in LockedByOthers(w, t) {
    }
  }

  lemma SameObstacles(w: World, u: World, t: nat, row: Row)
    requires t < |w.txs| && |u.txs| == |w.txs| && u == Put(w, t, u.txs[t])
    requires u.txs[t].writes == w.txs[t].writes && u.txs[t].freed == w.txs[t].freed
    ensures MustWait(u, t, row) <==> MustWait(w, t, row)
    ensures Blocked23P01(u, u.txs[t], row) <==> Blocked23P01(w, w.txs[t], row)
  {
    assert forall i :: 0 <= i < |w.txs| && i != t ==> u.txs[i] == w.txs[i];
  }

  // ---------------------------------------------------------- the two models meet

  lemma OfferAgrees(c: Campus, w: World, t: nat, r: nat, v: nat, tables: Tables, now: Instant)
    requires IsOpen(w, t) && r < |w.rows| && v < |w.entries| && w.txs[t].phase.Outside?
    requires Agree(w, w.txs[t], tables) && v !in w.txs[t].writes.promoted
    ensures Agree(Put(w, t, AfterOffer(w, w.txs[t], r, v)), AfterOffer(w, w.txs[t], r, v),
                  T.Offered(c, tables, v, w.rows[r].facility, w.rows[r].start, w.rows[r].end, now))
  {
    var x, x' := w.txs[t], AfterOffer(w, w.txs[t], r, v);
    var u := Put(w, t, x');
    var row := w.rows[r];
    var more := T.Offered(c, tables, v, row.facility, row.start, row.end, now);
    forall e | 0 <= e < |w.entries| ensures more.waitlist[e].(booking := None) == View(u.entries, x')[e].(booking := None) {
      assert tables.waitlist[e].(booking := None) == View(w.entries, x)[e].(booking := None);
      assert e in x'.writes.promoted <==> e in x.writes.promoted || e == v;
    }
    forall s: Row ensures Sees(u, x', s) == HasHolding(more, s) {
      OneMoreRow(w, u, x, x', HoldOf(w, r), s);
      OneMoreBooking(tables, more, s);
      assert Sees(w, x, s) == HasHolding(tables, s);
      assert RowOf(more.bookings[|tables.bookings|]) == HoldOf(w, r);
    }
  }

  lemma OneMoreRow(w: World, u: World, x: Tx, y: Tx, row: Row, s: Row)
    requires u.rows == w.rows && y.freed == x.freed && y.writes.rows == x.writes.rows + [row]
    ensures Sees(u, y, s) <==> Sees(w, x, s) || s == row
  {
    assert y.writes.rows[|x.writes.rows|] == row;
    assert forall k :: 0 <= k < |x.writes.rows| ==> y.writes.rows[k] == x.writes.rows[k];
  }

  lemma OneMoreBooking(t: Tables, u: Tables, s: Row)
    requires |u.bookings| == |t.bookings| + 1 && t.bookings <= u.bookings && Holding(u.bookings[|t.bookings|])
    ensures HasHolding(u, s) <==> HasHolding(t, s) || s == RowOf(u.bookings[|t.bookings|])
  {
    assert forall i :: 0 <= i < |t.bookings| ==> u.bookings[i] == t.bookings[i];
    if HasHolding(t, s) {
      var i :| 0 <= i < |t.bookings| && Holding(t.bookings[i]) && RowOf(t.bookings[i]) == s;
      assert u.bookings[i] == t.bookings[i];
    }
  }

  /** A transaction that has freed row r and need not wait promotes on it: if Promote makes an
      offer in what the transaction sees, the seven steps run and end in what Promote leaves;
      if it makes none, the promotion can fail, and leaves what it found. */
  lemma PromotionIsAtomic(c: Campus, w: World, t: nat, r: nat, tables: Tables, locked: Locked, now: Instant)
    returns (steps: seq<Action>, u: World)
    requires SkipLocked.Inv(w) && IsOpen(w, t) && w.txs[t].phase.Outside? && r in w.txs[t].freed
    requires Agree(w, w.txs[t], tables) && locked.entries == LockedByOthers(w, t)
    requires r < |w.rows| && !MustWait(w, t, HoldOf(w, r))
    ensures Played(w, steps, u) && IsOpen(u, t) && u.txs[t].phase.Outside?
    ensures var row := w.rows[r];
            var after := T.Promote(c, tables, row.facility, row.start, row.end, now, locked);
            && Agree(u, u.txs[t], after)
            && |u.txs[t].writes.events| - |w.txs[t].writes.events| == |after.events| - |tables.events|
            && |u.txs[t].writes.outbox| - |w.txs[t].writes.outbox| == |after.outbox| - |tables.outbox|
            && (after == tables ==> u.txs[t].writes == w.txs[t].writes && u.txs[t].locks == w.txs[t].locks)
  {
    var x, row := w.txs[t], w.rows[r];
    assert TxOk(w, x) && InsertsClear(w, x);
    SameHead(tables.waitlist, View(w.entries, x), row.facility, row.start, row.end, locked.entries);
    SameConflict(w, x, tables, HoldOf(w, r));
    var head := ClaimHead(tables.waitlist, row.facility, row.start, row.end, locked.entries);
    if head.Some? && !Blocked23P01(w, x, HoldOf(w, r)) {
      ClaimHeadIsHead(View(w.entries, x), row.facility, row.start, row.end, locked.entries);
      steps := [Savepoint(t, r), ClaimEntry(t), Hold(t), Mark(t), Log(t), Announce(t), ReleaseSavepoint(t)];
      u := OfferRuns(w, t, r, head.value);
      OfferAgrees(c, w, t, r, head.value, tables, now);
    } else {
      steps, u := GiveUp(w, t, r);
    }
  }

  /** Savepoint, then rollback to it. */
  lemma GiveUp(w: World, t: nat, r: nat) returns (steps: seq<Action>, u: World)
    requires IsOpen(w, t) && w.txs[t].phase.Outside? && r in w.txs[t].freed
    ensures Played(w, steps, u) && u == w
  {
    steps := [Savepoint(t, r), Fail(t)];
    var w1 := Put(w, t, Opened(w.txs[t], r));
    u := Do(w1, Fail(t));
    assert RolledBack(w1.txs[t]) == w.txs[t];
    assert u.txs == w.txs;
    assert Played(u, [], u);
    assert steps[1..] == [Fail(t)] && steps[1..][1..] == [];
    PlayedStep(w1, steps[1..], u);
    PlayedStep(w, steps, u);
  }
}
