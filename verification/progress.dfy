/** Whatever the transport answers, the dispatchers can always bring every row to its end:
    nothing gets stuck between a claim and its verdict. */
module OutboxProgress {
  import opened Outbox

  /** The sends the transport takes, by row and attempt number. */
  type Answers = set<(nat, nat)>

  /** A run without accidents in which every send gets the transport's answer. */
  ghost predicate Orderly(o: Options, w: World, steps: seq<Action>, answers: Answers)
    decreases |steps|
  {
    steps == [] ||
    (Enabled(o, w, steps[0]) && AnswersMatch(w, steps[0], answers) && Orderly(o, Do(o, w, steps[0]), steps[1..], answers))
  }

  ghost predicate AnswersMatch(w: World, a: Action, answers: Answers)
  {
    match a
    case Crash(_) => false
    case Record(_, ok) => ok
    case Send(d, ok) =>
      d < |w.workers| && w.workers[d].todo != [] && w.workers[d].todo[0] < |w.rows|
      && ok == ((w.workers[d].todo[0], |w.rows[w.workers[d].todo[0]].claims|) in answers)
    case _ => true
  }

  lemma {:induction false} Join(o: Options, w: World, first: seq<Action>, v: World, second: seq<Action>, u: World, answers: Answers)
    requires LeadsTo(o, w, first, v) && Orderly(o, w, first, answers)
    requires LeadsTo(o, v, second, u) && Orderly(o, v, second, answers)
    ensures LeadsTo(o, w, first + second, u) && Orderly(o, w, first + second, answers)
    decreases |first|
  {
    if first == [] {
      assert first + second == second;
    } else {
      assert (first + second)[1..] == first[1..] + second;
      Join(o, Do(o, w, first[0]), first[1..], v, second, u, answers);
    }
  }

  lemma {:induction false} OrderlyLosesNothing(o: Options, w: World, steps: seq<Action>, u: World, answers: Answers)
    requires LeadsTo(o, w, steps, u) && Orderly(o, w, steps, answers)
    ensures |w.rows| <= |u.rows| && forall i: nat :: i < |w.rows| ==> u.rows[i].lost == w.rows[i].lost
    decreases |steps|
  {
    if steps != [] {
      OrderlyLosesNothing(o, Do(o, w, steps[0]), steps[1..], u, answers);
    }
  }

  // ------------------------------------------------------------------- measure

  /** The steps row r may still need. */
  function Left(o: Options, r: Row): int
  {
    var again := 4 * (o.maxAttempts - |r.claims|);
    match r.status
    case Pending => again
    case Failed => again + 1
    case Sent => if r.delivered > 0 || r.lost then 0 else if r.failures == |r.claims| then again + 2 else again + 3
  }

  function Work(o: Options, rows: seq<Row>): int
  {
    if rows == [] then 0 else Work(o, rows[..|rows| - 1]) + Left(o, rows[|rows| - 1])
  }

  ghost predicate WithinCeiling(o: Options, rows: seq<Row>)
  {
    forall i :: 0 <= i < |rows| ==> |rows[i].claims| <= o.maxAttempts
  }

  lemma {:induction false} WorkNonneg(o: Options, rows: seq<Row>)
    requires WithinCeiling(o, rows)
    ensures Work(o, rows) >= 0
  {
    if rows != [] {
      WorkNonneg(o, rows[..|rows| - 1]);
    }
  }

  lemma {:induction false} WorkFalls(o: Options, before: seq<Row>, after: seq<Row>, x: nat)
    requires |before| == |after| && forall i :: 0 <= i < |before| ==> Left(o, after[i]) <= Left(o, before[i])
    ensures Work(o, after) <= Work(o, before)
    ensures x < |before| && Left(o, after[x]) < Left(o, before[x]) ==> Work(o, after) < Work(o, before)
  {
    if before != [] {
      WorkFalls(o, before[..|before| - 1], after[..|before| - 1], x);
    }
  }

  // ------------------------------------------------------------- the next move

  ghost predicate AllSettled(o: Options, w: World)
  {
    forall i: nat :: i < |w.rows| ==> Settled(o, w, i)
  }

  ghost predicate Idle(w: World)
  {
    forall d: nat :: d < |w.workers| ==> w.workers[d] == IDLE
  }

  lemma SendMoves(o: Options, w: World, d: nat, answers: Answers) returns (a: Action)
    requires Usable(o) && Inv(o, w) && d < |w.workers| && w.workers[d].todo != []
    ensures Enabled(o, w, a) && AnswersMatch(w, a, answers)
    ensures Work(o, Do(o, w, a).rows) < Work(o, w.rows)
    ensures |Do(o, w, a).workers| == |w.workers| && |Do(o, w, a).rows| == |w.rows|
  {
    var m := w.workers[d].todo[0];
    assert WorkerOk(w, d);
    assert m in w.workers[d].todo && InTodo(w, d, m);
    assert RowOk(o, w, m);
    a := Send(d, (m, |w.rows[m].claims|) in answers);
    WorkFalls(o, w.rows, Do(o, w, a).rows, m);
  }

  lemma RecordMoves(o: Options, w: World, d: nat, answers: Answers) returns (a: Action)
    requires Usable(o) && Inv(o, w) && d < |w.workers| && w.workers[d].todo == [] && w.workers[d].failed != []
    ensures Enabled(o, w, a) && AnswersMatch(w, a, answers)
    ensures Work(o, Do(o, w, a).rows) < Work(o, w.rows)
    ensures |Do(o, w, a).workers| == |w.workers| && |Do(o, w, a).rows| == |w.rows|
  {
    a := Record(d, true);
    var after := SetStatus(w.rows, w.workers[d].failed, Failed);
    assert WorkerOk(w, d);
    forall i | 0 <= i < |w.rows| ensures Left(o, after[i]) <= Left(o, w.rows[i]) {
      RecordedLeft(o, w, d, i);
    }
    assert w.workers[d].failed[0] in w.workers[d].failed;
    RecordedLeft(o, w, d, w.workers[d].failed[0]);
    WorkFalls(o, w.rows, after, w.workers[d].failed[0]);
  }

  lemma RecordedLeft(o: Options, w: World, d: nat, i: nat)
    requires Inv(o, w) && d < |w.workers| && i < |w.rows|
    ensures var after := SetStatus(w.rows, w.workers[d].failed, Failed);
            if i in w.workers[d].failed then Left(o, after[i]) < Left(o, w.rows[i]) else after[i] == w.rows[i]
  {
    if i in w.workers[d].failed {
      assert InFailed(w, d, i);
      assert RowOk(o, w, i);
    }
  }

  lemma ClaimMoves(o: Options, w: World, i: nat, answers: Answers) returns (a: Action)
    requires Usable(o) && Idle(w) && |w.workers| > 0 && i < |w.rows| && w.rows[i].status.Pending?
    ensures Enabled(o, w, a) && AnswersMatch(w, a, answers)
    ensures |w.rows[i].claims| == w.rows[i].failures && w.rows[i].delivered == 0 && !w.rows[i].lost ==>
              Work(o, Do(o, w, a).rows) < Work(o, w.rows)
    ensures |Do(o, w, a).workers| == |w.workers| && |Do(o, w, a).rows| == |w.rows|
  {
    a := Claim(0, [i]);
    assert w.workers[0] == IDLE;
    if |w.rows[i].claims| == w.rows[i].failures && w.rows[i].delivered == 0 && !w.rows[i].lost {
      WorkFalls(o, w.rows, Do(o, w, a).rows, i);
    }
  }

  /** A failed row under the ceiling: let its backoff pass, then requeue it. */
  lemma RequeueMoves(o: Options, w: World, i: nat, answers: Answers) returns (steps: seq<Action>, u: World)
    requires Usable(o) && i < |w.rows| && w.rows[i].status.Failed? && 0 < |w.rows[i].claims| < o.maxAttempts
    ensures LeadsTo(o, w, steps, u) && Orderly(o, w, steps, answers)
    ensures Work(o, u.rows) < Work(o, w.rows) && |u.workers| == |w.workers| && |u.rows| == |w.rows|
  {
    var r := w.rows[i];
    var due := r.claims[|r.claims| - 1] + Delay(o, |r.claims|);
    var tick := Tick(if w.clock < due then due else w.clock);
    var v := Do(o, w, tick);
    u := Do(o, v, Requeue([i]));
    steps := [tick, Requeue([i])];
    assert steps[1..] == [Requeue([i])] && steps[1..][1..] == [];
    WorkFalls(o, w.rows, u.rows, i);
  }

  /** Unless every row has settled, some dispatcher has something to do, and doing it brings
      the end nearer. */
  lemma SomethingMoves(o: Options, w: World, answers: Answers) returns (steps: seq<Action>, u: World)
    requires Usable(o) && Inv(o, w) && |w.workers| > 0 && !AllSettled(o, w)
    ensures LeadsTo(o, w, steps, u) && Orderly(o, w, steps, answers)
    ensures Work(o, u.rows) < Work(o, w.rows) && |u.workers| > 0 && |u.rows| == |w.rows|
  {
    var a;
    if d: nat :| d < |w.workers| && w.workers[d].todo != [] {
      a := SendMoves(o, w, d, answers);
    } else if d: nat :| d < |w.workers| && w.workers[d].failed != [] {
      a := RecordMoves(o, w, d, answers);
    } else {
      assert Idle(w);
      var i: nat :| i < |w.rows| && !Settled(o, w, i);
      assert RowOk(o, w, i) && forall d :: !Holds(w, d, i);
      if w.rows[i].status.Failed? {
        steps, u := RequeueMoves(o, w, i, answers);
        return;
      }
      a := ClaimMoves(o, w, i, answers);
    }
    steps, u := [a], Do(o, w, a);
    assert steps[1..] == [];
  }

  /** From every state the dispatchers can reach, and for every transport, there is a run
      without accidents after which each row is delivered, is a dead letter refused exactly
      maxAttempts times, or had been lost before. */
  lemma {:induction false} EveryRowCanSettle(o: Options, w: World, answers: Answers) returns (steps: seq<Action>, u: World)
    requires Usable(o) && Inv(o, w) && |w.workers| > 0
    ensures LeadsTo(o, w, steps, u) && Orderly(o, w, steps, answers) && |u.rows| == |w.rows|
    ensures forall i: nat :: i < |u.rows| ==>
              Settled(o, u, i)
              && (Delivered(u.rows[i]) || Lost(u.rows[i]) || (u.rows[i].status.Failed? && u.rows[i].failures == o.maxAttempts))
              && u.rows[i].lost == w.rows[i].lost
    decreases Work(o, w.rows)
  {
    CeilingHolds(o, w);
    WorkNonneg(o, w.rows);
    if AllSettled(o, w) {
      steps, u := [], w;
      forall i: nat | i < |u.rows|
        ensures Delivered(u.rows[i]) || Lost(u.rows[i]) || (u.rows[i].status.Failed? && u.rows[i].failures == o.maxAttempts)
      {
        assert Settled(o, w, i) && RowOk(o, w, i);
      }
    } else {
      var first, v := SomethingMoves(o, w, answers);
      RunKeeps(o, w, first, v);
      CeilingHolds(o, v);
      WorkNonneg(o, v.rows);
      var rest;
      rest, u := EveryRowCanSettle(o, v, answers);
      Join(o, w, first, v, rest, u, answers);
      steps := first + rest;
      OrderlyLosesNothing(o, w, steps, u, answers);
    }
  }

  lemma CeilingHolds(o: Options, w: World)
    requires Inv(o, w)
    ensures WithinCeiling(o, w.rows)
  {
    forall i | 0 <= i < |w.rows| ensures |w.rows[i].claims| <= o.maxAttempts {
      assert RowOk(o, w, i);
    }
  }
}
