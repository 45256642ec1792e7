/** One dispatcher's synchronous pass over the outbox table: the requeue, then up to
    MAX_ROUNDS batches, each claimed, sent and recorded. */
module Drain {
  import opened Outbox

  /** Sends by row and attempt number. */
  type Sends = set<(nat, nat)>

  /** What the world answers during a pass: when it runs, the sends the transport takes, the
      rounds whose failures can be recorded, and the statements that fail (0 is the requeue,
      k + 1 the claim of round k). */
  datatype Env = Env(now: Instant, takes: Sends, recorded: set<nat>, fails: set<nat>)

  datatype Ending = Settled | Backlog | Faulted

  predicate Waits(r: Row)
  {
    r.status.Pending?
  }

  predicate Within(ids: seq<nat>, n: nat)
  {
    forall j :: 0 <= j < |ids| ==> ids[j] < n
  }

  function Waiting(rows: seq<Row>): set<nat>
  {
    set i: nat | i < |rows| && Waits(rows[i])
  }

  function AllDue(o: Options, rows: seq<Row>, now: Instant): set<nat>
  {
    set i: nat | i < |rows| && Due(o, rows[i], now)
  }

  /** The first `limit` members of ids in from..n: ORDER BY created_at, id LIMIT. */
  function Pick(ids: set<nat>, n: nat, from: nat, limit: nat): (picked: seq<nat>)
    ensures |picked| <= limit && Within(picked, n)
    decreases n - from
  {
    if limit == 0 || from >= n then []
    else if from in ids then [from] + Pick(ids, n, from + 1, limit - 1)
    else Pick(ids, n, from + 1, limit)
  }

  function Batch(o: Options, rows: seq<Row>): (picked: seq<nat>)
    requires Usable(o)
    ensures |picked| <= o.batch && Within(picked, |rows|)
  {
    Pick(Waiting(rows), |rows|, 0, o.batch)
  }

  /** Members of ids only, in order, and all of them unless the limit is reached. */
  lemma {:induction false} PickExact(ids: set<nat>, n: nat, from: nat, limit: nat)
    ensures var picked := Pick(ids, n, from, limit);
            && (forall j :: 0 <= j < |picked| ==> from <= picked[j] && picked[j] in ids)
            && (forall j, k :: 0 <= j < k < |picked| ==> picked[j] < picked[k])
            && (|picked| < limit ==> forall i :: from <= i < n && i in ids ==> i in picked)
    decreases n - from
  {
    if limit > 0 && from < n {
      var rest := Pick(ids, n, from + 1, if from in ids then limit - 1 else limit);
      PickExact(ids, n, from + 1, if from in ids then limit - 1 else limit);
      assert from in ids ==> Pick(ids, n, from, limit) == [from] + rest;
    }
  }

  /** Whatever was passed over comes after everything picked. */
  lemma {:induction false} PickedFirst(ids: set<nat>, n: nat, from: nat, limit: nat, i: nat, j: nat)
    requires from <= i < n && i in ids && i !in Pick(ids, n, from, limit) && j in Pick(ids, n, from, limit)
    ensures j < i
    decreases n - from
  {
    if from in ids {
      var rest := Pick(ids, n, from + 1, limit - 1);
      assert Pick(ids, n, from, limit) == [from] + rest;
      if j != from {
        PickedFirst(ids, n, from + 1, limit - 1, i, j);
      }
    } else {
      PickedFirst(ids, n, from + 1, limit, i, j);
    }
  }

  /** The members of ids in from..n that come before i. */
  function Before(ids: set<nat>, from: nat, i: nat): set<nat>
  {
    set j | j in ids && from <= j < i
  }

  lemma BeforeSplit(ids: set<nat>, from: nat, i: nat)
    requires from <= i
    ensures i == from ==> |Before(ids, from, i)| == 0
    ensures i > from ==> |Before(ids, from, i)| == |Before(ids, from + 1, i)| + if from in ids then 1 else 0
  {
    if i == from {
      assert Before(ids, from, i) == {};
    } else if from in ids {
      assert Before(ids, from, i) == Before(ids, from + 1, i) + {from};
    } else {
      assert Before(ids, from, i) == Before(ids, from + 1, i);
    }
  }

  /** A row is picked exactly when fewer than `limit` others of the set come before it. */
  lemma {:induction false} PickedIff(ids: set<nat>, n: nat, from: nat, limit: nat, i: nat)
    requires from <= i < n && i in ids
    ensures i in Pick(ids, n, from, limit) <==> |Before(ids, from, i)| < limit
    decreases n - from
  {
    if limit > 0 {
      if from in ids {
        var rest := Pick(ids, n, from + 1, limit - 1);
        assert Pick(ids, n, from, limit) == [from] + rest;
        BeforeSplit(ids, from, i);
        if i > from {
          PickedIff(ids, n, from + 1, limit - 1, i);
        }
      } else {
        BeforeSplit(ids, from, i);
        PickedIff(ids, n, from + 1, limit, i);
      }
    }
  }

  function SendAll(rows: seq<Row>, failed: seq<nat>, todo: seq<nat>, takes: Sends): (r: (seq<Row>, seq<nat>))
    requires Within(todo, |rows|)
    ensures |r.0| == |rows|
    decreases |todo|
  {
    if todo == [] then (rows, failed)
    else
      var m := todo[0];
      var ok := (m, |rows[m].claims|) in takes;
      SendAll(rows[m := Verdict(rows[m], ok)], if ok then failed else failed + [m], todo[1..], takes)
  }

  function Recorded(rows: seq<Row>, failed: seq<nat>, recorded: bool): (r: seq<Row>)
    ensures |r| == |rows|
  {
    if failed == [] then rows else if recorded then SetStatus(rows, failed, Failed) else Abandon(rows, failed)
  }

  /** One round on the batch ids, as it runs: all claimed, all sent, the failures recorded. */
  function Phased(rows: seq<Row>, ids: seq<nat>, now: Instant, takes: Sends, recorded: bool): (r: seq<Row>)
    requires Within(ids, |rows|)
    ensures |r| == |rows|
  {
    var sent := SendAll(ClaimRows(rows, ids, now), [], ids, takes);
    Recorded(sent.0, sent.1, recorded)
  }

  /** What a round means for row i, whatever else is in its batch. */
  function Outcome(r: Row, ok: bool, now: Instant, recorded: bool): Row
  {
    if ok then Row(Sent, r.claims + [now], r.delivered + 1, r.failures, r.lost)
    else if recorded then Row(Failed, r.claims + [now], r.delivered, r.failures + 1, r.lost)
    else Row(Sent, r.claims + [now], r.delivered, r.failures + 1, true)
  }

  lemma {:induction false} SendAllExact(rows: seq<Row>, failed: seq<nat>, todo: seq<nat>, takes: Sends, i: nat)
    requires Distinct(todo) && Within(todo, |rows|) && i < |rows|
    ensures var r := SendAll(rows, failed, todo, takes);
            var ok := (i, |rows[i].claims|) in takes;
            && r.0[i] == (if i in todo then Verdict(rows[i], ok) else rows[i])
            && (i in r.1 <==> i in failed || (i in todo && !ok))
    decreases |todo|
  {
    if todo != [] {
      var m := todo[0];
      var ok := (m, |rows[m].claims|) in takes;
      assert m !in todo[1..];
      assert i in todo <==> i == m || i in todo[1..];
      SendAllExact(rows[m := Verdict(rows[m], ok)], if ok then failed else failed + [m], todo[1..], takes, i);
    }
  }

  lemma RecordedExact(rows: seq<Row>, failed: seq<nat>, recorded: bool, i: nat)
    requires i < |rows|
    ensures Recorded(rows, failed, recorded)[i]
            == if i !in failed then rows[i]
               else if recorded then rows[i].(status := Failed)
               else rows[i].(lost := true)
  {
  }

  /** A round changes exactly the rows of its batch, each as if it had been alone. */
  lemma PhasedExact(rows: seq<Row>, ids: seq<nat>, now: Instant, takes: Sends, recorded: bool, i: nat)
    requires Distinct(ids) && Within(ids, |rows|) && i < |rows|
    ensures Phased(rows, ids, now, takes, recorded)[i]
            == if i in ids then Outcome(rows[i], (i, |rows[i].claims| + 1) in takes, now, recorded) else rows[i]
  {
    var claimed := ClaimRows(rows, ids, now);
    SendAllExact(claimed, [], ids, takes, i);
    var sent := SendAll(claimed, [], ids, takes);
    var ok := (i, |rows[i].claims| + 1) in takes;
    if i in ids {
      assert claimed[i] == rows[i].(status := Sent, claims := rows[i].claims + [now]);
      assert sent.0[i] == Verdict(claimed[i], ok);
    }
    RecordedExact(sent.0, sent.1, recorded, i);
  }

  /** One round, one row at a time. */
  function Drained(rows: seq<Row>, ids: seq<nat>, now: Instant, takes: Sends, recorded: bool): (r: seq<Row>)
    requires Within(ids, |rows|)
    ensures |r| == |rows|
    decreases |ids|
  {
    if ids == [] then rows
    else
      var i := ids[0];
      var ok := (i, |rows[i].claims| + 1) in takes;
      Drained(rows[i := Outcome(rows[i], ok, now, recorded)], ids[1..], now, takes, recorded)
  }

  /** A round changes exactly the rows of its batch. */
  lemma {:induction false} DrainedExact(rows: seq<Row>, ids: seq<nat>, now: Instant, takes: Sends, recorded: bool, i: nat)
    requires Distinct(ids) && Within(ids, |rows|) && i < |rows|
    ensures Drained(rows, ids, now, takes, recorded)[i]
            == if i in ids then Outcome(rows[i], (i, |rows[i].claims| + 1) in takes, now, recorded) else rows[i]
    decreases |ids|
  {
    if ids != [] {
      var m := ids[0];
      var ok := (m, |rows[m].claims| + 1) in takes;
      assert m !in ids[1..];
      assert i in ids <==> i == m || i in ids[1..];
      DrainedExact(rows[m := Outcome(rows[m], ok, now, recorded)], ids[1..], now, takes, recorded, i);
    }
  }

  /** Claiming, sending and recording a whole batch comes to handling its rows one by one. */
  lemma PhasedIsOneByOne(rows: seq<Row>, ids: seq<nat>, now: Instant, takes: Sends, recorded: bool)
    requires Distinct(ids) && Within(ids, |rows|)
    ensures Phased(rows, ids, now, takes, recorded) == Drained(rows, ids, now, takes, recorded)
  {
    var phased, drained := Phased(rows, ids, now, takes, recorded), Drained(rows, ids, now, takes, recorded);
    forall i | 0 <= i < |rows| ensures phased[i] == drained[i] {
      PhasedExact(rows, ids, now, takes, recorded, i);
      DrainedExact(rows, ids, now, takes, recorded, i);
    }
  }

  lemma BatchOneByOne(o: Options, rows: seq<Row>, now: Instant, takes: Sends, recorded: bool)
    requires Usable(o)
    ensures Phased(rows, Batch(o, rows), now, takes, recorded) == Drained(rows, Batch(o, rows), now, takes, recorded)
  {
    PickExact(Waiting(rows), |rows|, 0, o.batch);
    PhasedIsOneByOne(rows, Batch(o, rows), now, takes, recorded);
  }

  // --------------------------------------------------------- a round is a run

  lemma {:induction false} SendsAreARun(o: Options, w: World, d: nat, takes: Sends, recorded: bool)
    returns (steps: seq<Action>, u: World)
    requires d < |w.workers|
    requires Within(w.workers[d].todo, |w.rows|)
    ensures LeadsTo(o, w, steps, u) && u.workers == w.workers[d := IDLE] && u.clock == w.clock
    ensures var sent := SendAll(w.rows, w.workers[d].failed, w.workers[d].todo, takes);
            u.rows == Recorded(sent.0, sent.1, recorded)
    decreases |w.workers[d].todo|
  {
    var k := w.workers[d];
    if k.todo == [] {
      if k.failed == [] {
        steps, u := [], w;
      } else {
        u := Do(o, w, Record(d, recorded));
        steps := [Record(d, recorded)];
        assert LeadsTo(o, u, steps[1..], u);
      }
    } else {
      var a := Send(d, (k.todo[0], |w.rows[k.todo[0]].claims|) in takes);
      var v := Do(o, w, a);
      var rest;
      rest, u := SendsAreARun(o, v, d, takes, recorded);
      steps := [a] + rest;
      assert steps[1..] == rest;
      assert u.workers == w.workers[d := IDLE];
    }
  }

  /** A round of a dispatcher with nobody in between is one of the interleavings, so all that
      holds of every interleaving holds after it. */
  lemma RoundIsARun(o: Options, w: World, d: nat, takes: Sends, recorded: bool)
    returns (steps: seq<Action>, u: World)
    requires Usable(o) && d < |w.workers| && w.workers[d] == IDLE
    ensures LeadsTo(o, w, steps, u) && u.workers == w.workers && u.clock == w.clock
    ensures u.rows == Drained(w.rows, Batch(o, w.rows), w.clock, takes, recorded)
  {
    var ids := Batch(o, w.rows);
    PickExact(Waiting(w.rows), |w.rows|, 0, o.batch);
    assert forall i :: i in ids ==> i < |w.rows| && w.rows[i].status.Pending?;
    var v := Do(o, w, Claim(d, ids));
    var rest;
    rest, u := SendsAreARun(o, v, d, takes, recorded);
    steps := [Claim(d, ids)] + rest;
    assert steps[1..] == rest;
    assert u.workers == w.workers;
    BatchOneByOne(o, w.rows, w.clock, takes, recorded);
  }

  // --------------------------------------------------------------- whole passes

  function Rounds(o: Options, rows: seq<Row>, env: Env, k: nat): (r: (seq<Row>, Ending))
    requires Usable(o) && k <= MAX_ROUNDS
    ensures |r.0| == |rows|
    decreases MAX_ROUNDS - k
  {
    if k == MAX_ROUNDS then (rows, Backlog)
    else if k + 1 in env.fails then (rows, Faulted)
    else
      var ids := Batch(o, rows);
      var next := Drained(rows, ids, env.now, env.takes, k in env.recorded);
      if |ids| < o.batch then (next, Settled) else Rounds(o, next, env, k + 1)
  }

  function SetOf(ids: seq<nat>): set<nat>
  {
    set i | i in ids
  }

  lemma {:induction false} AscendingSize(ids: seq<nat>)
    requires forall j, k :: 0 <= j < k < |ids| ==> ids[j] < ids[k]
    ensures |SetOf(ids)| == |ids|
  {
    if ids != [] {
      var n := |ids| - 1;
      assert SetOf(ids) == SetOf(ids[..n]) + {ids[n]};
      AscendingSize(ids[..n]);
    }
  }

  lemma Fits(small: set<nat>, big: set<nat>)
    requires small <= big
    ensures |big - small| == |big| - |small|
  {
    assert big == small + (big - small);
  }

  /** A round takes min(batch, waiting) rows off the queue, and puts none back. */
  lemma RoundShrinks(o: Options, rows: seq<Row>, now: Instant, takes: Sends, recorded: bool)
    requires Usable(o)
    ensures var ids := Batch(o, rows);
            && Waiting(Drained(rows, ids, now, takes, recorded)) == Waiting(rows) - SetOf(ids)
            && |Waiting(Drained(rows, ids, now, takes, recorded))| == |Waiting(rows)| - |ids|
            && |ids| == if |Waiting(rows)| < o.batch then |Waiting(rows)| else o.batch
  {
    var ids := Batch(o, rows);
    var next := Drained(rows, ids, now, takes, recorded);
    PickExact(Waiting(rows), |rows|, 0, o.batch);
    forall i: nat | i < |rows| ensures Waits(next[i]) == (Waits(rows[i]) && i !in ids) {
      DrainedExact(rows, ids, now, takes, recorded, i);
    }
    assert Waiting(next) == Waiting(rows) - SetOf(ids);
    assert SetOf(ids) <= Waiting(rows);
    AscendingSize(ids);
    Fits(SetOf(ids), Waiting(rows));
    if |ids| < o.batch {
      assert Waiting(rows) == SetOf(ids);
    }
  }

  function Room(o: Options, k: nat): int
    requires k <= MAX_ROUNDS
    decreases MAX_ROUNDS - k
  {
    if k == MAX_ROUNDS then 0 else o.batch + Room(o, k + 1)
  }

  lemma {:induction false} RoomIsRoundsTimesBatch(o: Options, k: nat)
    requires Usable(o) && k <= MAX_ROUNDS
    ensures Room(o, k) == (MAX_ROUNDS - k) * o.batch >= 0
    decreases MAX_ROUNDS - k
  {
    if k < MAX_ROUNDS {
      RoomIsRoundsTimesBatch(o, k + 1);
      var left := MAX_ROUNDS - (k + 1);
      assert (left + 1) * o.batch == left * o.batch + o.batch;
    }
  }

  /** Without database errors a pass settles exactly when fewer rows wait than its rounds can
      take, and leaves the surplus waiting otherwise. */
  lemma {:induction false} SettlesIff(o: Options, rows: seq<Row>, env: Env, k: nat)
    requires Usable(o) && k <= MAX_ROUNDS && forall j :: k < j <= MAX_ROUNDS ==> j !in env.fails
    ensures var r := Rounds(o, rows, env, k);
            var room := Room(o, k);
            && r.1 == (if |Waiting(rows)| < room then Settled else Backlog)
            && |Waiting(r.0)| == if |Waiting(rows)| < room then 0 else |Waiting(rows)| - room
    decreases MAX_ROUNDS - k
  {
    if k < MAX_ROUNDS {
      var next := FirstRound(o, rows, env, k);
      RoomIsRoundsTimesBatch(o, k + 1);
      if |Waiting(rows)| >= o.batch {
        SettlesIff(o, next, env, k + 1);
      }
    }
  }

  lemma FirstRound(o: Options, rows: seq<Row>, env: Env, k: nat) returns (next: seq<Row>)
    requires Usable(o) && k < MAX_ROUNDS && k + 1 !in env.fails
    ensures Rounds(o, rows, env, k) == if |Waiting(rows)| < o.batch then (next, Settled) else Rounds(o, next, env, k + 1)
    ensures |Waiting(next)| == if |Waiting(rows)| < o.batch then 0 else |Waiting(rows)| - o.batch
  {
    next := Drained(rows, Batch(o, rows), env.now, env.takes, k in env.recorded);
    RoundShrinks(o, rows, env.now, env.takes, k in env.recorded);
  }

  /** However it ends, a pass sends each row at most once, sends only rows that were waiting
      when it began, and touches nothing else. */
  lemma {:induction false} SentAtMostOnce(o: Options, rows: seq<Row>, env: Env, k: nat, i: nat) returns (j: nat)
    requires Usable(o) && k <= MAX_ROUNDS && i < |rows|
    ensures Rounds(o, rows, env, k).0[i] == rows[i] || SentInRound(rows[i], Rounds(o, rows, env, k).0[i], env, i, j)
    ensures k <= j <= MAX_ROUNDS && (!Waits(rows[i]) ==> Rounds(o, rows, env, k).0[i] == rows[i])
    decreases MAX_ROUNDS - k
  {
    j := k;
    if k < MAX_ROUNDS && k + 1 !in env.fails {
      var next := RoundOnRow(o, rows, env, k, i);
      if |Batch(o, rows)| == o.batch {
        var later := SentAtMostOnce(o, next, env, k + 1, i);
        if next[i] == rows[i] {
          j := later;
        }
      }
    }
  }

  /** Row i went out in round j of a pass. */
  predicate SentInRound(before: Row, after: Row, env: Env, i: nat, j: nat)
  {
    && Waits(before) && !Waits(after) && j < MAX_ROUNDS
    && after == Outcome(before, (i, |before.claims| + 1) in env.takes, env.now, j in env.recorded)
  }

  lemma RoundOnRow(o: Options, rows: seq<Row>, env: Env, k: nat, i: nat) returns (next: seq<Row>)
    requires Usable(o) && k < MAX_ROUNDS && k + 1 !in env.fails && i < |rows|
    ensures |next| == |rows|
    ensures Rounds(o, rows, env, k)
            == if |Batch(o, rows)| < o.batch then (next, Settled) else Rounds(o, next, env, k + 1)
    ensures next[i] == rows[i] || SentInRound(rows[i], next[i], env, i, k)
  {
    var ids := Batch(o, rows);
    next := Drained(rows, ids, env.now, env.takes, k in env.recorded);
    PickExact(Waiting(rows), |rows|, 0, o.batch);
    DrainedExact(rows, ids, env.now, env.takes, k in env.recorded, i);
  }

  function Requeued(o: Options, rows: seq<Row>, now: Instant): (r: seq<Row>)
    ensures |r| == |rows|
    requires Usable(o)
  {
    SetStatus(rows, Pick(AllDue(o, rows, now), |rows|, 0, o.batch), Pending)
  }

  /** The requeue returns exactly the first `batch` rows that are due, where a row is due once
      it failed, has attempts left and has rested since its last one; nothing else changes. */
  lemma RequeueExact(o: Options, rows: seq<Row>, now: Instant, i: nat)
    requires Usable(o) && i < |rows|
    ensures var r := rows[i];
            var due := r.status == Failed && 0 < |r.claims| < o.maxAttempts && r.claims[|r.claims| - 1] + Delay(o, |r.claims|) <= now;
            Requeued(o, rows, now)[i] == if due && |Before(AllDue(o, rows, now), 0, i)| < o.batch then r.(status := Pending) else r
  {
    var due := AllDue(o, rows, now);
    PickExact(due, |rows|, 0, o.batch);
    if i in due {
      PickedIff(due, |rows|, 0, o.batch, i);
    }
  }

  function Passed(o: Options, rows: seq<Row>, env: Env): (r: (seq<Row>, Ending))
    requires Usable(o)
    ensures |r.0| == |rows|
  {
    if 0 in env.fails then (rows, Faulted) else Rounds(o, Requeued(o, rows, env.now), env, 0)
  }

  /** DrainNow settles exactly when fewer than twenty full batches wait after its requeue;
      then nothing waits any more. */
  lemma DrainNowSettlesIff(o: Options, rows: seq<Row>, env: Env)
    requires Usable(o) && forall j :: 0 <= j <= MAX_ROUNDS ==> j !in env.fails
    ensures Passed(o, rows, env).1.Settled? <==> |Waiting(Requeued(o, rows, env.now))| < 20 * o.batch
    ensures Passed(o, rows, env).1.Settled? ==> Waiting(Passed(o, rows, env).0) == {}
  {
    SettlesIff(o, Requeued(o, rows, env.now), env, 0);
    RoomIsRoundsTimesBatch(o, 0);
  }

  class Dispatcher {
    const options: Options
    var rows: seq<Row>

    constructor (o: Options)
      ensures options == Defaulted(o) && Usable(options) && rows == []
    {
      options := Defaulted(o);
      rows := [];
    }

    method RequeueFailed(now: Instant, fails: bool) returns (n: int, err: bool)
      requires Usable(options)
      modifies this
      ensures err == fails
      ensures rows == if fails then old(rows) else Requeued(options, old(rows), now)
      ensures fails ==> n == 0
      ensures !fails ==> n == |Pick(AllDue(options, old(rows), now), |old(rows)|, 0, options.batch)|
    {
      n, err := 0, fails;
      if fails {
        return;
      }
      var ids := Pick(AllDue(options, rows, now), |rows|, 0, options.batch);
      rows := SetStatus(rows, ids, Pending);
      n := |ids|;
    }

    method DrainOnce(now: Instant, takes: Sends, recorded: bool, fails: bool) returns (n: int, err: bool)
      requires Usable(options)
      modifies this
      ensures err == fails
      ensures var ids := Batch(options, old(rows));
              && rows == (if fails then old(rows) else Drained(old(rows), ids, now, takes, recorded))
              && n == if fails then 0 else |ids|
    {
      n, err := 0, fails;
      if fails {
        return;
      }
      var msgs := Batch(options, rows);
      BatchOneByOne(options, rows, now, takes, recorded);
      rows := ClaimRows(rows, msgs, now);
      ghost var claimed := rows;
      if msgs == [] {
        return;
      }
      var failed: seq<nat> := [];
      var k := 0;
      while k < |msgs|
        invariant 0 <= k <= |msgs|
        invariant |rows| == |claimed|
        invariant SendAll(rows, failed, msgs[k..], takes) == SendAll(claimed, [], msgs, takes)
      {
        var m := msgs[k];
        var ok := (m, |rows[m].claims|) in takes;
        rows := rows[m := Verdict(rows[m], ok)];
        if !ok {
          failed := failed + [m];
        }
        assert msgs[k..][1..] == msgs[k + 1..];
        k := k + 1;
      }
      if |failed| > 0 {
        if recorded {
          rows := SetStatus(rows, failed, Failed);
        } else {
          rows := Abandon(rows, failed);
        }
      }
      n := |msgs|;
    }

    method DrainNow(env: Env) returns (ending: Ending)
      requires Usable(options)
      modifies this
      ensures (rows, ending) == Passed(options, old(rows), env)
    {
      var n, err := RequeueFailed(env.now, 0 in env.fails);
      if err {
        return Faulted;
      }
      ghost var start := rows;
      var round := 0;
      while round < MAX_ROUNDS
        invariant 0 <= round <= MAX_ROUNDS
        invariant Rounds(options, rows, env, round) == Rounds(options, start, env, 0)
      {
        n, err := DrainOnce(env.now, env.takes, round in env.recorded, round + 1 in env.fails);
        if err {
          return Faulted;
        }
        if n < options.batch {
          return Settled;
        }
        round := round + 1;
      }
      return Backlog;
    }
  }
}
