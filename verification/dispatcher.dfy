/** The outbox dispatcher: claim a batch, commit, send, record what failed, retry with
    backoff up to a ceiling. First what any number of dispatchers do to the table when
    their steps interleave, then one dispatcher's synchronous pass. */
module Outbox {
  type Instant = int

  datatype Status = Pending | Sent | Failed

  /** An outbox row. claims holds the instant of every claim, so |claims| is the attempts
      column and its last element is sent_at. delivered and failures count the sends that
      the transport accepted and refused; lost marks a row left SENT with no verdict. */
  datatype Row = Row(status: Status, claims: seq<Instant>, delivered: nat, failures: nat, lost: bool)

  const FRESH: Row := Row(Pending, [], 0, 0, false)

  datatype Options = Options(batch: int, maxAttempts: int, backoff: int, maxBackoff: int)

  const MAX_ROUNDS: nat := 20

  function Defaulted(o: Options): Options
  {
    Options(
      if o.batch <= 0 then 50 else o.batch,
      if o.maxAttempts <= 0 then 5 else o.maxAttempts,
      if o.backoff <= 0 then 2_000_000_000 else o.backoff,
      if o.maxBackoff <= 0 then 300_000_000_000 else o.maxBackoff)
  }

  predicate Usable(o: Options)
  {
    o.batch > 0 && o.maxAttempts > 0 && o.backoff > 0 && o.maxBackoff > 0
  }

  function Doubled(base: int, times: nat): int
  {
    if times == 0 then base else 2 * Doubled(base, times - 1)
  }

  /** How long a row rests after its n-th failed attempt. */
  function Delay(o: Options, n: nat): int
    requires n > 0
  {
    var d := Doubled(o.backoff, n - 1);
    if d < o.maxBackoff then d else o.maxBackoff
  }

  /** The wait is the configured base after the first failure, doubles with each further one,
      and never exceeds the configured cap; growing by at least one instant a failure until it
      gets there, it does get there. */
  lemma {:induction false} DelayExact(o: Options, n: nat)
    requires Usable(o) && n > 0
    ensures Delay(o, 1) == if o.backoff < o.maxBackoff then o.backoff else o.maxBackoff
    ensures Delay(o, n + 1) == if 2 * Delay(o, n) < o.maxBackoff then 2 * Delay(o, n) else o.maxBackoff
    ensures 0 < Delay(o, n) <= Delay(o, n + 1) <= o.maxBackoff
    ensures o.backoff + n > o.maxBackoff ==> Delay(o, n) == o.maxBackoff
  {
    DoubledGrows(o.backoff, n - 1);
    assert Doubled(o.backoff, n) == 2 * Doubled(o.backoff, n - 1);
    assert Doubled(o.backoff, 0) == o.backoff;
  }

  lemma {:induction false} DoubledGrows(base: int, times: nat)
    requires base > 0
    ensures Doubled(base, times) >= base + times
  {
    if times > 0 {
      DoubledGrows(base, times - 1);
    }
  }

  /** An option that is not positive is replaced: fifty rows a batch, five attempts, two seconds
      of backoff, five minutes at most. A positive one is kept. Unconfigured, a row waits two,
      four, eight and sixteen seconds between its five attempts. */
  lemma DefaultsExact(o: Options)
    ensures var d := Defaulted(o);
            && Usable(d) && (Usable(o) ==> d == o)
            && d.batch == (if o.batch > 0 then o.batch else 50)
            && d.maxAttempts == (if o.maxAttempts > 0 then o.maxAttempts else 5)
            && d.backoff == (if o.backoff > 0 then o.backoff else 2 * 1_000_000_000)
            && d.maxBackoff == (if o.maxBackoff > 0 then o.maxBackoff else 5 * 60 * 1_000_000_000)
    ensures o.backoff <= 0 && o.maxBackoff <= 0 ==>
              var d := Defaulted(o);
              Delay(d, 1) == 2_000_000_000 && Delay(d, 2) == 4_000_000_000
              && Delay(d, 3) == 8_000_000_000 && Delay(d, 4) == 16_000_000_000
  {
    var d := Defaulted(o);
    DelayExact(d, 1);
    DelayExact(d, 2);
    DelayExact(d, 3);
  }

  predicate Due(o: Options, r: Row, now: Instant)
  {
    && r.status.Failed? && 0 < |r.claims| < o.maxAttempts
    && r.claims[|r.claims| - 1] + Delay(o, |r.claims|) <= now
  }

  // ----------------------------------------------------------------- statements

  function ClaimRows(rows: seq<Row>, ids: seq<nat>, now: Instant): (r: seq<Row>)
    ensures |r| == |rows|
  {
    seq(|rows|, i requires 0 <= i < |rows| =>
      if i in ids then rows[i].(status := Sent, claims := rows[i].claims + [now]) else rows[i])
  }

  function SetStatus(rows: seq<Row>, ids: seq<nat>, status: Status): (r: seq<Row>)
    ensures |r| == |rows|
  {
    seq(|rows|, i requires 0 <= i < |rows| => if i in ids then rows[i].(status := status) else rows[i])
  }

  function Abandon(rows: seq<Row>, ids: seq<nat>): (r: seq<Row>)
    ensures |r| == |rows|
  {
    seq(|rows|, i requires 0 <= i < |rows| => if i in ids then rows[i].(lost := true) else rows[i])
  }

  function Verdict(r: Row, ok: bool): Row
  {
    if ok then r.(delivered := r.delivered + 1) else r.(failures := r.failures + 1)
  }

  // ------------------------------------------------------------- interleavings

  /** One dispatcher between its statements: claimed and not yet sent, sent and refused. */
  datatype Worker = Worker(todo: seq<nat>, failed: seq<nat>)

  const IDLE: Worker := Worker([], [])

  datatype World = World(rows: seq<Row>, clock: Instant, workers: seq<Worker>)

  datatype Action =
    | Enqueue
    | Tick(now: Instant)
    | Start
    | Requeue(ids: seq<nat>)
    | Claim(d: nat, ids: seq<nat>)
    | Send(d: nat, ok: bool)
    | Record(d: nat, ok: bool)
    | Crash(d: nat)

  ghost predicate Distinct(ids: seq<nat>)
  {
    forall j, k :: 0 <= j < k < |ids| ==> ids[j] != ids[k]
  }

  ghost predicate Enabled(o: Options, w: World, a: Action)
  {
    match a
    case Enqueue => true
    case Tick(now) => w.clock <= now
    case Start => true
    case Requeue(ids) => |ids| <= o.batch && forall i :: i in ids ==> i < |w.rows| && Due(o, w.rows[i], w.clock)
    case Claim(d, ids) =>
      && d < |w.workers| && w.workers[d] == IDLE
      && |ids| <= o.batch && Distinct(ids)
      && forall i :: i in ids ==> i < |w.rows| && w.rows[i].status.Pending?
    case Send(d, _) => d < |w.workers| && w.workers[d].todo != [] && w.workers[d].todo[0] < |w.rows|
    case Record(d, _) => d < |w.workers| && w.workers[d].todo == [] && w.workers[d].failed != []
    case Crash(d) => d < |w.workers|
  }

  ghost function Do(o: Options, w: World, a: Action): World
    requires Enabled(o, w, a)
  {
    match a
    case Enqueue => w.(rows := w.rows + [FRESH])
    case Tick(now) => w.(clock := now)
    case Start => w.(workers := w.workers + [IDLE])
    case Requeue(ids) => w.(rows := SetStatus(w.rows, ids, Pending))
    case Claim(d, ids) => w.(rows := ClaimRows(w.rows, ids, w.clock), workers := w.workers[d := Worker(ids, [])])
    case Send(d, ok) =>
      var m := w.workers[d].todo[0];
      World(w.rows[m := Verdict(w.rows[m], ok)], w.clock, w.workers[d := AfterSend(w.workers[d], ok)])
    case Record(d, ok) =>
      var failed := w.workers[d].failed;
      World(if ok then SetStatus(w.rows, failed, Failed) else Abandon(w.rows, failed), w.clock, w.workers[d := IDLE])
    case Crash(d) =>
      w.(rows := Abandon(w.rows, w.workers[d].todo + w.workers[d].failed), workers := w.workers[d := IDLE])
  }

  function AfterSend(k: Worker, ok: bool): Worker
    requires k.todo != []
  {
    Worker(k.todo[1..], if ok then k.failed else k.failed + [k.todo[0]])
  }

  predicate InTodo(w: World, d: nat, i: nat)
  {
    d < |w.workers| && i in w.workers[d].todo
  }

  predicate InFailed(w: World, d: nat, i: nat)
  {
    d < |w.workers| && i in w.workers[d].failed
  }

  predicate Holds(w: World, d: nat, i: nat)
  {
    InTodo(w, d, i) || InFailed(w, d, i)
  }

  ghost predicate Held(w: World, i: nat)
  {
    exists d :: Holds(w, d, i)
  }

  // ----------------------------------------------------------------- invariants

  /** No id is in two places of one dispatcher. */
  ghost predicate WorkerOk(w: World, d: nat)
    requires d < |w.workers|
  {
    && Distinct(w.workers[d].todo) && Distinct(w.workers[d].failed)
    && (forall i :: i in w.workers[d].todo ==> i !in w.workers[d].failed && i < |w.rows|)
    && (forall i :: i in w.workers[d].failed ==> i < |w.rows|)
  }

  /** No id is with two dispatchers. */
  ghost predicate Exclusive(w: World)
  {
    && (forall d: nat :: d < |w.workers| ==> WorkerOk(w, d))
    && (forall d: nat, e: nat, i: nat :: Holds(w, d, i) && Holds(w, e, i) ==> d == e)
  }

  /** Attempt j came no sooner than the backoff after the one before. */
  predicate Rested(o: Options, claims: seq<Instant>, j: int)
    requires 0 < j < |claims|
  {
    claims[j - 1] + Delay(o, j) <= claims[j]
  }

  /** The rests between attempts, and the one being taken. */
  ghost predicate Spaced(o: Options, r: Row, now: Instant)
  {
    && (forall j :: 0 < j < |r.claims| ==> Rested(o, r.claims, j))
    && (r.status.Pending? && |r.claims| > 0 ==> r.claims[|r.claims| - 1] + Delay(o, |r.claims|) <= now)
  }

  ghost predicate Accounted(o: Options, r: Row)
  {
    && |r.claims| <= o.maxAttempts
    && match r.status
       case Pending => r.delivered == 0 && r.failures == |r.claims| < o.maxAttempts && !r.lost
       case Failed => r.delivered == 0 && r.failures == |r.claims| > 0 && !r.lost
       case Sent => |r.claims| > 0 && r.delivered <= 1 && |r.claims| - 1 <= r.failures <= |r.claims|
  }

  predicate Unsent(r: Row)
  {
    r.status.Sent? && r.delivered == 0 && r.failures + 1 == |r.claims| && !r.lost
  }

  predicate Refused(r: Row)
  {
    r.status.Sent? && r.delivered == 0 && r.failures == |r.claims| && !r.lost
  }

  predicate Delivered(r: Row)
  {
    r.status.Sent? && r.delivered == 1 && r.failures + 1 == |r.claims| && !r.lost
  }

  predicate Lost(r: Row)
  {
    r.status.Sent? && r.delivered == 0 && r.lost
  }

  ghost predicate RowOk(o: Options, w: World, i: nat)
    requires i < |w.rows|
  {
    var r := w.rows[i];
    && Accounted(o, r) && Spaced(o, r, w.clock)
    && (forall d: nat :: InTodo(w, d, i) ==> Unsent(r))
    && (forall d: nat :: InFailed(w, d, i) ==> Refused(r))
    && (r.status.Sent? && !Held(w, i) ==> Delivered(r) || Lost(r))
  }

  ghost predicate Inv(o: Options, w: World)
  {
    Exclusive(w) && forall i: nat :: i < |w.rows| ==> RowOk(o, w, i)
  }

  lemma ClaimIsSpaced(o: Options, r: Row, now: Instant)
    requires Spaced(o, r, now) && r.status.Pending?
    ensures Spaced(o, r.(status := Sent, claims := r.claims + [now]), now)
  {
    var claims := r.claims + [now];
    forall j | 0 < j < |claims| ensures Rested(o, claims, j) {
      assert j < |r.claims| ==> Rested(o, r.claims, j);
    }
  }

  lemma ClaimKeeps(o: Options, w: World, d: nat, ids: seq<nat>)
    requires Usable(o) && Inv(o, w) && Enabled(o, w, Claim(d, ids))
    ensures Inv(o, Do(o, w, Claim(d, ids)))
  {
    var u := Do(o, w, Claim(d, ids));
    assert forall e: nat, i: nat :: InTodo(u, e, i) == (if e == d then i in ids else InTodo(w, e, i));
    assert forall e: nat, i: nat :: InFailed(u, e, i) == (e != d && InFailed(w, e, i));
    forall e: nat | e < |u.workers| ensures WorkerOk(u, e) {
      assert WorkerOk(w, e);
    }
    forall e: nat, f: nat, i: nat | Holds(u, e, i) && Holds(u, f, i) ensures e == f {
      if i in ids {
        assert RowOk(o, w, i);
      } else {
        assert Holds(w, e, i) && Holds(w, f, i);
      }
    }
    forall i: nat | i < |u.rows| ensures RowOk(o, u, i) {
      assert RowOk(o, w, i);
      if i in ids {
        ClaimIsSpaced(o, w.rows[i], w.clock);
        assert Holds(u, d, i);
      } else {
        assert forall e: nat :: Holds(w, e, i) ==> Holds(u, e, i);
      }
    }
  }

  lemma SendKeeps(o: Options, w: World, d: nat, ok: bool)
    requires Usable(o) && Inv(o, w) && Enabled(o, w, Send(d, ok))
    ensures Inv(o, Do(o, w, Send(d, ok)))
  {
    var u := Do(o, w, Send(d, ok));
    var k, k' := w.workers[d], u.workers[d];
    var m := k.todo[0];
    assert WorkerOk(w, d);
    assert m !in k'.todo && forall i :: i in k.todo <==> i == m || i in k'.todo;
    assert forall i :: i in k'.failed <==> i in k.failed || (i == m && !ok);
    assert InTodo(w, d, m) && Holds(w, d, m);
    assert forall e: nat, i: nat :: InTodo(u, e, i) == (InTodo(w, e, i) && !(e == d && i == m));
    assert forall e: nat, i: nat :: InFailed(u, e, i) == (InFailed(w, e, i) || (e == d && i == m && !ok));
    forall e: nat | e < |u.workers| ensures WorkerOk(u, e) {
      assert WorkerOk(w, e);
    }
    assert forall e: nat, i: nat :: Holds(u, e, i) ==> Holds(w, e, i);
    forall i: nat | i < |u.rows| ensures RowOk(o, u, i) {
      assert RowOk(o, w, i);
      if i != m {
        assert forall e: nat :: Holds(w, e, i) ==> Holds(u, e, i);
      } else {
        assert forall e: nat :: Holds(w, e, m) ==> e == d;
        assert forall e: nat :: InTodo(u, e, m) ==> Holds(w, e, m);
        assert forall e: nat :: InFailed(w, e, m) ==> Holds(w, e, m);
        assert forall e: nat :: !InTodo(u, e, m);
        assert forall e: nat :: InFailed(u, e, m) ==> !ok;
        assert !ok ==> Holds(u, d, m);
      }
    }
  }

  /** Record and Crash: a dispatcher lets go of everything it holds. */
  lemma LetGo(o: Options, w: World, u: World, d: nat)
    requires Exclusive(w) && d < |w.workers| && u.workers == w.workers[d := IDLE] && |u.rows| == |w.rows|
    ensures Exclusive(u)
    ensures forall e: nat, i: nat :: InTodo(u, e, i) == (e != d && InTodo(w, e, i))
    ensures forall e: nat, i: nat :: InFailed(u, e, i) == (e != d && InFailed(w, e, i))
    ensures forall i: nat :: Held(u, i) == (Held(w, i) && !Holds(w, d, i))
  {
    assert forall e: nat, i: nat :: InTodo(u, e, i) == (e != d && InTodo(w, e, i));
    assert forall e: nat, i: nat :: InFailed(u, e, i) == (e != d && InFailed(w, e, i));
    assert forall e: nat, i: nat :: Holds(u, e, i) ==> Holds(w, e, i);
    forall e: nat | e < |u.workers| ensures WorkerOk(u, e) {
      assert WorkerOk(w, e);
    }
    forall i: nat ensures Held(u, i) == (Held(w, i) && !Holds(w, d, i)) {
      assert forall e: nat :: Holds(u, e, i) == (e != d && Holds(w, e, i));
      if Held(w, i) && !Holds(w, d, i) {
        var e :| Holds(w, e, i);
        assert Holds(u, e, i);
      }
    }
  }

  lemma Untouched(o: Options, w: World, u: World, d: nat, i: nat)
    requires i < |w.rows| && RowOk(o, w, i) && !Holds(w, d, i)
    requires i < |u.rows| && u.rows[i] == w.rows[i] && u.clock == w.clock
    requires forall e: nat, j: nat :: InTodo(u, e, j) == (e != d && InTodo(w, e, j))
    requires forall e: nat, j: nat :: InFailed(u, e, j) == (e != d && InFailed(w, e, j))
    ensures RowOk(o, u, i)
  {
    assert forall e: nat :: Holds(w, e, i) ==> Holds(u, e, i);
  }

  /** A row let go of ends FAILED if it was refused, and lost otherwise. */
  lemma LetGoRow(o: Options, w: World, u: World, d: nat, i: nat)
    requires i < |w.rows| && RowOk(o, w, i) && Exclusive(w) && Holds(w, d, i)
    requires i < |u.rows| && u.clock == w.clock
    requires u.rows[i] == w.rows[i].(lost := true) || (InFailed(w, d, i) && u.rows[i] == w.rows[i].(status := Failed))
    requires forall e: nat, j: nat :: InTodo(u, e, j) == (e != d && InTodo(w, e, j))
    requires forall e: nat, j: nat :: InFailed(u, e, j) == (e != d && InFailed(w, e, j))
    ensures RowOk(o, u, i)
  {
    assert forall e: nat :: Holds(w, e, i) ==> e == d;
    assert forall e: nat :: Holds(u, e, i) ==> Holds(w, e, i) && e != d;
    assert forall e: nat :: !Holds(u, e, i);
    assert forall e: nat :: (InTodo(u, e, i) ==> Holds(u, e, i)) && (InFailed(u, e, i) ==> Holds(u, e, i));
  }

  lemma RecordKeeps(o: Options, w: World, d: nat, ok: bool)
    requires Usable(o) && Inv(o, w) && Enabled(o, w, Record(d, ok))
    ensures Inv(o, Do(o, w, Record(d, ok)))
  {
    var u := Do(o, w, Record(d, ok));
    LetGo(o, w, u, d);
    forall i: nat | i < |u.rows| ensures RowOk(o, u, i) {
      assert RowOk(o, w, i);
      if i in w.workers[d].failed {
        LetGoRow(o, w, u, d, i);
      } else {
        assert !Holds(w, d, i);
        Untouched(o, w, u, d, i);
      }
    }
  }

  lemma CrashKeeps(o: Options, w: World, d: nat)
    requires Usable(o) && Inv(o, w) && Enabled(o, w, Crash(d))
    ensures Inv(o, Do(o, w, Crash(d)))
  {
    var u := Do(o, w, Crash(d));
    LetGo(o, w, u, d);
    forall i: nat | i < |u.rows| ensures RowOk(o, u, i) {
      assert RowOk(o, w, i);
      if Holds(w, d, i) {
        LetGoRow(o, w, u, d, i);
      } else {
        Untouched(o, w, u, d, i);
      }
    }
  }

  lemma TableKeeps(o: Options, w: World, a: Action)
    requires Usable(o) && Inv(o, w) && Enabled(o, w, a) && (a.Enqueue? || a.Tick? || a.Requeue?)
    ensures Inv(o, Do(o, w, a))
  {
    var u := Do(o, w, a);
    assert forall d: nat, i: nat :: InTodo(u, d, i) == InTodo(w, d, i) && InFailed(u, d, i) == InFailed(w, d, i);
    forall e: nat | e < |u.workers| ensures WorkerOk(u, e) {
      assert WorkerOk(w, e);
    }
    assert forall e: nat, i: nat :: Holds(u, e, i) == Holds(w, e, i);
    forall i: nat | i < |u.rows| ensures RowOk(o, u, i) {
      if i < |w.rows| {
        assert RowOk(o, w, i);
        SamePlace(o, w, u, i);
      } else {
        forall d: nat ensures !InTodo(u, d, i) && !InFailed(u, d, i) {
          if d < |w.workers| { assert WorkerOk(w, d); }
        }
      }
    }
  }

  /** Rows nobody picked up or put down. */
  lemma SamePlace(o: Options, w: World, u: World, i: nat)
    requires Usable(o) && i < |w.rows| && RowOk(o, w, i) && i < |u.rows| && w.clock <= u.clock
    requires u.rows[i] == w.rows[i] || (Due(o, w.rows[i], w.clock) && u.rows[i] == w.rows[i].(status := Pending))
    requires forall e: nat, j: nat :: InTodo(u, e, j) == InTodo(w, e, j) && InFailed(u, e, j) == InFailed(w, e, j)
    ensures RowOk(o, u, i)
  {
    assert forall e: nat :: (InTodo(u, e, i) ==> InTodo(w, e, i)) && (InFailed(u, e, i) ==> InFailed(w, e, i));
    assert forall e: nat :: Holds(w, e, i) ==> Holds(u, e, i);
  }

  lemma StartKeeps(o: Options, w: World)
    requires Usable(o) && Inv(o, w)
    ensures Inv(o, Do(o, w, Start))
  {
    var u := Do(o, w, Start);
    assert forall d: nat, i: nat :: InTodo(u, d, i) == InTodo(w, d, i) && InFailed(u, d, i) == InFailed(w, d, i);
    assert forall e: nat, i: nat :: Holds(u, e, i) == Holds(w, e, i);
    forall e: nat | e < |u.workers| ensures WorkerOk(u, e) {
      if e < |w.workers| { assert WorkerOk(w, e); }
    }
    forall i: nat | i < |u.rows| ensures RowOk(o, u, i) {
      assert RowOk(o, w, i);
      SamePlace(o, w, u, i);
    }
  }

  lemma StepKeeps(o: Options, w: World, a: Action)
    requires Usable(o) && Inv(o, w) && Enabled(o, w, a)
    ensures Inv(o, Do(o, w, a))
  {
    match a
    case Start => StartKeeps(o, w);
    case Claim(d, ids) => ClaimKeeps(o, w, d, ids);
    case Send(d, ok) => SendKeeps(o, w, d, ok);
    case Record(d, ok) => RecordKeeps(o, w, d, ok);
    case Crash(d) => CrashKeeps(o, w, d);
    case _ => TableKeeps(o, w, a);
  }

  // ------------------------------------------------------------------ theorems

  ghost predicate LeadsTo(o: Options, w: World, steps: seq<Action>, u: World)
    decreases |steps|
  {
    if steps == [] then u == w
    else Enabled(o, w, steps[0]) && LeadsTo(o, Do(o, w, steps[0]), steps[1..], u)
  }

  lemma {:induction false} RunKeeps(o: Options, w: World, steps: seq<Action>, u: World)
    requires Usable(o) && Inv(o, w) && LeadsTo(o, w, steps, u)
    ensures Inv(o, u)
    decreases |steps|
  {
    if steps != [] {
      StepKeeps(o, w, steps[0]);
      RunKeeps(o, Do(o, w, steps[0]), steps[1..], u);
    }
  }

  /** In every interleaving of any number of dispatchers: a row being handled is SENT and
      with exactly one of them, attempts stay under the ceiling, nothing is delivered
      twice, and consecutive attempts are at least the backoff apart. */
  lemma DispatchAccounting(o: Options, now: Instant, steps: seq<Action>, u: World, i: nat)
    requires Usable(o) && LeadsTo(o, World([], now, []), steps, u) && i < |u.rows|
    ensures var r := u.rows[i];
            && (forall d, e :: Holds(u, d, i) && Holds(u, e, i) ==> d == e)
            && (Held(u, i) ==> r.status.Sent? && r.delivered == 0)
            && |r.claims| <= o.maxAttempts && r.failures <= |r.claims| && r.delivered <= 1
            && (forall j :: 0 < j < |r.claims| ==> Rested(o, r.claims, j))
  {
    RunKeeps(o, World([], now, []), steps, u);
    assert RowOk(o, u, i);
  }

  /** Every row no dispatcher is holding has exactly one of five fates, the last three of
      which are final: a dead letter is a row refused exactly maxAttempts times. */
  lemma EveryRowHasAFate(o: Options, now: Instant, steps: seq<Action>, u: World, i: nat)
    requires Usable(o) && LeadsTo(o, World([], now, []), steps, u) && i < |u.rows| && !Held(u, i)
    ensures var r := u.rows[i];
            || (r.status.Pending? && r.failures == |r.claims| < o.maxAttempts && r.delivered == 0)
            || (r.status.Failed? && r.failures == |r.claims| < o.maxAttempts && r.delivered == 0)
            || (r.status.Failed? && r.failures == |r.claims| == o.maxAttempts && r.delivered == 0)
            || Delivered(r)
            || Lost(r)
  {
    RunKeeps(o, World([], now, []), steps, u);
    assert RowOk(o, u, i);
  }

  /** What no dispatcher will ever claim again. */
  ghost predicate Settled(o: Options, w: World, i: nat)
  {
    && i < |w.rows| && !Held(w, i)
    && (w.rows[i].status.Sent? || (w.rows[i].status.Failed? && |w.rows[i].claims| >= o.maxAttempts))
  }

  lemma SettledStep(o: Options, w: World, a: Action, i: nat)
    requires Usable(o) && Inv(o, w) && Enabled(o, w, a) && Settled(o, w, i)
    ensures Settled(o, Do(o, w, a), i) && Do(o, w, a).rows[i] == w.rows[i]
  {
    var u := Do(o, w, a);
    assert forall d: nat :: !Holds(w, d, i);
    assert forall d: nat :: !InTodo(w, d, i) && !InFailed(w, d, i) by {
      forall d: nat ensures !InTodo(w, d, i) && !InFailed(w, d, i) {
        assert !Holds(w, d, i);
      }
    }
    if a.Send? {
      assert InTodo(w, a.d, w.workers[a.d].todo[0]);
    } else if a.Record? || a.Crash? {
      assert !InTodo(w, a.d, i) && !InFailed(w, a.d, i);
    }
    assert u.rows[i] == w.rows[i];
    forall d: nat ensures !Holds(u, d, i) {
      assert !Holds(w, d, i);
    }
  }

  lemma {:induction false} SettledIsFinal(o: Options, w: World, steps: seq<Action>, u: World, i: nat)
    requires Usable(o) && Inv(o, w) && LeadsTo(o, w, steps, u) && Settled(o, w, i)
    ensures Settled(o, u, i) && u.rows[i] == w.rows[i]
    decreases |steps|
  {
    if steps != [] {
      StepKeeps(o, w, steps[0]);
      SettledStep(o, w, steps[0], i);
      SettledIsFinal(o, Do(o, w, steps[0]), steps[1..], u, i);
    }
  }

  /** A notification goes missing only through a crash or a verdict that could not be
      recorded. */
  lemma {:induction false} OnlyAccidentsLose(o: Options, w: World, steps: seq<Action>, u: World)
    requires Usable(o) && LeadsTo(o, w, steps, u)
    requires forall k :: 0 <= k < |steps| ==> !steps[k].Crash? && !(steps[k].Record? && !steps[k].ok)
    requires forall i: nat :: i < |w.rows| ==> !w.rows[i].lost
    ensures forall i: nat :: i < |u.rows| ==> !u.rows[i].lost
    decreases |steps|
  {
    if steps != [] {
      assert !steps[0].Crash? && !(steps[0].Record? && !steps[0].ok);
      OnlyAccidentsLose(o, Do(o, w, steps[0]), steps[1..], u);
    }
  }
}
