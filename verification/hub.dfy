/** The SSE hub: one mutex, a map of subscriptions by date, a bounded channel each, and
    calls that interleave between their critical sections. */
module Hub {
  type Date = string
  type Payload = string

  /** A subscription. since is how many events of its date had been dispatched when it
      joined; consumed and buffer are what its reader has taken and what its channel still
      holds; closes counts close(ch); asked records that its handler called Close. */
  datatype Conn = Conn(
    date: Date, since: nat, consumed: seq<Payload>, buffer: seq<Payload>,
    closed: bool, closes: nat, dropped: bool, asked: bool)

  /** subs is the guarded map, stopped the closed flag, log everything dispatched by date. */
  datatype State = State(subs: map<Date, set<nat>>, conns: seq<Conn>, stopped: bool, log: map<Date, seq<Payload>>)

  function Watchers(h: State, date: Date): set<nat>
  {
    if date in h.subs then h.subs[date] else {}
  }

  function LogOf(h: State, date: Date): seq<Payload>
  {
    if date in h.log then h.log[date] else []
  }

  predicate Registered(h: State, s: nat)
  {
    s < |h.conns| && s in Watchers(h, h.conns[s].date)
  }

  ghost predicate BucketsOk(h: State)
  {
    forall d :: d in h.subs ==>
      h.subs[d] != {} && forall s :: s in h.subs[d] ==> s < |h.conns| && h.conns[s].date == d
  }

  // -------------------------------------------------------- critical sections

  /** removeLocked for every subscription in gone: an emptied bucket goes too. */
  function RemoveFrom(subs: map<Date, set<nat>>, date: Date, gone: set<nat>): map<Date, set<nat>>
  {
    if date !in subs then subs
    else if subs[date] - gone == {} then subs - {date}
    else subs[date := subs[date] - gone]
  }

  lemma RemoveNothing(h: State, date: Date)
    requires BucketsOk(h)
    ensures RemoveFrom(h.subs, date, {}) == h.subs
  {
    if date in h.subs {
      assert h.subs[date] - {} == h.subs[date];
    }
  }

  function Joined(h: State, date: Date): State
  {
    h.(conns := h.conns + [Conn(date, |LogOf(h, date)|, [], [], false, 0, false, false)],
       subs := h.subs[date := Watchers(h, date) + {|h.conns|}])
  }

  function Removed(h: State, s: nat): State
    requires s < |h.conns|
  {
    h.(subs := RemoveFrom(h.subs, h.conns[s].date, {s}))
  }

  /** closeOnce. */
  function Finished(h: State, s: nat): State
    requires s < |h.conns|
  {
    var c := h.conns[s];
    if c.closed then h else h.(conns := h.conns[s := c.(closed := true, closes := c.closes + 1)])
  }

  function Overflowing(h: State, date: Date, size: nat): set<nat>
  {
    set s | s in Watchers(h, date) && s < |h.conns| && |h.conns[s].buffer| >= size
  }

  /** What one dispatch does to subscription i. */
  function Receives(h: State, date: Date, ev: Payload, size: nat, i: nat): Conn
    requires i < |h.conns|
  {
    var c := h.conns[i];
    if i !in Watchers(h, date) then c
    else if |c.buffer| < size then c.(buffer := c.buffer + [ev])
    else c.(dropped := true)
  }

  function Delivered(h: State, date: Date, ev: Payload, size: nat): State
  {
    State(
      RemoveFrom(h.subs, date, Overflowing(h, date, size)),
      seq(|h.conns|, i requires 0 <= i < |h.conns| => Receives(h, date, ev, size, i)),
      h.stopped,
      h.log[date := LogOf(h, date) + [ev]])
  }

  function Everybody(h: State): set<nat>
  {
    set d, s | d in h.subs && s in h.subs[d] :: s
  }

  // ------------------------------------------------------------ the hub itself

  class LiveHub {
    const size: nat
    var subs: map<Date, set<nat>>
    var conns: seq<Conn>
    var stopped: bool
    var log: map<Date, seq<Payload>>

    constructor (size: nat)
      ensures this.size == size && Current() == State(map[], [], false, map[])
    {
      this.size := size;
      subs, conns, stopped, log := map[], [], false, map[];
    }

    function Current(): State
      reads this
    {
      State(subs, conns, stopped, log)
    }

    /** Subscribe, up to the unlock: the new id, and whether the hub had stopped. */
    method Register(date: Date) returns (s: nat, late: bool)
      modifies this
      ensures Current() == Joined(old(Current()), date)
      ensures s == |old(conns)| && late == old(stopped)
    {
      s := |conns|;
      var seen := if date in log then |log[date]| else 0;
      conns := conns + [Conn(date, seen, [], [], false, 0, false, false)];
      if date !in subs {
        subs := subs[date := {}];
      }
      subs := subs[date := subs[date] + {s}];
      late := stopped;
    }

    method Remove(s: nat)
      requires s < |conns|
      modifies this`subs
      ensures Current() == Removed(old(Current()), s)
    {
      var date := conns[s].date;
      if date !in subs {
        return;
      }
      subs := subs[date := subs[date] - {s}];
      if subs[date] == {} {
        subs := subs - {date};
      }
      assert subs == RemoveFrom(old(subs), date, {s});
    }

    method Finish(s: nat)
      requires s < |conns|
      modifies this`conns
      ensures Current() == Finished(old(Current()), s)
    {
      if !conns[s].closed {
        conns := conns[s := conns[s].(closed := true, closes := conns[s].closes + 1)];
      }
    }

    /** Subscribe, when nothing else runs in between. */
    method Subscribe(date: Date) returns (s: nat)
      modifies this
      ensures s == |old(conns)|
      ensures Current() == if old(stopped) then Finished(Removed(Joined(old(Current()), date), s), s) else Joined(old(Current()), date)
    {
      var late;
      s, late := Register(date);
      if late {
        Remove(s);
        Finish(s);
      }
    }

    /** Dispatch, up to the unlock: non-blocking sends in whatever order the map yields its
        subscriptions, then the overflowing ones are removed and returned. */
    method Deliver(date: Date, ev: Payload) returns (dropped: set<nat>)
      requires BucketsOk(Current())
      modifies this
      ensures Current() == Delivered(old(Current()), date, ev, size)
      ensures dropped == Overflowing(old(Current()), date, size)
    {
      ghost var h := Current();
      var todo := if date in subs then subs[date] else {};
      dropped := {};
      while todo != {}
        invariant todo <= Watchers(h, date)
        invariant dropped == Overflowing(h, date, size) - todo
        invariant |conns| == |h.conns|
        invariant forall i: nat :: i < |conns| ==> conns[i] == if i in todo then h.conns[i] else Receives(h, date, ev, size, i)
        invariant subs == h.subs && stopped == h.stopped && log == h.log
        decreases todo
      {
        var s :| s in todo;
        if |conns[s].buffer| < size {
          conns := conns[s := conns[s].(buffer := conns[s].buffer + [ev])];
        } else {
          conns := conns[s := conns[s].(dropped := true)];
          dropped := dropped + {s};
        }
        todo := todo - {s};
      }
      assert dropped == Overflowing(h, date, size);
      RemoveAll(date, dropped);
      assert subs == RemoveFrom(h.subs, date, dropped) by {
        if dropped == {} { RemoveNothing(h, date); }
      }
      log := log[date := (if date in log then log[date] else []) + [ev]];
      assert conns == Delivered(h, date, ev, size).conns;
    }

    /** The loop of removeLocked calls over the dropped subscriptions of one date. */
    method RemoveAll(date: Date, gone: set<nat>)
      modifies this`subs
      ensures subs == if gone == {} then old(subs) else RemoveFrom(old(subs), date, gone)
    {
      var todo := gone;
      while todo != {}
        invariant todo <= gone
        invariant subs == if todo == gone then old(subs) else RemoveFrom(old(subs), date, gone - todo)
        decreases todo
      {
        var s :| s in todo;
        ghost var before := gone - todo;
        todo := todo - {s};
        assert gone - todo == before + {s};
        if date in subs {
          var rest := subs[date] - {s};
          assert date in old(subs) && rest == old(subs)[date] - (gone - todo);
          if rest == {} {
            subs := subs - {date};
          } else {
            subs := subs[date := rest];
          }
          assert subs == RemoveFrom(old(subs), date, gone - todo);
        } else {
          assert date !in old(subs) || old(subs)[date] - before == {};
          assert date in old(subs) ==> old(subs)[date] - (gone - todo) == {};
        }
      }
      assert gone - todo == gone;
    }

    /** shutdown, up to the unlock: everybody registered, and an empty map. */
    method Gather() returns (all: set<nat>)
      modifies this`subs
      ensures all == Everybody(old(Current()))
      ensures Current() == old(Current()).(subs := map[])
    {
      all := {};
      var dates := subs.Keys;
      while dates != {}
        invariant dates <= subs.Keys && subs == old(subs)
        invariant forall s :: s in all <==> exists d :: d in subs && d !in dates && s in subs[d]
        decreases dates
      {
        var d :| d in dates;
        all := all + subs[d];
        dates := dates - {d};
      }
      subs := map[];
    }
  }

  // ------------------------------------------------------------- interleavings

  /** Calls that have left one critical section and not yet entered the next: shutdowns
      about to gather, calls about to remove a subscription, calls about to close one. */
  datatype World = World(hub: State, gathers: nat, removes: multiset<nat>, finishes: multiset<nat>)

  const START: World := World(State(map[], [], false, map[]), 0, multiset{}, multiset{})

  datatype Action =
    | Subscribe(date: Date)
    | Close(s: nat)
    | Dispatch(date: Date, ev: Payload)
    | Consume(s: nat)
    | Stop
    | RunGather
    | RunRemove(s: nat)
    | RunFinish(s: nat)

  predicate Enabled(w: World, a: Action)
  {
    match a
    case Subscribe(_) => true
    case Close(s) => s < |w.hub.conns|
    case Dispatch(_, _) => true
    case Consume(s) => s < |w.hub.conns| && |w.hub.conns[s].buffer| > 0
    case Stop => true
    case RunGather => w.gathers > 0
    case RunRemove(s) => s in w.removes && s < |w.hub.conns|
    case RunFinish(s) => s in w.finishes && s < |w.hub.conns|
  }

  function Do(w: World, a: Action, size: nat): World
    requires Enabled(w, a)
  {
    match a
    case Subscribe(date) =>
      w.(hub := Joined(w.hub, date), removes := if w.hub.stopped then w.removes + multiset{|w.hub.conns|} else w.removes)
    case Close(s) =>
      w.(hub := w.hub.(conns := w.hub.conns[s := w.hub.conns[s].(asked := true)]), removes := w.removes + multiset{s})
    case Dispatch(date, ev) =>
      w.(hub := Delivered(w.hub, date, ev, size), finishes := w.finishes + multiset(Overflowing(w.hub, date, size)))
    case Consume(s) =>
      var c := w.hub.conns[s];
      w.(hub := w.hub.(conns := w.hub.conns[s := c.(consumed := c.consumed + [c.buffer[0]], buffer := c.buffer[1..])]))
    case Stop => w.(hub := w.hub.(stopped := true), gathers := w.gathers + 1)
    case RunGather =>
      w.(hub := w.hub.(subs := map[]), gathers := w.gathers - 1, finishes := w.finishes + multiset(Everybody(w.hub)))
    case RunRemove(s) =>
      w.(hub := Removed(w.hub, s), removes := w.removes - multiset{s}, finishes := w.finishes + multiset{s})
    case RunFinish(s) => w.(hub := Finished(w.hub, s), finishes := w.finishes - multiset{s})
  }

  // ----------------------------------------------------------------- invariant

  /** A subscription is on exactly one of these sides: registered with an open channel,
      or on its way to being closed, or closed once. */
  ghost predicate ChannelOk(w: World, s: nat)
    requires s < |w.hub.conns|
  {
    var c := w.hub.conns[s];
    && (Registered(w.hub, s) ==> !c.closed && s !in w.finishes)
    && (!Registered(w.hub, s) && !c.closed ==> s in w.finishes)
    && c.closes == (if c.closed then 1 else 0)
    && (!Registered(w.hub, s) ==> c.dropped || c.asked || w.hub.stopped)
    && (w.hub.stopped && w.gathers == 0 && Registered(w.hub, s) ==> s in w.removes)
  }

  /** What a subscriber has been sent is a contiguous run of its date's events, up to the
      latest one for as long as it is registered. */
  ghost predicate StreamOk(h: State, s: nat, size: nat)
    requires s < |h.conns|
  {
    var c := h.conns[s];
    var got := c.consumed + c.buffer;
    && |c.buffer| <= size
    && c.since + |got| <= |LogOf(h, c.date)|
    && got == LogOf(h, c.date)[c.since..c.since + |got|]
    && (Registered(h, s) ==> c.since + |got| == |LogOf(h, c.date)|)
  }

  ghost predicate Inv(w: World, size: nat)
  {
    && BucketsOk(w.hub)
    && (forall s :: s in w.removes ==> s < |w.hub.conns|)
    && (forall s :: s in w.finishes ==> s < |w.hub.conns|)
    && (forall s: nat :: s < |w.hub.conns| ==> (s in w.removes ==> w.hub.conns[s].asked || w.hub.stopped))
    && (forall s: nat :: s < |w.hub.conns| ==> ChannelOk(w, s))
    && (forall s: nat :: s < |w.hub.conns| ==> StreamOk(w.hub, s, size))
  }

  lemma SubscribeKeeps(w: World, date: Date, size: nat)
    requires Inv(w, size)
    ensures Inv(Do(w, Subscribe(date), size), size)
  {
    var u := Do(w, Subscribe(date), size);
    forall s: nat | s < |u.hub.conns| ensures ChannelOk(u, s) && StreamOk(u.hub, s, size) {
      if s < |w.hub.conns| {
        assert ChannelOk(w, s) && StreamOk(w.hub, s, size);
        assert Registered(u.hub, s) <==> Registered(w.hub, s);
      } else {
        assert LogOf(u.hub, date)[u.hub.conns[s].since..u.hub.conns[s].since] == [];
      }
    }
  }

  lemma DispatchChannel(w: World, date: Date, ev: Payload, size: nat, s: nat)
    requires BucketsOk(w.hub) && s < |w.hub.conns| && ChannelOk(w, s)
    ensures ChannelOk(Do(w, Dispatch(date, ev), size), s)
  {
    DeliveredRegistration(w.hub, date, ev, size, s);
  }

  lemma DeliveredBuckets(h: State, date: Date, ev: Payload, size: nat)
    requires BucketsOk(h)
    ensures BucketsOk(Delivered(h, date, ev, size))
  {
  }

  lemma DispatchKeeps(w: World, date: Date, ev: Payload, size: nat)
    requires Inv(w, size)
    ensures Inv(Do(w, Dispatch(date, ev), size), size)
  {
    DeliveredBuckets(w.hub, date, ev, size);
    forall s: nat | s < |w.hub.conns| ensures ChannelOk(Do(w, Dispatch(date, ev), size), s) {
      DispatchChannel(w, date, ev, size, s);
    }
    forall s: nat | s < |w.hub.conns| ensures StreamOk(Do(w, Dispatch(date, ev), size).hub, s, size) {
      DeliveredStream(w.hub, date, ev, size, s);
    }
  }

  lemma DeliveredRegistration(h: State, date: Date, ev: Payload, size: nat, s: nat)
    requires BucketsOk(h) && s < |h.conns|
    ensures Registered(Delivered(h, date, ev, size), s) <==> Registered(h, s) && s !in Overflowing(h, date, size)
  {
  }

  /** A run of the log stays one when the log grows, and grows with it if it was at its end. */
  lemma RunGrows(log: seq<Payload>, ev: Payload, since: nat, got: seq<Payload>)
    requires since + |got| <= |log| && got == log[since..since + |got|]
    ensures got == (log + [ev])[since..since + |got|]
    ensures since + |got| == |log| ==> got + [ev] == (log + [ev])[since..since + |got| + 1]
  {
  }

  lemma DeliveredConn(h: State, date: Date, ev: Payload, size: nat, s: nat)
    requires BucketsOk(h) && s < |h.conns|
    ensures var c, c' := h.conns[s], Delivered(h, date, ev, size).conns[s];
            && c'.date == c.date && c'.since == c.since
            && (if Registered(h, s) && c.date == date && |c.buffer| < size then
                  c'.consumed + c'.buffer == c.consumed + c.buffer + [ev] && |c'.buffer| == |c.buffer| + 1
                else c'.consumed == c.consumed && c'.buffer == c.buffer)
  {
    var c := h.conns[s];
    assert c.consumed + (c.buffer + [ev]) == c.consumed + c.buffer + [ev];
  }

  lemma DeliveredLog(h: State, date: Date, ev: Payload, size: nat, d: Date)
    ensures LogOf(Delivered(h, date, ev, size), d) == if d == date then LogOf(h, d) + [ev] else LogOf(h, d)
  {
  }

  lemma DeliveredStream(h: State, date: Date, ev: Payload, size: nat, s: nat)
    requires BucketsOk(h) && s < |h.conns| && StreamOk(h, s, size)
    ensures StreamOk(Delivered(h, date, ev, size), s, size)
  {
    var c := h.conns[s];
    DeliveredRegistration(h, date, ev, size, s);
    DeliveredConn(h, date, ev, size, s);
    DeliveredLog(h, date, ev, size, c.date);
    RunGrows(LogOf(h, c.date), ev, c.since, c.consumed + c.buffer);
    assert Registered(h, s) && c.date == date && |c.buffer| >= size ==> s in Overflowing(h, date, size);
  }

  /** Steps that leave the map alone and rewrite connections in place. */
  ghost predicate SameShape(h: State, g: State)
  {
    && g.subs == h.subs && |g.conns| == |h.conns|
    && forall i: nat :: i < |h.conns| ==> g.conns[i].date == h.conns[i].date
  }

  lemma SameRegistration(h: State, g: State)
    requires SameShape(h, g) && BucketsOk(h)
    ensures BucketsOk(g)
    ensures forall i: nat :: i < |h.conns| ==> Registered(g, i) == Registered(h, i)
  {
  }

  lemma SameStream(h: State, g: State, i: nat, size: nat)
    requires i < |h.conns| && i < |g.conns| && g.log == h.log && g.conns[i].date == h.conns[i].date
    requires g.conns[i].since == h.conns[i].since && |g.conns[i].buffer| <= |h.conns[i].buffer|
    requires g.conns[i].consumed + g.conns[i].buffer == h.conns[i].consumed + h.conns[i].buffer
    requires Registered(g, i) ==> Registered(h, i)
    requires StreamOk(h, i, size)
    ensures StreamOk(g, i, size)
  {
  }

  lemma TakeOne(c: Conn)
    requires |c.buffer| > 0
    ensures (c.consumed + [c.buffer[0]]) + c.buffer[1..] == c.consumed + c.buffer
  {
    assert c.buffer == [c.buffer[0]] + c.buffer[1..];
  }

  lemma ConsumeKeeps(w: World, s: nat, size: nat)
    requires Inv(w, size) && Enabled(w, Consume(s))
    ensures Inv(Do(w, Consume(s), size), size)
  {
    var u := Do(w, Consume(s), size);
    SameRegistration(w.hub, u.hub);
    TakeOne(w.hub.conns[s]);
    forall i: nat | i < |u.hub.conns| ensures ChannelOk(u, i) {
      assert ChannelOk(w, i);
    }
    forall i: nat | i < |u.hub.conns| ensures StreamOk(u.hub, i, size) {
      assert StreamOk(w.hub, i, size);
      SameStream(w.hub, u.hub, i, size);
    }
  }

  lemma RemovedRegistration(h: State, s: nat, i: nat)
    requires BucketsOk(h) && s < |h.conns| && i < |h.conns|
    ensures BucketsOk(Removed(h, s))
    ensures Registered(Removed(h, s), i) <==> Registered(h, i) && i != s
  {
  }

  lemma RemoveChannel(w: World, s: nat, size: nat, i: nat)
    requires BucketsOk(w.hub) && Enabled(w, RunRemove(s)) && i < |w.hub.conns| && ChannelOk(w, i)
    requires s in w.removes ==> w.hub.conns[s].asked || w.hub.stopped
    ensures ChannelOk(Do(w, RunRemove(s), size), i)
  {
    RemovedRegistration(w.hub, s, i);
  }

  lemma RemoveStream(h: State, s: nat, size: nat, i: nat)
    requires BucketsOk(h) && s < |h.conns| && i < |h.conns| && StreamOk(h, i, size)
    ensures StreamOk(Removed(h, s), i, size)
  {
    RemovedRegistration(h, s, i);
  }

  lemma RemoveKeeps(w: World, s: nat, size: nat)
    requires Inv(w, size) && Enabled(w, RunRemove(s))
    ensures Inv(Do(w, RunRemove(s), size), size)
  {
    RemovedRegistration(w.hub, s, s);
    forall i: nat | i < |w.hub.conns| ensures ChannelOk(Do(w, RunRemove(s), size), i) {
      RemoveChannel(w, s, size, i);
    }
    forall i: nat | i < |w.hub.conns| ensures StreamOk(Do(w, RunRemove(s), size).hub, i, size) {
      RemoveStream(w.hub, s, size, i);
    }
  }

  lemma GatherKeeps(w: World, size: nat)
    requires Inv(w, size) && Enabled(w, RunGather) && w.hub.stopped
    ensures Inv(Do(w, RunGather, size), size)
  {
    var u := Do(w, RunGather, size);
    forall i: nat | i < |u.hub.conns| ensures ChannelOk(u, i) && StreamOk(u.hub, i, size) {
      assert ChannelOk(w, i) && StreamOk(w.hub, i, size);
      if Registered(w.hub, i) {
        assert w.hub.conns[i].date in w.hub.subs && i in Everybody(w.hub);
      }
    }
  }

  lemma CloseKeeps(w: World, s: nat, size: nat)
    requires Inv(w, size) && Enabled(w, Close(s))
    ensures Inv(Do(w, Close(s), size), size)
  {
    var u := Do(w, Close(s), size);
    SameRegistration(w.hub, u.hub);
    forall i: nat | i < |u.hub.conns| ensures ChannelOk(u, i) {
      assert ChannelOk(w, i);
    }
    forall i: nat | i < |u.hub.conns| ensures StreamOk(u.hub, i, size) {
      assert StreamOk(w.hub, i, size);
      SameStream(w.hub, u.hub, i, size);
    }
  }

  lemma StopKeeps(w: World, size: nat)
    requires Inv(w, size) && Enabled(w, Stop)
    ensures Inv(Do(w, Stop, size), size)
  {
    var u := Do(w, Stop, size);
    SameRegistration(w.hub, u.hub);
    forall i: nat | i < |u.hub.conns| ensures ChannelOk(u, i) {
      assert ChannelOk(w, i);
    }
    forall i: nat | i < |u.hub.conns| ensures StreamOk(u.hub, i, size) {
      assert StreamOk(w.hub, i, size);
      SameStream(w.hub, u.hub, i, size);
    }
  }

  lemma FinishShape(h: State, s: nat)
    requires BucketsOk(h) && s < |h.conns|
    ensures SameShape(h, Finished(h, s)) && BucketsOk(Finished(h, s))
    ensures forall i: nat :: i < |h.conns| ==> Registered(Finished(h, s), i) == Registered(h, i)
  {
    SameRegistration(h, Finished(h, s));
  }

  lemma FinishChannel(w: World, s: nat, size: nat, i: nat)
    requires BucketsOk(w.hub) && Enabled(w, RunFinish(s)) && i < |w.hub.conns| && ChannelOk(w, i)
    ensures ChannelOk(Do(w, RunFinish(s), size), i)
  {
    FinishShape(w.hub, s);
  }

  lemma FinishStream(h: State, s: nat, size: nat, i: nat)
    requires BucketsOk(h) && s < |h.conns| && i < |h.conns| && StreamOk(h, i, size)
    ensures StreamOk(Finished(h, s), i, size)
  {
    FinishShape(h, s);
    SameStream(h, Finished(h, s), i, size);
  }

  lemma FinishKeeps(w: World, s: nat, size: nat)
    requires Inv(w, size) && Enabled(w, RunFinish(s))
    ensures Inv(Do(w, RunFinish(s), size), size)
  {
    FinishShape(w.hub, s);
    forall i: nat | i < |w.hub.conns| ensures ChannelOk(Do(w, RunFinish(s), size), i) {
      FinishChannel(w, s, size, i);
    }
    forall i: nat | i < |w.hub.conns| ensures StreamOk(Do(w, RunFinish(s), size).hub, i, size) {
      FinishStream(w.hub, s, size, i);
    }
  }

  lemma StepKeeps(w: World, a: Action, size: nat)
    requires Inv(w, size) && Enabled(w, a) && (w.gathers > 0 ==> w.hub.stopped)
    ensures Inv(Do(w, a, size), size) && (Do(w, a, size).gathers > 0 ==> Do(w, a, size).hub.stopped)
  {
    match a
    case Subscribe(date) => SubscribeKeeps(w, date, size);
    case Dispatch(date, ev) => DispatchKeeps(w, date, ev, size);
    case Consume(s) => ConsumeKeeps(w, s, size);
    case RunGather => GatherKeeps(w, size);
    case RunRemove(s) => RemoveKeeps(w, s, size);
    case Close(s) => CloseKeeps(w, s, size);
    case Stop => StopKeeps(w, size);
    case RunFinish(s) => FinishKeeps(w, s, size);
  }

  // ------------------------------------------------------------------ theorems

  ghost predicate Interleaving(worlds: seq<World>, actions: seq<Action>, size: nat)
  {
    && |worlds| == |actions| + 1 && worlds[0] == START
    && forall k :: 0 <= k < |actions| ==> Enabled(worlds[k], actions[k]) && worlds[k + 1] == Do(worlds[k], actions[k], size)
  }

  lemma {:induction false} InterleavingInv(worlds: seq<World>, actions: seq<Action>, size: nat, k: nat)
    requires Interleaving(worlds, actions, size) && k <= |actions|
    ensures Inv(worlds[k], size) && (worlds[k].gathers > 0 ==> worlds[k].hub.stopped)
  {
    if k > 0 {
      InterleavingInv(worlds, actions, size, k - 1);
      StepKeeps(worlds[k - 1], actions[k - 1], size);
    }
  }

  /** In every interleaving: a registered subscription has an open channel, so no send hits a
      closed one; every channel closes at most once; no date bucket is empty; and a
      subscription leaves the map only by being dropped, by Close, or by shutdown. */
  lemma HubIsSafe(worlds: seq<World>, actions: seq<Action>, size: nat, k: nat)
    requires Interleaving(worlds, actions, size) && k <= |actions|
    ensures var h := worlds[k].hub;
            && (forall d, s :: d in h.subs && s in h.subs[d] ==> s < |h.conns| && !h.conns[s].closed)
            && (forall s: nat :: s < |h.conns| ==> h.conns[s].closes <= 1 && (h.conns[s].closed <==> h.conns[s].closes == 1))
            && (forall d :: d in h.subs ==> h.subs[d] != {})
            && (forall s: nat :: s < |h.conns| && !Registered(h, s) ==> h.conns[s].dropped || h.conns[s].asked || h.stopped)
  {
    InterleavingInv(worlds, actions, size, k);
    var h := worlds[k].hub;
    forall d, s | d in h.subs && s in h.subs[d] ensures s < |h.conns| && !h.conns[s].closed {
      assert ChannelOk(worlds[k], s);
    }
    forall s: nat | s < |h.conns|
      ensures h.conns[s].closes <= 1 && (h.conns[s].closed <==> h.conns[s].closes == 1)
      ensures !Registered(h, s) ==> h.conns[s].dropped || h.conns[s].asked || h.stopped
    {
      assert ChannelOk(worlds[k], s);
    }
  }

  lemma NobodyRegistered(h: State)
    requires BucketsOk(h) && forall s: nat :: s < |h.conns| ==> !Registered(h, s)
    ensures h.subs == map[]
  {
    if h.subs != map[] {
      var d :| d in h.subs;
      var s :| s in h.subs[d];
      assert Registered(h, s);
    }
  }

  /** Once the hub has stopped and every call has run to its end, every subscription ever
      made is closed and the map is empty, including those that raced with the shutdown. */
  lemma ShutdownClosesEverything(worlds: seq<World>, actions: seq<Action>, size: nat, k: nat)
    requires Interleaving(worlds, actions, size) && k <= |actions|
    requires worlds[k].hub.stopped && worlds[k].gathers == 0 && worlds[k].removes == multiset{} && worlds[k].finishes == multiset{}
    ensures forall s: nat :: s < |worlds[k].hub.conns| ==> worlds[k].hub.conns[s].closed
    ensures worlds[k].hub.subs == map[]
  {
    InterleavingInv(worlds, actions, size, k);
    var w := worlds[k];
    forall s: nat | s < |w.hub.conns| ensures w.hub.conns[s].closed {
      assert ChannelOk(w, s);
    }
    forall s: nat | s < |w.hub.conns| ensures !Registered(w.hub, s) {
      assert ChannelOk(w, s);
    }
    NobodyRegistered(w.hub);
  }

  ghost predicate Consistent(w: World, size: nat)
  {
    Inv(w, size) && (w.gathers > 0 ==> w.hub.stopped)
  }

  predicate Pending(a: Action)
  {
    a.RunGather? || a.RunRemove? || a.RunFinish?
  }

  predicate Quiet(w: World)
  {
    w.gathers == 0 && w.removes == multiset{} && w.finishes == multiset{}
  }

  ghost function Next(w: World): (a: Action)
    requires !Quiet(w)
    requires (forall s :: s in w.removes ==> s < |w.hub.conns|) && (forall s :: s in w.finishes ==> s < |w.hub.conns|)
    ensures Pending(a) && Enabled(w, a)
  {
    if w.gathers > 0 then RunGather
    else if w.removes != multiset{} then
      var s :| s in w.removes;
      RunRemove(s)
    else
      var s :| s in w.finishes;
      RunFinish(s)
  }

  ghost predicate LeadsTo(w: World, steps: seq<Action>, u: World, size: nat)
    decreases |steps|
  {
    if steps == [] then u == w
    else Enabled(w, steps[0]) && LeadsTo(Do(w, steps[0], size), steps[1..], u, size)
  }

  lemma CallsFinishStep(w: World, size: nat)
    requires Consistent(w, size) && !Quiet(w)
    ensures var u := Do(w, Next(w), size);
            && Consistent(u, size) && u.hub.stopped == w.hub.stopped && |u.hub.conns| == |w.hub.conns|
            && (u.gathers < w.gathers
                || (u.gathers == w.gathers && |u.removes| < |w.removes|)
                || (u.gathers == w.gathers && u.removes == w.removes && |u.finishes| < |w.finishes|))
  {
    StepKeeps(w, Next(w), size);
  }

  // how much the calls in flight may still do

  function Load(w: World): nat
  {
    w.gathers + 2 * |w.removes| + |w.finishes| + |Everybody(w.hub)|
  }

  lemma {:induction false} SubsetSize(a: set<nat>, b: set<nat>)
    requires a <= b
    ensures |a| <= |b|
    decreases a
  {
    if a != {} {
      var x :| x in a;
      SubsetSize(a - {x}, b - {x});
    }
  }

  lemma RemovedEverybody(h: State, s: nat)
    requires s < |h.conns|
    ensures |Everybody(Removed(h, s))| <= |Everybody(h)|
  {
    SubsetSize(Everybody(Removed(h, s)), Everybody(h));
  }

  lemma PendingStepUnloads(w: World, a: Action, size: nat)
    requires Enabled(w, a) && Pending(a)
    ensures Load(Do(w, a, size)) < Load(w)
  {
    match a
    case RunGather =>
      assert Everybody(Do(w, a, size).hub) == {};
    case RunRemove(s) =>
      RemovedEverybody(w.hub, s);
    case RunFinish(s) =>
      assert Everybody(Do(w, a, size).hub) == Everybody(w.hub);
  }

  /** However the calls in flight are interleaved, they end: a run of their steps alone is at
      most as long as their load, and one that cannot go on has left nothing in flight. */
  lemma {:induction false} CallsAlwaysFinish(w: World, steps: seq<Action>, u: World, size: nat)
    requires Consistent(w, size) && LeadsTo(w, steps, u, size) && forall k :: 0 <= k < |steps| ==> Pending(steps[k])
    ensures Consistent(u, size) && |steps| + Load(u) <= Load(w)
    ensures (forall a :: Pending(a) ==> !Enabled(u, a)) ==> Quiet(u)
    decreases |steps|
  {
    if steps != [] {
      assert Pending(steps[0]);
      StepKeeps(w, steps[0], size);
      PendingStepUnloads(w, steps[0], size);
      CallsAlwaysFinish(Do(w, steps[0], size), steps[1..], u, size);
    } else if !Quiet(u) {
      assert Pending(Next(u)) && Enabled(u, Next(u));
    }
  }

  /** The calls in flight can always run to their end, without waiting for anything. */
  lemma {:induction false} CallsFinish(w: World, size: nat) returns (u: World, steps: seq<Action>)
    requires Consistent(w, size)
    ensures Consistent(u, size) && Quiet(u)
    ensures u.hub.stopped == w.hub.stopped && |u.hub.conns| == |w.hub.conns|
    ensures forall k :: 0 <= k < |steps| ==> Pending(steps[k])
    ensures LeadsTo(w, steps, u, size)
    decreases w.gathers, |w.removes|, |w.finishes|
  {
    u, steps := w, [];
    if !Quiet(w) {
      CallsFinishStep(w, size);
      u, steps := CallsFinish(Do(w, Next(w), size), size);
      steps := [Next(w)] + steps;
    }
  }

  /** What was consumed plus what is buffered is a gap-free run of the date's events from the
      moment of subscription, and reaches the latest one while the subscription lasts. */
  lemma DeliveredWithoutGaps(worlds: seq<World>, actions: seq<Action>, size: nat, k: nat, s: nat)
    requires Interleaving(worlds, actions, size) && k <= |actions| && s < |worlds[k].hub.conns|
    ensures var h := worlds[k].hub;
            var c := h.conns[s];
            var got := c.consumed + c.buffer;
            && c.since + |got| <= |LogOf(h, c.date)|
            && got == LogOf(h, c.date)[c.since..c.since + |got|]
            && (Registered(h, s) ==> got == LogOf(h, c.date)[c.since..])
  {
    InterleavingInv(worlds, actions, size, k);
    assert StreamOk(worlds[k].hub, s, size);
  }

  /** One full buffer never changes what another subscriber receives. */
  lemma OthersUnaffected(h: State, g: State, date: Date, ev: Payload, size: nat, s: nat)
    requires BucketsOk(h) && BucketsOk(g) && s < |h.conns| && s < |g.conns|
    requires h.conns[s] == g.conns[s] && Registered(h, s) == Registered(g, s)
    ensures Delivered(h, date, ev, size).conns[s] == Delivered(g, date, ev, size).conns[s]
    ensures Registered(Delivered(h, date, ev, size), s) == Registered(Delivered(g, date, ev, size), s)
  {
    DeliveredRegistration(h, date, ev, size, s);
    DeliveredRegistration(g, date, ev, size, s);
  }
}
