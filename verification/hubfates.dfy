/** What one dispatch does to every subscription, and why a subscription ever ends. */
module HubFates {
  import opened Hub

  /** One event, in terms of the old buffers: a watcher with room holds one event more and is
      otherwise as it was, a full one keeps its buffer, leaves and is marked, and nobody else
      is touched. */
  lemma DeliverExact(h: State, date: Date, ev: Payload, size: nat, s: nat)
    requires BucketsOk(h) && s < |h.conns|
    ensures var u := Delivered(h, date, ev, size);
            && |u.conns| == |h.conns| && u.stopped == h.stopped
            && var c, c' := h.conns[s], u.conns[s];
               && c'.date == c.date && c'.since == c.since && c'.consumed == c.consumed
               && c'.closed == c.closed && c'.closes == c.closes && c'.asked == c.asked
               && (if Registered(h, s) && c.date == date && |c.buffer| < size then
                     Registered(u, s) && c'.dropped == c.dropped && c'.buffer == c.buffer + [ev]
                   else if Registered(h, s) && c.date == date then
                     !Registered(u, s) && c'.dropped && c'.buffer == c.buffer
                   else
                     Registered(u, s) == Registered(h, s) && c'.dropped == c.dropped && c'.buffer == c.buffer)
    ensures s in Overflowing(h, date, size) <==> Registered(h, s) && h.conns[s].date == date && |h.conns[s].buffer| >= size
  {
    DeliveredRegistration(h, date, ev, size, s);
  }

  /** Every dispatched event enters its date's log, and no other. */
  lemma DispatchIsLogged(h: State, date: Date, ev: Payload, size: nat, d: Date)
    ensures LogOf(Delivered(h, date, ev, size), d) == if d == date then LogOf(h, d) + [ev] else LogOf(h, d)
  {
  }

  // -------------------------------------------------------------- every ending

  /** Some earlier dispatch for its date found s registered and its buffer full. */
  ghost predicate FoundFull(worlds: seq<World>, actions: seq<Action>, size: nat, k: nat, s: nat)
    requires |worlds| == |actions| + 1 && k <= |actions|
  {
    exists j :: 0 <= j < k && FullAt(worlds[j], actions[j], size, s)
  }

  predicate FullAt(w: World, a: Action, size: nat, s: nat)
  {
    a.Dispatch? && Registered(w.hub, s) && w.hub.conns[s].date == a.date && |w.hub.conns[s].buffer| >= size
  }

  ghost predicate Happened(actions: seq<Action>, k: nat, a: Action)
    requires k <= |actions|
  {
    exists j :: 0 <= j < k && actions[j] == a
  }

  /** What one step can add to the marks of subscription s. */
  lemma MarksStep(w: World, a: Action, size: nat, s: nat)
    requires BucketsOk(w.hub) && Enabled(w, a) && s < |Do(w, a, size).hub.conns|
    ensures var c' := Do(w, a, size).hub.conns[s];
            && (c'.dropped ==> FullAt(w, a, size, s) || (s < |w.hub.conns| && w.hub.conns[s].dropped))
            && (c'.asked ==> a == Close(s) || (s < |w.hub.conns| && w.hub.conns[s].asked))
    ensures Do(w, a, size).hub.stopped ==> a == Stop || w.hub.stopped
  {
    if a.Dispatch? {
      DeliverExact(w.hub, a.date, a.ev, size, s);
    }
  }

  lemma MarksAt(worlds: seq<World>, actions: seq<Action>, size: nat, k: nat, s: nat)
    requires Interleaving(worlds, actions, size) && k < |actions| && s < |worlds[k + 1].hub.conns|
    ensures var c' := worlds[k + 1].hub.conns[s];
            && (c'.dropped ==> FullAt(worlds[k], actions[k], size, s) || (s < |worlds[k].hub.conns| && worlds[k].hub.conns[s].dropped))
            && (c'.asked ==> actions[k] == Close(s) || (s < |worlds[k].hub.conns| && worlds[k].hub.conns[s].asked))
    ensures worlds[k + 1].hub.stopped ==> actions[k] == Stop || worlds[k].hub.stopped
  {
    InterleavingInv(worlds, actions, size, k);
    MarksStep(worlds[k], actions[k], size, s);
  }

  /** A subscription is marked dropped only if an earlier dispatch found its buffer full, asked
      only if its handler called Close, and the hub stopped only by a shutdown. */
  lemma {:induction false} MarksHaveCauses(worlds: seq<World>, actions: seq<Action>, size: nat, k: nat, s: nat)
    requires Interleaving(worlds, actions, size) && k <= |actions| && s < |worlds[k].hub.conns|
    ensures worlds[k].hub.conns[s].dropped ==> FoundFull(worlds, actions, size, k, s)
    ensures worlds[k].hub.conns[s].asked ==> Happened(actions, k, Close(s))
    ensures worlds[k].hub.stopped ==> Happened(actions, k, Stop)
  {
    if k > 0 {
      MarksAt(worlds, actions, size, k - 1, s);
      if s < |worlds[k - 1].hub.conns| {
        MarksHaveCauses(worlds, actions, size, k - 1, s);
      } else {
        StoppedHasCause(worlds, actions, size, k - 1);
      }
    }
  }

  lemma {:induction false} StoppedHasCause(worlds: seq<World>, actions: seq<Action>, size: nat, k: nat)
    requires Interleaving(worlds, actions, size) && k <= |actions|
    ensures worlds[k].hub.stopped ==> Happened(actions, k, Stop)
  {
    if k > 0 {
      StoppedHasCause(worlds, actions, size, k - 1);
    }
  }

  /** A subscription leaves the map only for one of three reasons, each with its event. */
  lemma EndsForAReason(worlds: seq<World>, actions: seq<Action>, size: nat, k: nat, s: nat)
    requires Interleaving(worlds, actions, size) && k <= |actions| && s < |worlds[k].hub.conns|
    ensures !Registered(worlds[k].hub, s) ==>
              FoundFull(worlds, actions, size, k, s) || Happened(actions, k, Close(s)) || Happened(actions, k, Stop)
  {
    HubIsSafe(worlds, actions, size, k);
    MarksHaveCauses(worlds, actions, size, k, s);
  }

  // ------------------------------------------------------ every reason takes effect

  /** Asked and still registered: on its way out. Dropped: out. */
  ghost predicate FateOk(w: World, s: nat)
    requires s < |w.hub.conns|
  {
    && (w.hub.conns[s].asked && Registered(w.hub, s) ==> s in w.removes)
    && (w.hub.conns[s].dropped ==> !Registered(w.hub, s))
  }

  lemma FateStep(w: World, a: Action, size: nat, s: nat)
    requires Inv(w, size) && Enabled(w, a) && s < |Do(w, a, size).hub.conns|
    requires s < |w.hub.conns| ==> FateOk(w, s)
    ensures FateOk(Do(w, a, size), s)
  {
    match a
    case Subscribe(date) =>
      SubscribeFate(w, date, size, s);
    case Dispatch(date, ev) =>
      DispatchFate(w, date, ev, size, s);
    case RunRemove(r) =>
      RemoveFate(w, r, size, s);
    case RunFinish(r) => FinishFate(w, r, size, s);
    case RunGather => GatherFate(w, size, s);
    case _ =>
      SameRegistration(w.hub, Do(w, a, size).hub);
  }

  lemma DispatchFate(w: World, date: Date, ev: Payload, size: nat, s: nat)
    requires Inv(w, size) && Enabled(w, Dispatch(date, ev)) && s < |w.hub.conns| && FateOk(w, s)
    ensures s < |Do(w, Dispatch(date, ev), size).hub.conns| && FateOk(Do(w, Dispatch(date, ev), size), s)
  {
    DeliverExact(w.hub, date, ev, size, s);
  }

  lemma RemoveFate(w: World, r: nat, size: nat, s: nat)
    requires Inv(w, size) && Enabled(w, RunRemove(r)) && s < |w.hub.conns| && FateOk(w, s)
    ensures s < |Do(w, RunRemove(r), size).hub.conns| && FateOk(Do(w, RunRemove(r), size), s)
  {
    RemovedRegistration(w.hub, r, s);
  }

  lemma FinishFate(w: World, r: nat, size: nat, s: nat)
    requires Inv(w, size) && Enabled(w, RunFinish(r)) && s < |w.hub.conns| && FateOk(w, s)
    ensures s < |Do(w, RunFinish(r), size).hub.conns| && FateOk(Do(w, RunFinish(r), size), s)
  {
    FinishShape(w.hub, r);
  }

  lemma GatherFate(w: World, size: nat, s: nat)
    requires Inv(w, size) && Enabled(w, RunGather) && s < |w.hub.conns| && FateOk(w, s)
    ensures s < |Do(w, RunGather, size).hub.conns| && FateOk(Do(w, RunGather, size), s)
  {
  }

  lemma SubscribeFate(w: World, date: Date, size: nat, s: nat)
    requires BucketsOk(w.hub) && s < |w.hub.conns| + 1
    requires s < |w.hub.conns| ==> FateOk(w, s)
    ensures s < |Do(w, Subscribe(date), size).hub.conns| && FateOk(Do(w, Subscribe(date), size), s)
  {
    var u := Do(w, Subscribe(date), size);
    if s < |w.hub.conns| {
      assert Registered(u.hub, s) == Registered(w.hub, s);
    }
  }

  ghost predicate FateSoFar(w: World, s: nat)
  {
    s < |w.hub.conns| ==> FateOk(w, s)
  }

  lemma FateAt(worlds: seq<World>, actions: seq<Action>, size: nat, k: nat, s: nat)
    requires Interleaving(worlds, actions, size) && k < |actions|
    requires FateSoFar(worlds[k], s)
    ensures FateSoFar(worlds[k + 1], s)
  {
    InterleavingInv(worlds, actions, size, k);
    if s < |worlds[k + 1].hub.conns| {
      FateStep(worlds[k], actions[k], size, s);
    }
  }

  lemma {:induction false} FatesOk(worlds: seq<World>, actions: seq<Action>, size: nat, k: nat, s: nat)
    requires Interleaving(worlds, actions, size) && k <= |actions|
    ensures FateSoFar(worlds[k], s)
  {
    if k > 0 {
      FatesOk(worlds, actions, size, k - 1, s);
      FateAt(worlds, actions, size, k - 1, s);
    }
  }

  /** While the hub runs and no call is in flight, exactly the subscriptions that were dropped
      or closed by their handlers have a closed channel, and exactly the others are
      registered. */
  lemma ClosedIff(worlds: seq<World>, actions: seq<Action>, size: nat, k: nat, s: nat)
    requires Interleaving(worlds, actions, size) && k <= |actions| && s < |worlds[k].hub.conns|
    requires Quiet(worlds[k]) && !worlds[k].hub.stopped
    ensures worlds[k].hub.conns[s].closed <==> worlds[k].hub.conns[s].dropped || worlds[k].hub.conns[s].asked
    ensures Registered(worlds[k].hub, s) <==> !worlds[k].hub.conns[s].closed
  {
    InterleavingInv(worlds, actions, size, k);
    FatesOk(worlds, actions, size, k, s);
    assert ChannelOk(worlds[k], s);
  }
}
