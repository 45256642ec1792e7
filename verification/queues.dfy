/** Why a queue entry is as it is, and why a check-in is there: which calls change which
    entries, and to what. */
module Queues {
  import opened Model
  import opened Statements
  import opened Transitions
  import opened Invariants
  import opened Preservation
  import opened Runs
  import opened Outcomes
  import opened Causes

  /** The booking this entry was offered is one of these. */
  predicate OfferedIn(e: Entry, ids: seq<nat>)
  {
    e.status == Promoted && e.booking.Some? && e.booking.value in ids
  }

  /** e' is entry e after some promotions and after the offers of `ended` ran out: expired if its
      offer is among them, promoted to a row that did not exist before if it was waiting, and
      otherwise the same. n is the number of rows before. */
  predicate EntryAfter(e: Entry, e': Entry, n: nat, ended: seq<nat>)
  {
    if OfferedIn(e, ended) then e' == e.(status := EntryStatus.Expired)
    else e' == e || (e.status == Waiting && e'.booking.Some? && e'.booking.value >= n
                     && e' == e.(status := Promoted, booking := e'.booking))
  }

  ghost predicate EntriesAfter(a: seq<Entry>, b: seq<Entry>, n: nat, ended: seq<nat>)
  {
    |a| == |b| && forall w :: 0 <= w < |a| ==> EntryAfter(a[w], b[w], n, ended)
  }

  lemma PromoteEntries(c: Campus, t: Tables, f: FacilityId, start: Instant, end: Instant, now: Instant, locked: Locked)
    ensures EntriesAfter(t.waitlist, Promote(c, t, f, start, end, now, locked).waitlist, |t.bookings|, [])
  {
    ClaimHeadIsHead(t.waitlist, f, start, end, locked.entries);
  }

  /** One more promotion on top of a pass. */
  lemma EntriesTrans(a: seq<Entry>, b: seq<Entry>, d: seq<Entry>, n: nat, m: nat, ended: seq<nat>)
    requires EntriesAfter(a, b, n, ended) && EntriesAfter(b, d, m, []) && n <= m
    ensures EntriesAfter(a, d, n, ended)
  {
  }

  /** One more offer that ran out, of a row that stood before the pass. */
  lemma EntriesRetired(a: seq<Entry>, b: seq<Entry>, n: nat, ended: seq<nat>, x: nat)
    requires EntriesAfter(a, b, n, ended) && x < n
    ensures EntriesAfter(a, Retired(b, x, EntryStatus.Expired), n, ended + [x])
  {
  }

  lemma {:induction false} ExpirePassEntries(c: Campus, t: Tables, batch: seq<nat>, now: Instant, locked: Locked)
    requires InTable(batch, t)
    ensures EntriesAfter(t.waitlist, ExpirePass(c, t, batch, now, locked).waitlist, |t.bookings|, batch)
  {
    if |batch| > 0 {
      var n := |batch| - 1;
      var u, x := ExpirePass(c, t, batch[..n], now, locked), batch[n];
      ExpirePassEntries(c, t, batch[..n], now, locked);
      assert batch == batch[..n] + [x];
      var v := Announced(Logged(u.(waitlist := Retired(u.waitlist, x, EntryStatus.Expired)), x, Held, Cancelled), WaitlistExpired, x);
      EntriesRetired(t.waitlist, u.waitlist, |t.bookings|, batch[..n], x);
      var b := v.bookings[x];
      PromoteEntries(c, v, b.facility, b.start, b.end, now, locked);
      EntriesTrans(t.waitlist, v.waitlist, Promote(c, v, b.facility, b.start, b.end, now, locked).waitlist, |t.bookings|, |v.bookings|, batch);
    }
  }

  lemma {:induction false} NoShowPassEntries(c: Campus, t: Tables, batch: seq<nat>, now: Instant, locked: Locked)
    requires InTable(batch, t) && RowsKnown(c, t)
    ensures EntriesAfter(t.waitlist, NoShowPass(c, t, batch, now, locked).waitlist, |t.bookings|, [])
  {
    if |batch| > 0 {
      var n := |batch| - 1;
      var u, x := NoShowPass(c, t, batch[..n], now, locked), batch[n];
      NoShowPassEntries(c, t, batch[..n], now, locked);
      var v := Announced(Released(c, Logged(u, x, Confirmed, NoShow), x), BookingNoShow, x);
      assert v.bookings == u.bookings && v.waitlist == u.waitlist;
      var b := v.bookings[x];
      PromoteEntries(c, v, b.facility, b.start, b.end, now, locked);
      EntriesTrans(t.waitlist, v.waitlist, Promote(c, v, b.facility, b.start, b.end, now, locked).waitlist, |t.bookings|, |v.bookings|, []);
    }
  }

  lemma CancelEntries(c: Campus, t: Tables, i: nat, actor: UserId, manager: bool, now: Instant, locked: Locked)
    requires ValidCampus(c) && Reachable(c, t) && (i < |t.bookings| ==> t.bookings[i].facility in c.facilities)
    ensures EntriesAfter(t.waitlist, Cancel(c, t, i, actor, manager, now, locked).tables.waitlist, |t.bookings|, [])
  {
    CancelExact(c, t, i, actor, manager, now, locked);
    if Cancel(c, t, i, actor, manager, now, locked).outcome == Done(i) {
      CancelledShape(c, t, i, actor, manager, now, locked);
      CancelledEntries(c, t, i, now, locked);
    }
  }

  lemma CancelledEntries(c: Campus, t: Tables, i: nat, now: Instant, locked: Locked)
    requires i < |t.bookings| && t.bookings[i].facility in c.facilities
    ensures EntriesAfter(t.waitlist, CancelledTables(c, t, i, now, locked).waitlist, |t.bookings|, [])
  {
    var b := t.bookings[i];
    var freed := Logged(Released(c, t.(bookings := Marked(t.bookings, {i}, Cancelled)), i), i, Confirmed, Cancelled);
    PromoteEntries(c, freed, b.facility, b.start, b.end, now, locked);
  }

  /** What the call makes of entry e, number w. */
  predicate EntryFollows(t: Tables, call: Call, w: nat, e: Entry, e': Entry)
  {
    match call
    case DoClaim(i, actor, now) =>
      e' == if Claim(t, i, actor, now).outcome == Done(i) && OfferedIn(e, [i]) then e.(status := EntryStatus.Claimed) else e
    case DoLeave(v, actor) =>
      e' == if v == w && actor != NIL_USER && e.user == actor && e.status == Waiting then e.(status := Left) else e
    case DoSweepHolds(_, _, holds) => EntryAfter(e, e', |t.bookings|, holds)
    case DoSweepCheckIns(_, _, _, _) => EntryAfter(e, e', |t.bookings|, [])
    case DoCancel(_, _, _, _, _) => EntryAfter(e, e', |t.bookings|, [])
    case _ => e' == e
  }

  /** From every reachable state: an entry is claimed with its own offer and expires with it, is
      left by its owner while it waits, and is promoted, with a new row, only where a window is
      freed; no call does anything else to it. */
  lemma EveryEntryHasItsCause(c: Campus, t: Tables, call: Call, w: nat)
    requires ValidCampus(c) && Reachable(c, t) && Enabled(c, t, call) && w < |t.waitlist|
    ensures w < |Apply(c, t, call).waitlist|
    ensures EntryFollows(t, call, w, t.waitlist[w], Apply(c, t, call).waitlist[w])
  {
    match call
    case DoCancel(i, actor, manager, now, locked) => CancelEntries(c, t, i, actor, manager, now, locked);
    case DoSweepHolds(now, locked, holds) => SweepHoldsEntries(c, t, call);
    case DoSweepCheckIns(now, locked, attended, absent) => SweepCheckInsEntries(c, t, call);
    case DoCreate(r, now, ks) => CreateEntries(c, t, r, now, ks);
    case DoJoin(user, f, start, end, priority) => JoinExact(c, t, user, f, start, end, priority);
    case _ =>
  }

  lemma CreateEntries(c: Campus, t: Tables, r: Request, now: Instant, ks: seq<Conditions>)
    requires ValidCampus(c)
    ensures Create(c, t, r, now, ks).tables.waitlist == t.waitlist
  {
    CreateExact(c, t, r, now, ks);
    if Create(c, t, r, now, ks).outcome.Created? {
      CreateEffect(c, t, r, now, ks);
    }
  }

  lemma SweepHoldsEntries(c: Campus, t: Tables, call: Call)
    requires Enabled(c, t, call) && call.DoSweepHolds?
    ensures EntriesAfter(t.waitlist, Apply(c, t, call).waitlist, |t.bookings|, call.holds)
  {
    BatchesDue(c, t, call);
    ExpirePassEntries(c, t.(bookings := Marked(t.bookings, Ids(call.holds), Cancelled)), call.holds, call.now, call.locked);
  }

  lemma SweepCheckInsEntries(c: Campus, t: Tables, call: Call)
    requires Enabled(c, t, call) && call.DoSweepCheckIns?
    ensures EntriesAfter(t.waitlist, Apply(c, t, call).waitlist, |t.bookings|, [])
  {
    BatchesDue(c, t, call);
    CompletedRows(t, call.attended);
    var u := Complete(t, call.attended);
    NoShowPassEntries(c, u.(bookings := Marked(u.bookings, Ids(call.absent), NoShow)), call.absent, call.now, call.locked);
  }

  // ------------------------------------------------------------------ check-ins

  lemma {:induction false} ExpirePassCheckIns(c: Campus, t: Tables, batch: seq<nat>, now: Instant, locked: Locked)
    requires InTable(batch, t)
    ensures ExpirePass(c, t, batch, now, locked).checkIns == t.checkIns
  {
    if |batch| > 0 {
      ExpirePassCheckIns(c, t, batch[..|batch| - 1], now, locked);
    }
  }

  lemma {:induction false} NoShowPassCheckIns(c: Campus, t: Tables, batch: seq<nat>, now: Instant, locked: Locked)
    requires InTable(batch, t) && RowsKnown(c, t)
    ensures NoShowPass(c, t, batch, now, locked).checkIns == t.checkIns
  {
    if |batch| > 0 {
      NoShowPassCheckIns(c, t, batch[..|batch| - 1], now, locked);
    }
  }

  /** The check-in a call makes, if any. */
  function CheckInMade(c: Campus, t: Tables, call: Call): set<nat>
  {
    match call
    case DoRedeem(i, actor, ok, now) => if Redeem(c, t, i, actor, ok, now).outcome == Done(i) then {i} else {}
    case _ => {}
  }

  lemma CancelCheckIns(c: Campus, t: Tables, i: nat, actor: UserId, manager: bool, now: Instant, locked: Locked)
    requires ValidCampus(c) && Reachable(c, t) && (i < |t.bookings| ==> t.bookings[i].facility in c.facilities)
    ensures Cancel(c, t, i, actor, manager, now, locked).tables.checkIns == t.checkIns
  {
    CancelExact(c, t, i, actor, manager, now, locked);
    if Cancel(c, t, i, actor, manager, now, locked).outcome == Done(i) {
      CancelEffect(c, t, i, actor, manager, now, locked);
    }
  }

  lemma CreateCheckIns(c: Campus, t: Tables, r: Request, now: Instant, ks: seq<Conditions>)
    requires ValidCampus(c)
    ensures Create(c, t, r, now, ks).tables.checkIns == t.checkIns
  {
    CreateExact(c, t, r, now, ks);
    if Create(c, t, r, now, ks).outcome.Created? {
      CreateEffect(c, t, r, now, ks);
    }
  }

  lemma SweepHoldsCheckIns(c: Campus, t: Tables, call: Call)
    requires Enabled(c, t, call) && call.DoSweepHolds?
    ensures Apply(c, t, call).checkIns == t.checkIns
  {
    BatchesDue(c, t, call);
    ExpirePassCheckIns(c, t.(bookings := Marked(t.bookings, Ids(call.holds), Cancelled)), call.holds, call.now, call.locked);
  }

  lemma SweepCheckInsCheckIns(c: Campus, t: Tables, call: Call)
    requires Enabled(c, t, call) && call.DoSweepCheckIns?
    ensures Apply(c, t, call).checkIns == t.checkIns
  {
    BatchesDue(c, t, call);
    CompletedRows(t, call.attended);
    var u := Complete(t, call.attended);
    NoShowPassCheckIns(c, u.(bookings := Marked(u.bookings, Ids(call.absent), NoShow)), call.absent, call.now, call.locked);
  }

  /** Nothing but a check-in that was answered Done makes a check-in, and nothing removes one. */
  lemma EveryCheckInHasItsCause(c: Campus, t: Tables, call: Call)
    requires ValidCampus(c) && Reachable(c, t) && Enabled(c, t, call)
    ensures Apply(c, t, call).checkIns == t.checkIns + CheckInMade(c, t, call)
  {
    match call
    case DoCancel(i, actor, manager, now, locked) => CancelCheckIns(c, t, i, actor, manager, now, locked);
    case DoSweepHolds(_, _, _) => SweepHoldsCheckIns(c, t, call);
    case DoSweepCheckIns(_, _, _, _) => SweepCheckInsCheckIns(c, t, call);
    case DoCreate(r, now, ks) => CreateCheckIns(c, t, r, now, ks);
    case DoRedeem(i, actor, ok, now) => RedeemExact(c, t, i, actor, ok, now);
    case _ =>
  }
}
