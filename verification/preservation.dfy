/** Every service call keeps the invariant. The sweeps are treated one booking at a time
    here; module Batches shows that a batch pass is exactly that. */
module Preservation {
  import opened Model
  import opened Grid
  import opened Statements
  import opened Transitions
  import opened Invariants
  import opened CounterLemmas

  // ------------------------------------------------------ audit log and outbox

  lemma {:induction false} LoggedStatusUnknown(events: seq<Event>, i: nat)
    requires forall k :: 0 <= k < |events| ==> events[k].booking != i
    ensures LoggedStatus(events, i) == None
  {
    if |events| > 0 { LoggedStatusUnknown(events[..|events| - 1], i); }
  }

  lemma LoggedStatusAppend(events: seq<Event>, e: Event, i: nat)
    ensures LoggedStatus(events + [e], i) == if e.booking == i then Some(e.to) else LoggedStatus(events, i)
  {
    assert (events + [e])[..|events|] == events;
  }

  lemma ChainedAppend(events: seq<Event>, e: Event)
    requires Chained(events) && e.from == LoggedStatus(events, e.booking) && Lawful(e.from, e.to)
    ensures Chained(events + [e])
  {
    assert (events + [e])[..|events|] == events;
  }

  lemma AuditOpened(bs: seq<Booking>, events: seq<Event>, row: Booking)
    requires Audit(bs, events) && Lawful(None, row.status)
    ensures Audit(bs + [row], events + [Event(|bs|, None, row.status)])
  {
    var e := Event(|bs|, None, row.status);
    LoggedStatusUnknown(events, |bs|);
    ChainedAppend(events, e);
    forall i: nat | i < |bs| + 1 ensures LoggedStatus(events + [e], i) == Some((bs + [row])[i].status) {
      LoggedStatusAppend(events, e, i);
    }
  }

  lemma AuditMoved(bs: seq<Booking>, events: seq<Event>, i: nat, to: Status)
    requires Audit(bs, events) && i < |bs| && Lawful(Some(bs[i].status), to)
    ensures Audit(Marked(bs, {i}, to), events + [Event(i, Some(bs[i].status), to)])
  {
    var e := Event(i, Some(bs[i].status), to);
    ChainedAppend(events, e);
    forall j: nat | j < |bs| ensures LoggedStatus(events + [e], j) == Some(Marked(bs, {i}, to)[j].status) {
      LoggedStatusAppend(events, e, j);
    }
  }

  lemma OwedAppend(events: seq<Event>, e: Event, i: nat, topic: Topic)
    ensures Owed(events + [e], i, topic) == Owed(events, i, topic) + if e.booking == i && TopicOf(e) == Some(topic) then 1 else 0
  {
    assert (events + [e])[..|events|] == events;
  }

  lemma SentAppend(outbox: seq<Message>, m: Message, i: nat, topic: Topic)
    ensures Sent(outbox + [m], i, topic) == Sent(outbox, i, topic) + if m.booking == i && m.topic == topic then 1 else 0
  {
    assert (outbox + [m])[..|outbox|] == outbox;
  }

  lemma BalancedBoth(events: seq<Event>, outbox: seq<Message>, e: Event, m: Message)
    requires Balanced(events, outbox) && TopicOf(e) == Some(m.topic) && e.booking == m.booking
    ensures Balanced(events + [e], outbox + [m])
  {
    forall i: nat, topic: Topic ensures Sent(outbox + [m], i, topic) == Owed(events + [e], i, topic) {
      OwedAppend(events, e, i, topic);
      SentAppend(outbox, m, i, topic);
    }
  }

  lemma BalancedQuiet(events: seq<Event>, outbox: seq<Message>, e: Event)
    requires Balanced(events, outbox) && TopicOf(e) == None
    ensures Balanced(events + [e], outbox)
  {
    forall i: nat, topic: Topic ensures Sent(outbox, i, topic) == Owed(events + [e], i, topic) {
      OwedAppend(events, e, i, topic);
    }
  }

  /** The order of the last two outbox rows does not matter to the balance. */
  lemma SentSwap(outbox: seq<Message>, m: Message, n: Message, i: nat, topic: Topic)
    ensures Sent(outbox + [m] + [n], i, topic) == Sent(outbox + [n] + [m], i, topic)
  {
    SentAppend(outbox + [m], n, i, topic);
    SentAppend(outbox, m, i, topic);
    SentAppend(outbox + [n], m, i, topic);
    SentAppend(outbox, n, i, topic);
  }

  lemma OutboxSwapped(bs: seq<Booking>, events: seq<Event>, outbox: seq<Message>, m: Message, n: Message)
    requires Balanced(events, outbox + [m] + [n]) && AllTruthful(bs, outbox + [m] + [n])
    ensures Balanced(events, outbox + [n] + [m]) && AllTruthful(bs, outbox + [n] + [m])
  {
    var u, v := outbox + [n] + [m], outbox + [m] + [n];
    forall j: nat, topic: Topic ensures Sent(u, j, topic) == Owed(events, j, topic) {
      SentSwap(outbox, m, n, j, topic);
      assert Sent(v, j, topic) == Owed(events, j, topic);
    }
    forall k | 0 <= k < |u| ensures Truthful(bs, u[k]) {
      var l := if k < |outbox| then k else if k == |outbox| then k + 1 else k - 1;
      assert u[k] == v[l];
    }
  }

  // ------------------------------------------------------------- the waitlist

  lemma QueueGrows(c: Campus, bs: seq<Booking>, entries: seq<Entry>, row: Booking)
    requires Queue(c, bs, entries) && row.status != Held
    ensures Queue(c, bs + [row], entries)
  {
    forall w | 0 <= w < |entries| ensures EntryOk(c, bs + [row], entries[w]) {
      assert EntryOk(c, bs, entries[w]);
    }
  }

  /** A booking that was not a hold changes status: its entry, if any, was claimed. */
  lemma QueueMoved(c: Campus, bs: seq<Booking>, entries: seq<Entry>, i: nat, to: Status)
    requires Queue(c, bs, entries) && i < |bs|
    requires bs[i].status != Held && bs[i].status != Cancelled && to != Held
    ensures Queue(c, Marked(bs, {i}, to), entries)
  {
    var bs' := Marked(bs, {i}, to);
    forall w | 0 <= w < |entries| ensures EntryOk(c, bs', entries[w]) {
      assert EntryOk(c, bs, entries[w]);
    }
  }

  /** A hold is claimed or expires together with its entry. */
  lemma QueueRetired(c: Campus, bs: seq<Booking>, entries: seq<Entry>, i: nat, to: Status, status: EntryStatus)
    requires Queue(c, bs, entries) && i < |bs| && bs[i].status == Held
    requires (to == Confirmed && status == EntryStatus.Claimed) || (to == Cancelled && status == EntryStatus.Expired)
    ensures Queue(c, Marked(bs, {i}, to), Retired(entries, i, status))
  {
    var bs', entries' := Marked(bs, {i}, to), Retired(entries, i, status);
    forall w | 0 <= w < |entries'| ensures EntryOk(c, bs', entries'[w]) {
      assert EntryOk(c, bs, entries[w]);
    }
    forall j: nat | j < |bs'| && bs'[j].status == Held ensures Offers(entries', j) {
      assert bs[j].status == Held && Offers(entries, j);
      var w :| 0 <= w < |entries| && entries[w].booking == Some(j);
      assert entries'[w].booking == Some(j);
    }
  }

  /** The claimed head of the queue gets the new hold. */
  lemma QueueOffered(c: Campus, bs: seq<Booking>, entries: seq<Entry>, w: nat, row: Booking)
    requires Queue(c, bs, entries) && w < |entries|
    requires Eligible(entries[w], row.facility, row.start, row.end)
    requires row.status == Held && row.user == Some(entries[w].user)
    ensures Queue(c, bs + [row], entries[w := entries[w].(status := Promoted, booking := Some(|bs|))])
  {
    var bs', entries' := bs + [row], entries[w := entries[w].(status := Promoted, booking := Some(|bs|))];
    forall v | 0 <= v < |entries'| ensures EntryOk(c, bs', entries'[v]) {
      assert EntryOk(c, bs, entries[v]);
    }
    forall u, v | 0 <= u < v < |entries'| && entries'[u].booking.Some? ensures entries'[u].booking != entries'[v].booking {
      assert EntryOk(c, bs, entries[u]) && EntryOk(c, bs, entries[v]);
    }
    forall j: nat | j < |bs'| && bs'[j].status == Held ensures Offers(entries', j) {
      if j < |bs| {
        assert bs[j].status == Held && Offers(entries, j);
        var v :| 0 <= v < |entries| && entries[v].booking == Some(j);
        assert EntryOk(c, bs, entries[w]);
        assert entries'[v].booking == Some(j);
      } else {
        assert entries'[w].booking == Some(j);
      }
    }
  }

  // ------------------------------------------------------------ the booking table

  lemma ConflictsAt(bs: seq<Booking>, f: FacilityId, start: Instant, end: Instant, i: nat)
    requires !Conflicts(bs, f, start, end) && i < |bs|
    ensures !(bs[i].facility == f && Holding(bs[i]) && Overlaps(bs[i].start, bs[i].end, start, end))
  {
  }

  lemma NoDoubleBookingOpened(bs: seq<Booking>, row: Booking)
    requires NoDoubleBooking(bs) && !(Holding(row) && Conflicts(bs, row.facility, row.start, row.end))
    ensures NoDoubleBooking(bs + [row])
  {
    var bs' := bs + [row];
    forall i, j | 0 <= i < j < |bs'| ensures Apart(bs'[i], bs'[j]) {
      if j == |bs| {
        if Holding(row) { ConflictsAt(bs, row.facility, row.start, row.end, i); }
      } else {
        assert Apart(bs[i], bs[j]);
      }
    }
  }

  lemma NoDoubleBookingMoved(bs: seq<Booking>, i: nat, to: Status)
    requires NoDoubleBooking(bs) && i < |bs|
    requires Holding(bs[i].(status := to, heldUntil := None)) ==> Holding(bs[i])
    ensures NoDoubleBooking(Marked(bs, {i}, to))
  {
    var bs' := Marked(bs, {i}, to);
    forall j, k | 0 <= j < k < |bs'| ensures Apart(bs'[j], bs'[k]) {
      assert Apart(bs[j], bs[k]);
    }
  }

  lemma TruthfulOpened(bs: seq<Booking>, outbox: seq<Message>, row: Booking, topic: Topic)
    requires AllTruthful(bs, outbox)
    ensures AllTruthful(bs + [row], outbox + [Message(topic, |bs|, row.facility, row.start, row.end)])
  {
    var outbox' := outbox + [Message(topic, |bs|, row.facility, row.start, row.end)];
    forall k | 0 <= k < |outbox'| ensures Truthful(bs + [row], outbox'[k]) {
      if k < |outbox| { assert Truthful(bs, outbox[k]); }
    }
  }

  lemma TruthfulMoved(bs: seq<Booking>, outbox: seq<Message>, i: nat, to: Status)
    requires AllTruthful(bs, outbox) && i < |bs|
    ensures AllTruthful(Marked(bs, {i}, to), outbox)
  {
    forall k | 0 <= k < |outbox| ensures Truthful(Marked(bs, {i}, to), outbox[k]) {
      assert Truthful(bs, outbox[k]);
    }
  }

  // ------------------------------------------------------------- opening a row

  /** The counters need their own argument; everything else about a new row is here. */
  lemma OpenedInv(c: Campus, t: Tables, row: Booking, topic: Topic, cap: CapacityTable)
    requires Inv(c, t) && RowOk(c, row) && row.status != Held
    requires Lawful(None, row.status) && TopicOf(Event(|t.bookings|, None, row.status)) == Some(topic)
    requires CheckInsert(t.bookings, row, true) == Admitted
    requires Counters(c, t.bookings + [row], cap)
    ensures Inv(c, Opened(t.(capacity := cap), row, topic))
  {
    NoDoubleBookingOpened(t.bookings, row);
    AuditOpened(t.bookings, t.events, row);
    BalancedBoth(t.events, t.outbox, Event(|t.bookings|, None, row.status), Message(topic, |t.bookings|, row.facility, row.start, row.end));
    TruthfulOpened(t.bookings, t.outbox, row, topic);
    QueueGrows(c, t.bookings, t.waitlist, row);
  }

  /** Offering a free window to the head of its queue keeps the invariant. */
  lemma PromoteInv(c: Campus, t: Tables, f: FacilityId, start: Instant, end: Instant, now: Instant, locked: Locked)
    requires Inv(c, t) && f in c.facilities && c.facilities[f].exclusive && start < end
    ensures Inv(c, Promote(c, t, f, start, end, now, locked))
  {
    ClaimHeadIsHead(t.waitlist, f, start, end, locked.entries);
    var head := ClaimHead(t.waitlist, f, start, end, locked.entries);
    if head.Some? && !Conflicts(t.bookings, f, start, end) {
      var w := head.value;
      var row := HeldRow(c, f, t.waitlist[w].user, start, end, now);
      NoDoubleBookingOpened(t.bookings, row);
      CountersAppendNeutral(c, t.bookings, t.capacity, row);
      AuditOpened(t.bookings, t.events, row);
      BalancedBoth(t.events, t.outbox, Event(|t.bookings|, None, Held), Message(WaitlistPromoted, |t.bookings|, f, start, end));
      TruthfulOpened(t.bookings, t.outbox, row, WaitlistPromoted);
      QueueOffered(c, t.bookings, t.waitlist, w, row);
    }
  }

  // ------------------------------------------------------------ moving a row

  lemma RowsMoved(c: Campus, bs: seq<Booking>, i: nat, to: Status)
    requires Rows(c, bs) && i < |bs| && RowOk(c, bs[i].(status := to, heldUntil := None))
    ensures Rows(c, Marked(bs, {i}, to))
  {
  }

  lemma KeysMoved(bs: seq<Booking>, i: nat, to: Status)
    requires KeysUnique(bs) && i < |bs|
    ensures KeysUnique(Marked(bs, {i}, to))
  {
  }

  ghost predicate MayMove(t: Tables, i: nat, to: Status)
  {
    && i < |t.bookings| && Lawful(Some(t.bookings[i].status), to)
    && (to == Completed ==> i in t.checkIns)
    && (to == NoShow ==> i !in t.checkIns)
  }

  lemma AttendanceMoved(t: Tables, i: nat, to: Status)
    requires Attendance(t.bookings, t.checkIns) && MayMove(t, i, to)
    ensures Attendance(Marked(t.bookings, {i}, to), t.checkIns)
  {
  }

  /** Booking i in its new status, with the counters and queue that go with it. */
  function Moved(t: Tables, i: nat, to: Status, cap: CapacityTable, entries: seq<Entry>): Tables
    requires i < |t.bookings|
  {
    Logged(t.(bookings := Marked(t.bookings, {i}, to), capacity := cap, waitlist := entries), i, t.bookings[i].status, to)
  }

  /** What every status change has in common, when it owes an outbox row. */
  lemma MovedInv(c: Campus, t: Tables, i: nat, to: Status, topic: Topic, cap: CapacityTable, entries: seq<Entry>)
    requires Inv(c, t) && MayMove(t, i, to)
    requires TopicOf(Event(i, Some(t.bookings[i].status), to)) == Some(topic)
    requires Counters(c, Marked(t.bookings, {i}, to), cap)
    requires Queue(c, Marked(t.bookings, {i}, to), entries)
    ensures Inv(c, Announced(Moved(t, i, to, cap, entries), topic, i))
  {
    assert RowOk(c, t.bookings[i]);
    RowsMoved(c, t.bookings, i, to);
    KeysMoved(t.bookings, i, to);
    AttendanceMoved(t, i, to);
    NoDoubleBookingMoved(t.bookings, i, to);
    AuditMoved(t.bookings, t.events, i, to);
    var m := MessageFor(Moved(t, i, to, cap, entries), topic, i);
    BalancedBoth(t.events, t.outbox, Event(i, Some(t.bookings[i].status), to), m);
    TruthfulMoved(t.bookings, t.outbox, i, to);
    TruthfulAppend(Marked(t.bookings, {i}, to), t.outbox, m);
  }

  lemma TruthfulAppend(bs: seq<Booking>, outbox: seq<Message>, m: Message)
    requires AllTruthful(bs, outbox) && Truthful(bs, m)
    ensures AllTruthful(bs, outbox + [m])
  {
  }

  /** A confirmed booking gives up its window: status, audit, counters, outbox. */
  function Vacate(c: Campus, t: Tables, i: nat, to: Status, topic: Topic): Tables
    requires i < |t.bookings| && t.bookings[i].facility in c.facilities
  {
    Announced(Released(c, Logged(t.(bookings := Marked(t.bookings, {i}, to)), i, Confirmed, to), i), topic, i)
  }

  lemma VacateInv(c: Campus, t: Tables, i: nat, to: Status, topic: Topic)
    requires ValidCampus(c) && Inv(c, t) && i < |t.bookings| && t.bookings[i].status == Confirmed
    requires (to == Cancelled && topic == BookingCancelled) || (to == NoShow && topic == BookingNoShow && i !in t.checkIns)
    requires t.bookings[i].facility in c.facilities
    ensures Inv(c, Vacate(c, t, i, to, topic))
  {
    CountersReleased(c, t, i, to);
    QueueMoved(c, t.bookings, t.waitlist, i, to);
    MovedInv(c, t, i, to, topic, Released(c, t, i).capacity, t.waitlist);
  }

  lemma ReofferedInv(c: Campus, t: Tables, i: nat, now: Instant, locked: Locked)
    requires Inv(c, t) && i < |t.bookings|
    ensures Inv(c, Reoffered(c, t, i, now, locked))
  {
    assert RowOk(c, t.bookings[i]);
    if c.promoting && t.bookings[i].exclusive {
      PromoteInv(c, t, t.bookings[i].facility, t.bookings[i].start, t.bookings[i].end, now, locked);
    }
  }

  /** The tables of a cancel that went through. */
  function CancelledTables(c: Campus, t: Tables, i: nat, now: Instant, locked: Locked): Tables
    requires i < |t.bookings| && t.bookings[i].facility in c.facilities
  {
    var freed := Logged(Released(c, t.(bookings := Marked(t.bookings, {i}, Cancelled)), i), i, Confirmed, Cancelled);
    Announced(Reoffered(c, freed, i, now, locked), BookingCancelled, i)
  }

  /** A cancel goes through only from CONFIRMED, given the CHECK: of the two statuses its
      UPDATE matches, the other one has a held_until that the UPDATE leaves behind. */
  lemma CancelDone(c: Campus, t: Tables, i: nat, actor: UserId, manager: bool, now: Instant, locked: Locked)
    requires i < |t.bookings| ==> t.bookings[i].facility in c.facilities && HeldCheck(t.bookings[i])
    requires Cancel(c, t, i, actor, manager, now, locked).outcome.Done?
    ensures i < |t.bookings| && t.bookings[i].status == Confirmed
    ensures Cancel(c, t, i, actor, manager, now, locked) == Step(CancelledTables(c, t, i, now, locked), Done(i))
  {
    assert t.bookings[i := CancelUpdate(t.bookings[i]).value] == Marked(t.bookings, {i}, Cancelled);
  }

  /** Cancel is vacate-then-reoffer, except that its own outbox row comes last. */
  lemma CancelIsVacate(c: Campus, t: Tables, i: nat, now: Instant, locked: Locked)
    requires i < |t.bookings| && t.bookings[i].facility in c.facilities && t.bookings[i].status == Confirmed
    ensures var u := CancelledTables(c, t, i, now, locked);
            var v := Reoffered(c, Vacate(c, t, i, Cancelled, BookingCancelled), i, now, locked);
            && u.(outbox := v.outbox) == v
            && ((u.outbox == v.outbox && u == Vacate(c, t, i, Cancelled, BookingCancelled)) ||
                exists m :: v.outbox == t.outbox + [MessageFor(t, BookingCancelled, i)] + [m]
                         && u.outbox == t.outbox + [m] + [MessageFor(t, BookingCancelled, i)])
  {
    var freed := Logged(Released(c, t.(bookings := Marked(t.bookings, {i}, Cancelled)), i), i, Confirmed, Cancelled);
    var u := Announced(Reoffered(c, freed, i, now, locked), BookingCancelled, i);
    var v := Reoffered(c, Vacate(c, t, i, Cancelled, BookingCancelled), i, now, locked);
    assert Vacate(c, t, i, Cancelled, BookingCancelled) == freed.(outbox := t.outbox + [MessageFor(t, BookingCancelled, i)]);
    if |v.bookings| > |t.bookings| {
      var b := t.bookings[i];
      var m := Message(WaitlistPromoted, |t.bookings|, b.facility, b.start, b.end);
      assert v.outbox == t.outbox + [MessageFor(t, BookingCancelled, i)] + [m];
      assert u.outbox == t.outbox + [m] + [MessageFor(t, BookingCancelled, i)];
    }
  }

  lemma CancelInv(c: Campus, t: Tables, i: nat, actor: UserId, manager: bool, now: Instant, locked: Locked)
    requires ValidCampus(c) && Inv(c, t)
    requires i < |t.bookings| ==> t.bookings[i].facility in c.facilities
    ensures Inv(c, Cancel(c, t, i, actor, manager, now, locked).tables)
  {
    if i < |t.bookings| {
      assert RowOk(c, t.bookings[i]);
    }
    if Cancel(c, t, i, actor, manager, now, locked).outcome.Done? {
      CancelDone(c, t, i, actor, manager, now, locked);
      VacateInv(c, t, i, Cancelled, BookingCancelled);
      ReofferedInv(c, Vacate(c, t, i, Cancelled, BookingCancelled), i, now, locked);
      CancelIsVacate(c, t, i, now, locked);
      var u := Cancel(c, t, i, actor, manager, now, locked).tables;
      var v := Reoffered(c, Vacate(c, t, i, Cancelled, BookingCancelled), i, now, locked);
      if u != v {
        var own := MessageFor(t, BookingCancelled, i);
        var m :| v.outbox == t.outbox + [own] + [m] && u.outbox == t.outbox + [m] + [own];
        OutboxSwapped(v.bookings, v.events, t.outbox, own, m);
        assert u == v.(outbox := u.outbox);
      }
    }
  }

  lemma ClaimInv(c: Campus, t: Tables, i: nat, actor: UserId, now: Instant)
    requires Inv(c, t)
    ensures Inv(c, Claim(t, i, actor, now).tables)
  {
    if Claim(t, i, actor, now).outcome.Done? {
      CountersMoveNeutral(c, t.bookings, t.capacity, i, Confirmed);
      QueueRetired(c, t.bookings, t.waitlist, i, Confirmed, EntryStatus.Claimed);
      MovedInv(c, t, i, Confirmed, BookingConfirmed, t.capacity, Retired(t.waitlist, i, EntryStatus.Claimed));
    }
  }

  // --------------------------------------------------- one booking of a sweep

  function ExpireOne(c: Campus, t: Tables, i: nat, now: Instant, locked: Locked): Tables
    requires i < |t.bookings|
  {
    ExpireBody(c, t.(bookings := Marked(t.bookings, {i}, Cancelled)), i, now, locked)
  }

  lemma ExpireOneInv(c: Campus, t: Tables, i: nat, now: Instant, locked: Locked)
    requires Inv(c, t) && i < |t.bookings| && t.bookings[i].status == Held
    ensures Inv(c, ExpireOne(c, t, i, now, locked))
  {
    var b := t.bookings[i];
    assert RowOk(c, b);
    var u := Announced(Logged(t.(bookings := Marked(t.bookings, {i}, Cancelled), waitlist := Retired(t.waitlist, i, EntryStatus.Expired)),
                              i, Held, Cancelled), WaitlistExpired, i);
    CountersMoveNeutral(c, t.bookings, t.capacity, i, Cancelled);
    QueueRetired(c, t.bookings, t.waitlist, i, Cancelled, EntryStatus.Expired);
    MovedInv(c, t, i, Cancelled, WaitlistExpired, t.capacity, Retired(t.waitlist, i, EntryStatus.Expired));
    PromoteInv(c, u, b.facility, b.start, b.end, now, locked);
  }

  function CompleteOne(t: Tables, i: nat): Tables
    requires i < |t.bookings|
  {
    Logged(t.(bookings := Marked(t.bookings, {i}, Completed)), i, Confirmed, Completed)
  }

  lemma CompleteOneInv(c: Campus, t: Tables, i: nat)
    requires Inv(c, t) && i < |t.bookings| && t.bookings[i].status == Confirmed && i in t.checkIns
    ensures Inv(c, CompleteOne(t, i))
  {
    assert RowOk(c, t.bookings[i]);
    RowsMoved(c, t.bookings, i, Completed);
    KeysMoved(t.bookings, i, Completed);
    AttendanceMoved(t, i, Completed);
    NoDoubleBookingMoved(t.bookings, i, Completed);
    CountersMoveNeutral(c, t.bookings, t.capacity, i, Completed);
    AuditMoved(t.bookings, t.events, i, Completed);
    BalancedQuiet(t.events, t.outbox, Event(i, Some(Confirmed), Completed));
    TruthfulMoved(t.bookings, t.outbox, i, Completed);
    QueueMoved(c, t.bookings, t.waitlist, i, Completed);
  }

  function NoShowOne(c: Campus, t: Tables, i: nat, now: Instant, locked: Locked): Tables
    requires i < |t.bookings| && t.bookings[i].facility in c.facilities
  {
    NoShowBody(c, t.(bookings := Marked(t.bookings, {i}, NoShow)), i, now, locked)
  }

  lemma NoShowOneInv(c: Campus, t: Tables, i: nat, now: Instant, locked: Locked)
    requires ValidCampus(c) && Inv(c, t) && i < |t.bookings| && t.bookings[i].status == Confirmed && i !in t.checkIns
    requires t.bookings[i].facility in c.facilities
    ensures Inv(c, NoShowOne(c, t, i, now, locked))
  {
    VacateInv(c, t, i, NoShow, BookingNoShow);
    ReofferedInv(c, Vacate(c, t, i, NoShow, BookingNoShow), i, now, locked);
  }

  // ----------------------------------------------------------- the other calls

  lemma CreateInv(c: Campus, t: Tables, r: Request, now: Instant, ks: seq<Conditions>)
    requires ValidCampus(c) && Inv(c, t)
    ensures Inv(c, Create(c, t, r, now, ks).tables)
  {
    if r.facility in c.facilities && Validate(c.facilities[r.facility], c.zone, r.user, r.start, r.duration, now) == None {
      AttemptsInv(c, t, r, now, ks);
    }
  }

  lemma {:induction false} AttemptsInv(c: Campus, t: Tables, r: Request, now: Instant, ks: seq<Conditions>)
    requires ValidCampus(c) && Inv(c, t) && r.facility in c.facilities
    requires Validate(c.facilities[r.facility], c.zone, r.user, r.start, r.duration, now) == None
    ensures Inv(c, Attempts(c.facilities[r.facility], t, r, ks).tables)
    decreases |ks|
  {
    if |ks| > 0 {
      AttemptInv(c, t, r, now, ks[0]);
      AttemptsInv(c, Attempt(c.facilities[r.facility], t, r, ks[0]).tables, r, now, ks[1..]);
    }
  }

  lemma AttemptExclusiveInv(c: Campus, t: Tables, r: Request, k: Conditions)
    requires ValidCampus(c) && Inv(c, t) && r.facility in c.facilities && c.facilities[r.facility].exclusive
    requires r.user != NIL_USER && r.duration > 0
    ensures Inv(c, AttemptExclusive(t, r, k).tables)
  {
    if AttemptExclusive(t, r, k).outcome.Created? {
      var row := RowOf(r, true);
      CountersAppendNeutral(c, t.bookings, t.capacity, row);
      OpenedInv(c, t, row, BookingConfirmed, t.capacity);
      assert t.(capacity := t.capacity) == t;
    }
  }

  lemma AttemptSharedInv(c: Campus, t: Tables, r: Request, k: Conditions)
    requires ValidCampus(c) && Inv(c, t) && r.facility in c.facilities && !c.facilities[r.facility].exclusive
    requires OnGrid(c.facilities[r.facility], c.zone, r.start, r.start + r.duration)
    ensures Inv(c, AttemptShared(c.facilities[r.facility], t, r, k).tables)
  {
    var f := c.facilities[r.facility];
    if AttemptShared(f, t, r, k).outcome.Created? {
      var row := RowOf(r, false);
      CountersTaken(c, t.bookings, t.capacity, row);
      OpenedInv(c, t, row, BookingConfirmed, TakeAll(t.capacity, r.facility, SlotsFor(f.granularity, row.start, row.end), f.capacity).value);
    }
  }

  lemma AttemptInv(c: Campus, t: Tables, r: Request, now: Instant, k: Conditions)
    requires ValidCampus(c) && Inv(c, t) && r.facility in c.facilities
    requires Validate(c.facilities[r.facility], c.zone, r.user, r.start, r.duration, now) == None
    ensures Inv(c, Attempt(c.facilities[r.facility], t, r, k).tables)
  {
    var f := c.facilities[r.facility];
    if f.exclusive {
      AttemptExclusiveInv(c, t, r, k);
    } else {
      ValidateOnGrid(f, c.zone, r.user, r.start, r.duration, now);
      AttemptSharedInv(c, t, r, k);
    }
  }

  lemma JoinInv(c: Campus, t: Tables, user: UserId, f: FacilityId, start: Instant, end: Instant, priority: int)
    requires Inv(c, t)
    ensures Inv(c, Join(c, t, user, f, start, end, priority).tables)
  {
    var s := Join(c, t, user, f, start, end, priority);
    if s.outcome.Created? {
      var entries, entries' := t.waitlist, s.tables.waitlist;
      forall w | 0 <= w < |entries'| ensures EntryOk(c, t.bookings, entries'[w]) {
        if w < |entries| { assert EntryOk(c, t.bookings, entries[w]); }
      }
      forall j: nat | j < |t.bookings| && t.bookings[j].status == Held ensures Offers(entries', j) {
        assert Offers(entries, j);
        var w :| 0 <= w < |entries| && entries[w].booking == Some(j);
        assert entries'[w].booking == Some(j);
      }
    }
  }

  lemma LeaveInv(c: Campus, t: Tables, w: nat, actor: UserId)
    requires Inv(c, t)
    ensures Inv(c, Leave(t, w, actor).tables)
  {
    var s := Leave(t, w, actor);
    if s.outcome.Done? {
      var entries, entries' := t.waitlist, s.tables.waitlist;
      forall v | 0 <= v < |entries'| ensures EntryOk(c, t.bookings, entries'[v]) {
        assert EntryOk(c, t.bookings, entries[v]);
      }
      forall j: nat | j < |t.bookings| && t.bookings[j].status == Held ensures Offers(entries', j) {
        assert Offers(entries, j);
        var v :| 0 <= v < |entries| && entries[v].booking == Some(j);
        assert EntryOk(c, t.bookings, entries[w]);
        assert entries'[v].booking == Some(j);
      }
    }
  }

  lemma RedeemInv(c: Campus, t: Tables, i: nat, actor: UserId, tokenValid: bool, now: Instant)
    requires Inv(c, t)
    ensures Inv(c, Redeem(c, t, i, actor, tokenValid, now).tables)
  {
  }

  lemma CreateClosureInv(c: Campus, t: Tables, f: FacilityId, actor: UserId, start: Instant, end: Instant)
    requires ValidCampus(c) && Inv(c, t)
    ensures Inv(c, CreateClosure(c, t, f, actor, start, end).tables)
  {
    var s := CreateClosure(c, t, f, actor, start, end);
    if s.outcome.Created? {
      var fac := c.facilities[f];
      var row := Booking(f, None, fac.exclusive, start, end, Blocked, None, None);
      if fac.exclusive {
        CountersAppendNeutral(c, t.bookings, t.capacity, row);
        OpenedInv(c, t, row, ClosureCreated, t.capacity);
      } else {
        CountersZeroed(c, t.bookings, t.capacity, row);
        OpenedInv(c, t, row, ClosureCreated, ZeroAll(t.capacity, f, ClosureSlots(fac, c.zone, start, end)));
      }
    }
  }

  lemma ReopenIsMove(c: Campus, t: Tables, i: nat, actor: UserId)
    requires i < |t.bookings| ==> t.bookings[i].facility in c.facilities
    requires Reopen(c, t, i, actor).outcome.Done?
    ensures i < |t.bookings| && t.bookings[i].status == Blocked && t.bookings[i].user.None?
    ensures var u := Reopen(c, t, i, actor).tables;
            u == Announced(Moved(t, i, Cancelled, u.capacity, t.waitlist), BookingCancelled, i)
  {
  }

  lemma ReopenCounters(c: Campus, t: Tables, i: nat, actor: UserId)
    requires ValidCampus(c) && Rows(c, t.bookings) && Counters(c, t.bookings, t.capacity)
    requires i < |t.bookings| && t.bookings[i].facility in c.facilities && Reopen(c, t, i, actor).outcome.Done?
    ensures Counters(c, Marked(t.bookings, {i}, Cancelled), Reopen(c, t, i, actor).tables.capacity)
  {
    ReopenIsMove(c, t, i, actor);
    assert RowOk(c, t.bookings[i]);
    if t.bookings[i].exclusive {
      CountersReopenExclusive(c, t.bookings, t.capacity, i);
    } else {
      CountersRestored(c, t.bookings, t.capacity, i);
    }
  }

  lemma ReopenInv(c: Campus, t: Tables, i: nat, actor: UserId)
    requires ValidCampus(c) && Inv(c, t)
    requires i < |t.bookings| ==> t.bookings[i].facility in c.facilities
    ensures Inv(c, Reopen(c, t, i, actor).tables)
  {
    if Reopen(c, t, i, actor).outcome.Done? {
      ReopenIsMove(c, t, i, actor);
      ReopenCounters(c, t, i, actor);
      ReopenMoved(c, t, i, Reopen(c, t, i, actor).tables.capacity);
    }
  }

  lemma ReopenMoved(c: Campus, t: Tables, i: nat, cap: CapacityTable)
    requires Inv(c, t) && i < |t.bookings| && t.bookings[i].status == Blocked && t.bookings[i].user.None?
    requires Counters(c, Marked(t.bookings, {i}, Cancelled), cap)
    ensures Inv(c, Announced(Moved(t, i, Cancelled, cap, t.waitlist), BookingCancelled, i))
  {
    assert RowOk(c, t.bookings[i]);
    QueueMoved(c, t.bookings, t.waitlist, i, Cancelled);
    MovedInv(c, t, i, Cancelled, BookingCancelled, cap, t.waitlist);
  }
}
