/** What holds of the tables in every reachable state. */
module Invariants {
  import opened Model
  import opened Grid
  import opened Statements
  import opened Transitions

  // ----------------------------------------------------------------- the rows

  /** The foreign key and CHECK constraints of a booking row, and the grid rule for
      a student's row on a shared facility. */
  ghost predicate RowOk(c: Campus, b: Booking)
  {
    && b.facility in c.facilities && b.exclusive == c.facilities[b.facility].exclusive
    && b.start < b.end
    && (b.status == Blocked ==> b.user == None)
    && (b.user == None ==> (b.status == Blocked || b.status == Cancelled) && b.key == None)
    && HeldCheck(b)
    && (b.status == Held ==> b.exclusive)
    && (!b.exclusive && b.user.Some? ==> OnGrid(c.facilities[b.facility], c.zone, b.start, b.end))
  }

  ghost predicate Rows(c: Campus, bs: seq<Booking>)
  {
    forall i :: 0 <= i < |bs| ==> RowOk(c, bs[i])
  }

  // --------------------------------------------------------- no double booking

  ghost predicate Apart(a: Booking, b: Booking)
  {
    a.facility == b.facility && Holding(a) && Holding(b) ==> !Overlaps(a.start, a.end, b.start, b.end)
  }

  /** no_double_book. */
  ghost predicate NoDoubleBooking(bs: seq<Booking>)
  {
    forall i, j :: 0 <= i < j < |bs| ==> Apart(bs[i], bs[j])
  }

  /** uq_bookings_user_idem. */
  ghost predicate KeysUnique(bs: seq<Booking>)
  {
    forall i, j :: 0 <= i < j < |bs| && bs[i].key.Some? && bs[i].key == bs[j].key ==> bs[i].user != bs[j].user
  }

  // ----------------------------------------------------------------- counters

  /** Row b accounts for one place in block k. */
  ghost predicate TakesPlace(c: Campus, b: Booking, k: SlotKey)
  {
    && Counted(b) && b.facility == k.facility && b.facility in c.facilities
    && Has(SlotsFor(c.facilities[b.facility].granularity, b.start, b.end), k.start)
  }

  ghost function Holders(c: Campus, bs: seq<Booking>, k: SlotKey): set<nat>
  {
    set i: nat | i < |bs| && TakesPlace(c, bs[i], k)
  }

  ghost predicate SharedBlock(c: Campus, k: SlotKey)
  {
    && k.facility in c.facilities && !c.facilities[k.facility].exclusive
    && c.facilities[k.facility].granularity > 0
    && IsBlock(c.facilities[k.facility], c.zone, k.start)
  }

  ghost predicate ClosedBlock(c: Campus, bs: seq<Booking>, k: SlotKey)
    requires k.facility in c.facilities
  {
    BlockedOver(bs, k.facility, k.start, k.start + c.facilities[k.facility].granularity)
  }

  /** The counter row of a block: places taken are the bookings that hold one, never more
      than declared, and the capacity is zero exactly while a closure stands over the block.
      A block without a row holds no booking and no closure. */
  ghost predicate CounterOk(c: Campus, bs: seq<Booking>, cap: map<SlotKey, Counter>, k: SlotKey)
  {
    if k in cap then
      && SharedBlock(c, k)
      && cap[k].end == k.start + c.facilities[k.facility].granularity
      && cap[k].booked == |Holders(c, bs, k)|
      && cap[k].booked <= c.facilities[k.facility].capacity
      && cap[k].capacity == (if ClosedBlock(c, bs, k) then 0 else c.facilities[k.facility].capacity)
    else
      && Holders(c, bs, k) == {}
      && (SharedBlock(c, k) ==> !ClosedBlock(c, bs, k))
  }

  ghost predicate Counters(c: Campus, bs: seq<Booking>, cap: map<SlotKey, Counter>)
  {
    forall k: SlotKey :: CounterOk(c, bs, cap, k)
  }

  // ---------------------------------------------------------------- audit log

  /** The status that replaying the audit log gives booking i. */
  ghost function LoggedStatus(events: seq<Event>, i: nat): Option<Status>
  {
    if |events| == 0 then None
    else
      var e := events[|events| - 1];
      if e.booking == i then Some(e.to) else LoggedStatus(events[..|events| - 1], i)
  }

  /** The lifecycle of a booking row. */
  predicate Lawful(from: Option<Status>, to: Status)
  {
    match from
    case None => to == Confirmed || to == Held || to == Blocked
    case Some(Held) => to == Confirmed || to == Cancelled
    case Some(Confirmed) => to == Cancelled || to == NoShow || to == Completed
    case Some(Blocked) => to == Cancelled
    case Some(_) => false
  }

  /** Every event starts where the one before it for the same booking ended. */
  ghost predicate Chained(events: seq<Event>)
  {
    |events| > 0 ==>
      var e := events[|events| - 1];
      && e.from == LoggedStatus(events[..|events| - 1], e.booking)
      && Lawful(e.from, e.to)
      && Chained(events[..|events| - 1])
  }

  ghost predicate Audit(bs: seq<Booking>, events: seq<Event>)
  {
    && Chained(events)
    && (forall k :: 0 <= k < |events| ==> events[k].booking < |bs|)
    && forall i: nat :: i < |bs| ==> LoggedStatus(events, i) == Some(bs[i].status)
  }

  // ------------------------------------------------------------------- outbox

  /** The outbox row a transition owes, if any. */
  function TopicOf(e: Event): Option<Topic>
  {
    match e.to
    case Confirmed => Some(BookingConfirmed)
    case Held => Some(WaitlistPromoted)
    case Blocked => Some(ClosureCreated)
    case Cancelled => Some(if e.from == Some(Held) then WaitlistExpired else BookingCancelled)
    case NoShow => Some(BookingNoShow)
    case Completed => None
  }

  ghost function Owed(events: seq<Event>, i: nat, topic: Topic): nat
  {
    if |events| == 0 then 0
    else
      var e := events[|events| - 1];
      Owed(events[..|events| - 1], i, topic) + if e.booking == i && TopicOf(e) == Some(topic) then 1 else 0
  }

  ghost function Sent(outbox: seq<Message>, i: nat, topic: Topic): nat
  {
    if |outbox| == 0 then 0
    else
      var m := outbox[|outbox| - 1];
      Sent(outbox[..|outbox| - 1], i, topic) + if m.booking == i && m.topic == topic then 1 else 0
  }

  /** One outbox row for each transition that owes one. */
  ghost predicate Balanced(events: seq<Event>, outbox: seq<Message>)
  {
    forall i: nat, topic: Topic :: Sent(outbox, i, topic) == Owed(events, i, topic)
  }

  ghost predicate Truthful(bs: seq<Booking>, m: Message)
  {
    m.booking < |bs| && m.facility == bs[m.booking].facility && m.start == bs[m.booking].start && m.end == bs[m.booking].end
  }

  ghost predicate AllTruthful(bs: seq<Booking>, outbox: seq<Message>)
  {
    forall k :: 0 <= k < |outbox| ==> Truthful(bs, outbox[k])
  }

  // ----------------------------------------------------------------- waitlist

  /** What an entry's status says about the booking it was offered. */
  ghost predicate EntryOk(c: Campus, bs: seq<Booking>, e: Entry)
  {
    && e.facility in c.facilities && c.facilities[e.facility].exclusive
    && e.start < e.end
    && (e.booking.None? <==> e.status == Waiting || e.status == Left)
    && (e.booking.Some? ==>
          && e.booking.value < |bs|
          && var b := bs[e.booking.value];
             && b.user == Some(e.user) && b.facility == e.facility
             && Overlaps(b.start, b.end, e.start, e.end)
             && (e.status == Promoted <==> b.status == Held)
             && (e.status == Expired ==> b.status == Cancelled))
  }

  ghost predicate Entries(c: Campus, bs: seq<Booking>, entries: seq<Entry>)
  {
    forall w :: 0 <= w < |entries| ==> EntryOk(c, bs, entries[w])
  }

  ghost predicate OffersDistinct(entries: seq<Entry>)
  {
    forall v, w :: 0 <= v < w < |entries| && entries[v].booking.Some? ==> entries[v].booking != entries[w].booking
  }

  ghost predicate Offers(entries: seq<Entry>, i: nat)
  {
    exists w :: 0 <= w < |entries| && entries[w].booking == Some(i)
  }

  ghost predicate HoldsOffered(bs: seq<Booking>, entries: seq<Entry>)
  {
    forall i: nat :: i < |bs| && bs[i].status == Held ==> Offers(entries, i)
  }

  ghost predicate Live(e: Entry)
  {
    e.status == Waiting || e.status == Promoted
  }

  /** uq_waitlist_live. */
  ghost predicate LiveUnique(entries: seq<Entry>)
  {
    forall v, w :: 0 <= v < w < |entries| && Live(entries[v]) && Live(entries[w]) ==>
      !(entries[v].facility == entries[w].facility && entries[v].user == entries[w].user
        && entries[v].start == entries[w].start && entries[v].end == entries[w].end)
  }

  ghost predicate Queue(c: Campus, bs: seq<Booking>, entries: seq<Entry>)
  {
    Entries(c, bs, entries) && OffersDistinct(entries) && HoldsOffered(bs, entries) && LiveUnique(entries)
  }

  // --------------------------------------------------------------- attendance

  /** Who checked in was confirmed; a no-show never did; a completed booking did. */
  ghost predicate Attendance(bs: seq<Booking>, checkIns: set<nat>)
  {
    && (forall i :: i in checkIns ==> i < |bs| && (bs[i].status == Confirmed || bs[i].status == Cancelled || bs[i].status == Completed))
    && forall i: nat :: i < |bs| && bs[i].status == Completed ==> i in checkIns
  }

  // ------------------------------------------------------------ the invariant

  ghost predicate Inv(c: Campus, t: Tables)
  {
    && Rows(c, t.bookings)
    && NoDoubleBooking(t.bookings)
    && KeysUnique(t.bookings)
    && Counters(c, t.bookings, t.capacity)
    && Audit(t.bookings, t.events)
    && Balanced(t.events, t.outbox)
    && AllTruthful(t.bookings, t.outbox)
    && Queue(c, t.bookings, t.waitlist)
    && Attendance(t.bookings, t.checkIns)
  }
}
