/** The booking database: facility configuration, the rows of the six tables, and
    the small vocabulary (statuses, topics, overlap) every other module uses.

    Instants and durations are integers in nanoseconds. A row's id is its index in
    its table, which is also the order in which the rows were inserted. */
module Model {

  datatype Option<+T> = None | Some(value: T)

  type FacilityId = nat
  type UserId = nat
  type Instant = int

  const NIL_USER: UserId := 0
  const SECOND: int := 1_000_000_000
  const DAY: int := 86_400_000_000_000

  datatype Facility = Facility(
    active: bool, exclusive: bool, capacity: int,
    opens: int, closes: int, granularity: int,
    minDuration: int, maxDuration: int)

  /** Everything that is fixed for the life of the system: the catalogue, the offset
      of the campus zone, the claim window, the check-in window, and whether a
      waitlist is wired to the cancel and no-show paths. */
  datatype Campus = Campus(
    facilities: map<FacilityId, Facility>, zone: int,
    ttl: int, early: int, grace: int, promoting: bool)

  /** The CHECK constraints of the facilities table, plus a positive granularity
      wherever a facility is counted slot by slot. */
  ghost predicate ValidFacility(f: Facility)
  {
    && f.capacity >= 1
    && 0 <= f.opens < f.closes <= DAY
    && f.exclusive == (f.capacity == 1)
    && (!f.exclusive ==> f.granularity > 0)
  }

  ghost predicate ValidCampus(c: Campus)
  {
    forall f :: f in c.facilities ==> ValidFacility(c.facilities[f])
  }

  datatype Status = Confirmed | Held | Blocked | Cancelled | NoShow | Completed

  datatype Booking = Booking(
    facility: FacilityId, user: Option<UserId>, exclusive: bool,
    start: Instant, end: Instant, status: Status,
    key: Option<string>, heldUntil: Option<Instant>)

  datatype EntryStatus = Waiting | Promoted | Claimed | Expired | Left

  datatype Entry = Entry(
    facility: FacilityId, user: UserId, start: Instant, end: Instant,
    priority: int, status: EntryStatus, booking: Option<nat>)

  datatype SlotKey = SlotKey(facility: FacilityId, start: Instant)

  datatype Counter = Counter(end: Instant, capacity: int, booked: int)

  /** A row of booking_events; from is None for a new booking row. */
  datatype Event = Event(booking: nat, from: Option<Status>, to: Status)

  datatype Topic = BookingConfirmed | BookingCancelled | WaitlistPromoted
                 | WaitlistExpired | BookingNoShow | ClosureCreated

  /** An outbox row: the fields of the payload that the live grid reads. */
  datatype Message = Message(topic: Topic, booking: nat, facility: FacilityId, start: Instant, end: Instant)

  datatype Tables = Tables(
    bookings: seq<Booking>, waitlist: seq<Entry>, capacity: map<SlotKey, Counter>,
    checkIns: set<nat>, events: seq<Event>, outbox: seq<Message>)

  const EMPTY: Tables := Tables([], [], map[], {}, [], [])

  /** Rows other open transactions have locked; SKIP LOCKED steps over them. */
  datatype Locked = Locked(bookings: set<nat>, entries: set<nat>)

  /** Overlap of two half-open, nonempty windows. */
  predicate Overlaps(s1: Instant, e1: Instant, s2: Instant, e2: Instant)
  {
    s1 < e2 && s2 < e1
  }

  /** The predicate of no_double_book's partial index. */
  predicate Holding(b: Booking)
  {
    b.exclusive && (b.status == Confirmed || b.status == Held || b.status == Blocked)
  }

  /** A shared booking that still accounts for a place in its slots. */
  predicate Counted(b: Booking)
  {
    !b.exclusive && (b.status == Confirmed || b.status == Completed)
  }
}
