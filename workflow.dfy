/**
 * Booking a class (`POST /book`): look the class up, check its free slots,
 * reject a second booking for the same (class, email), then insert the
 * booking and take one slot from the class.
 */
module Workflow {
  import opened Tables
  import opened Queries

  /** A booking request whose name and email already passed request validation. */
  datatype Request = Request(classId: int, clientName: string, clientEmail: string)

  /** Why a booking is refused: 404 "not found or has already occurred", 400 "no available slots", 400 "already booked". */
  datatype BookingError = NotFound | NoSlots | Duplicate

  /** The confirmation returned on success. */
  datatype Confirmation = Confirmation(
    bookingId: int,
    className: string,
    instructor: string,
    classStart: Instant,
    clientName: string,
    clientEmail: string)

  datatype Outcome = Booked(confirmation: Confirmation) | Rejected(error: BookingError)

  /** The database after a booking attempt, and the attempt's outcome. */
  datatype Step = Step(db: Db, outcome: Outcome)

  /** Class `classes[i]` is `classId` and starts strictly after `now`. */
  ghost predicate Bookable(classes: seq<ClassRow>, i: int, classId: int, now: Instant) {
    0 <= i < |classes| && classes[i].id == classId && now < classes[i].start
  }

  /** The index of the first row the class lookup finds, if any. */
  function FindBookable(classes: seq<ClassRow>, classId: int, now: Instant): (r: Option<nat>)
    ensures r.Some? ==> Bookable(classes, r.value, classId, now)
    ensures r.None? <==> forall i | 0 <= i < |classes| :: !Bookable(classes, i, classId, now)
  {
    if classes == [] then None
    else if classes[0].id == classId && now < classes[0].start then
      assert Bookable(classes, 0, classId, now);
      Some(0)
    else
      match FindBookable(classes[1..], classId, now)
      case None =>
        assert forall i | 0 <= i < |classes| :: !Bookable(classes, i, classId, now) by {
          forall i | 0 <= i < |classes| ensures !Bookable(classes, i, classId, now) {
            if i > 0 {
              assert classes[i] == classes[1..][i - 1];
              assert !Bookable(classes[1..], i - 1, classId, now);
            }
          }
        }
        None
      case Some(i) =>
        assert classes[i + 1] == classes[1..][i];
        assert Bookable(classes, i + 1, classId, now);
        Some(i + 1)
  }

  /** Whether the bookings table already holds a booking of `classId` by `email`. */
  function HasBooking(bookings: seq<BookingRow>, classId: int, email: string): (r: bool)
    ensures r <==> exists j | 0 <= j < |bookings| :: bookings[j].classId == classId && bookings[j].clientEmail == email
  {
    if bookings == [] then false
    else if bookings[0].classId == classId && bookings[0].clientEmail == email then true
    else
      assert forall j | 1 <= j < |bookings| :: bookings[j] == bookings[1..][j - 1];
      HasBooking(bookings[1..], classId, email)
  }

  /** The booking row a successful request inserts. */
  function NewBooking(db: Db, req: Request, now: Instant): BookingRow {
    BookingRow(db.nextBookingId, req.classId, req.clientName, req.clientEmail, now)
  }

  /**
   * The database after the booking for `req` is inserted and class row `i`
   * loses a slot: the old bookings stay in place with the new one after them,
   * the counter advances, and row `i` loses one free slot while no other row changes.
   */
  function Reserve(db: Db, req: Request, now: Instant, i: nat): (r: Db)
    requires i < |db.classes|
    ensures |r.bookings| == |db.bookings| + 1 && r.bookings[..|db.bookings|] == db.bookings
    ensures r.bookings[|db.bookings|] == NewBooking(db, req, now)
    ensures r.nextBookingId == db.nextBookingId + 1
    ensures |r.classes| == |db.classes| && r.classes[i].availableSlots == db.classes[i].availableSlots - 1
    ensures r.classes[i] == db.classes[i].(availableSlots := r.classes[i].availableSlots)
    ensures forall k | 0 <= k < |db.classes| && k != i :: r.classes[k] == db.classes[k]
  {
    assert (db.bookings + [NewBooking(db, req, now)])[..|db.bookings|] == db.bookings;
    var row := db.classes[i];
    db.(bookings := db.bookings + [NewBooking(db, req, now)],
        nextBookingId := db.nextBookingId + 1,
        classes := db.classes[i := row.(availableSlots := row.availableSlots - 1)])
  }

  /** Reserving a free slot of a bookable class for a new (class, email) pair keeps the invariant. */
  lemma ReservePreservesConsistency(db: Db, req: Request, now: Instant, i: nat)
    requires Consistent(db)
    requires Bookable(db.classes, i, req.classId, now) && db.classes[i].availableSlots > 0
    requires !HasBooking(db.bookings, req.classId, req.clientEmail)
    ensures Consistent(Reserve(db, req, now, i))
  {
    var db' := Reserve(db, req, now, i);
    ReserveKeepsClassRows(db, req, now, i);
    ReserveKeepsSlotCount(db, req, now, i);
    ReserveKeepsBookingRows(db, req, now, i);
    ReserveKeepsReferences(db, req, now, i);
  }

  lemma ReserveKeepsClassRows(db: Db, req: Request, now: Instant, i: nat)
    requires UniqueClassIds(db.classes) && SlotsInRange(db.classes)
    requires i < |db.classes| && db.classes[i].availableSlots > 0
    ensures UniqueClassIds(Reserve(db, req, now, i).classes) && SlotsInRange(Reserve(db, req, now, i).classes)
  {
    var cs := Reserve(db, req, now, i).classes;
    assert forall k | 0 <= k < |cs| :: cs[k].id == db.classes[k].id;
  }

  lemma ReserveKeepsSlotCount(db: Db, req: Request, now: Instant, i: nat)
    requires UniqueClassIds(db.classes) && SlotsMatchBookings(db)
    requires Bookable(db.classes, i, req.classId, now)
    ensures SlotsMatchBookings(Reserve(db, req, now, i))
  {
    var b := NewBooking(db, req, now);
    var db' := Reserve(db, req, now, i);
    forall k | 0 <= k < |db'.classes|
      ensures db'.classes[k].availableSlots == db'.classes[k].totalSlots - CountFor(db'.bookings, db'.classes[k].id)
    {
      CountForAppend(db.bookings, b, db.classes[k].id);
      if k != i {
        assert db'.classes[k] == db.classes[k];
        assert db.classes[k].id != b.classId;
      }
    }
  }

  lemma ReserveKeepsBookingRows(db: Db, req: Request, now: Instant, i: nat)
    requires NoDuplicateBookings(db.bookings) && BookingIdsIssued(db.bookings, db.nextBookingId)
    requires i < |db.classes|
    requires !HasBooking(db.bookings, req.classId, req.clientEmail)
    ensures NoDuplicateBookings(Reserve(db, req, now, i).bookings)
    ensures BookingIdsIssued(Reserve(db, req, now, i).bookings, Reserve(db, req, now, i).nextBookingId)
  {
  }

  lemma ReserveKeepsReferences(db: Db, req: Request, now: Instant, i: nat)
    requires BookingsReferToClasses(db)
    requires Bookable(db.classes, i, req.classId, now)
    ensures BookingsReferToClasses(Reserve(db, req, now, i))
  {
    var db' := Reserve(db, req, now, i);
    forall x | ClassExists(db.classes, x) ensures ClassExists(db'.classes, x) {
      var i' :| 0 <= i' < |db.classes| && db.classes[i'].id == x;
      assert db'.classes[i'].id == x;
    }
    assert db'.classes[i].id == req.classId;
  }

  /**
   * One booking attempt at time `now`. The gates run in the source's order:
   * the class must exist and not have begun, it must have a free slot, and the
   * client's email must not hold a booking for it yet. A refused attempt leaves
   * the database as it was; a successful one appends one booking with the next
   * autoincrement id and takes one slot from that class and from no other.
   */
  function Book(db: Db, req: Request, now: Instant): (s: Step)
    requires UniqueClassIds(db.classes)
    ensures s.outcome == Rejected(NotFound) <==>
              forall i | 0 <= i < |db.classes| :: !Bookable(db.classes, i, req.classId, now)
    ensures s.outcome == Rejected(NoSlots) <==>
              exists i | 0 <= i < |db.classes| :: Bookable(db.classes, i, req.classId, now) && db.classes[i].availableSlots <= 0
    ensures s.outcome == Rejected(Duplicate) <==>
              && (exists i | 0 <= i < |db.classes| :: Bookable(db.classes, i, req.classId, now) && db.classes[i].availableSlots > 0)
              && (exists j | 0 <= j < |db.bookings| ::
                    db.bookings[j].classId == req.classId && db.bookings[j].clientEmail == req.clientEmail)
    ensures s.outcome.Rejected? ==> s.db == db
    ensures forall i | 0 <= i < |db.classes| && s.outcome.Booked? && db.classes[i].id == req.classId ::
              && s.db.bookings == db.bookings + [BookingRow(db.nextBookingId, req.classId, req.clientName, req.clientEmail, now)]
              && s.db.nextBookingId == db.nextBookingId + 1
              && |s.db.classes| == |db.classes|
              && s.db.classes[i] == db.classes[i].(availableSlots := db.classes[i].availableSlots - 1)
              && (forall k | 0 <= k < |db.classes| && k != i :: s.db.classes[k] == db.classes[k])
              && s.outcome.confirmation == Confirmation(db.nextBookingId, db.classes[i].name, db.classes[i].instructor,
                                                        db.classes[i].start, req.clientName, req.clientEmail)
  {
    match FindBookable(db.classes, req.classId, now)
    case None => Step(db, Rejected(NotFound))
    case Some(i) =>
      var row := db.classes[i];
      if row.availableSlots <= 0 then Step(db, Rejected(NoSlots))
      else if HasBooking(db.bookings, req.classId, req.clientEmail) then Step(db, Rejected(Duplicate))
      else
        Step(Reserve(db, req, now, i), Booked(Confirmation(db.nextBookingId, row.name, row.instructor, row.start,
                                         req.clientName, req.clientEmail)))
  }

  /** Booking keeps every invariant of the database. */
  lemma BookPreservesConsistency(db: Db, req: Request, now: Instant)
    requires Consistent(db)
    ensures Consistent(Book(db, req, now).db)
  {
    var found := FindBookable(db.classes, req.classId, now);
    if found.Some? && db.classes[found.value].availableSlots > 0 && !HasBooking(db.bookings, req.classId, req.clientEmail) {
      ReservePreservesConsistency(db, req, now, found.value);
    }
  }

  /** On success the new booking id is greater than every id already issued. */
  lemma BookedIdIsFresh(db: Db, req: Request, now: Instant)
    requires Consistent(db)
    requires Book(db, req, now).outcome.Booked?
    ensures forall j | 0 <= j < |db.bookings| :: db.bookings[j].id < Book(db, req, now).outcome.confirmation.bookingId
  {
    var i := FindBookable(db.classes, req.classId, now).value;
    assert db.classes[i].id == req.classId;
  }

  /**
   * Submitting a request that just succeeded again is always refused: with
   * "already booked" while the class is still ahead and has a slot left, but by
   * the earlier gates when the first booking took the last slot (no slots) or
   * the class has begun by then (not found).
   */
  lemma RepeatRequestRefused(db: Db, req: Request, now: Instant, later: Instant)
    requires Consistent(db)
    requires Book(db, req, now).outcome.Booked?
    ensures var i := FindBookable(db.classes, req.classId, now).value;
            Book(Book(db, req, now).db, req, later).outcome ==
              Rejected(if later >= db.classes[i].start then NotFound
                       else if db.classes[i].availableSlots == 1 then NoSlots
                       else Duplicate)
  {
    var i := FindBookable(db.classes, req.classId, now).value;
    var db' := Book(db, req, now).db;
    BookPreservesConsistency(db, req, now);
    assert db'.bookings[|db.bookings|].classId == req.classId;
    if later < db.classes[i].start {
      assert Bookable(db'.classes, i, req.classId, later);
    }
  }

  /** A class with as many bookings as seats refuses every further booking. */
  lemma FullClassRefuses(db: Db, req: Request, now: Instant, i: nat)
    requires Consistent(db)
    requires i < |db.classes| && db.classes[i].id == req.classId
    requires CountFor(db.bookings, req.classId) >= db.classes[i].totalSlots
    ensures Book(db, req, now).outcome in {Rejected(NotFound), Rejected(NoSlots)}
  {
    assert db.classes[i].availableSlots <= 0;
  }

  /** After a successful booking the client sees it in their bookings listing. */
  lemma BookedShowsInListing(db: Db, req: Request, now: Instant)
    requires Consistent(db)
    requires Book(db, req, now).outcome.Booked?
    ensures var i := FindBookable(db.classes, req.classId, now).value;
            var s := Book(db, req, now);
            ViewOf(NewBooking(db, req, now), s.db.classes[i]) in BookingsFor(s.db, req.clientEmail)
  {
    var i := FindBookable(db.classes, req.classId, now).value;
    var s := Book(db, req, now);
    BookPreservesConsistency(db, req, now);
    var j := |db.bookings|;
    assert s.db.bookings[j] == NewBooking(db, req, now);
    BookingsForExact(s.db, req.clientEmail, ViewOf(NewBooking(db, req, now), s.db.classes[i]));
  }

  /**
   * The database held by the service: the two tables and the bookings
   * autoincrement counter, which a booking updates in place.
   */
  class Studio {
    var classes: seq<ClassRow>
    var bookings: seq<BookingRow>
    var nextBookingId: int

    function Contents(): Db
      reads this
    {
      Db(classes, bookings, nextBookingId)
    }

    ghost predicate Valid()
      reads this
    {
      Consistent(Contents())
    }

    /** A freshly initialised database holding the seed classes. */
    constructor ()
      ensures Valid()
      ensures Contents() == SeedDb()
    {
      classes := SeedClasses;
      bookings := [];
      nextBookingId := 1;
    }

    /**
     * Runs the booking gates against the tables; on success inserts the
     * booking row and then decrements the class's free slots, as one commit.
     * The function `Book` states the same gates on values and is this
     * method's specification: the ensures ties the new tables to it.
     */
    method BookClass(req: Request, now: Instant) returns (outcome: Outcome)
      requires Valid()
      modifies this
      ensures Valid()
      ensures Step(Contents(), outcome) == Book(old(Contents()), req, now)
    {
      ghost var before := Contents();
      BookPreservesConsistency(before, req, now);
      var found := FindBookable(classes, req.classId, now);
      if found.None? {
        return Rejected(NotFound);
      }
      var i := found.value;
      var row := classes[i];
      if row.availableSlots <= 0 {
        return Rejected(NoSlots);
      }
      if HasBooking(bookings, req.classId, req.clientEmail) {
        return Rejected(Duplicate);
      }
      var bookingId := nextBookingId;
      assert NewBooking(before, req, now) == BookingRow(bookingId, req.classId, req.clientName, req.clientEmail, now);
      bookings := bookings + [BookingRow(bookingId, req.classId, req.clientName, req.clientEmail, now)];
      nextBookingId := nextBookingId + 1;
      classes := classes[i := row.(availableSlots := row.availableSlots - 1)];
      outcome := Booked(Confirmation(bookingId, row.name, row.instructor, row.start, req.clientName, req.clientEmail));
      assert Contents() == Reserve(before, req, now, i);
    }
  }

  /** The first booking of the seed database: Yoga Flow, then the identical request again. */
  lemma SeedBookingScenario(now: Instant)
    requires now < 1749432600
    ensures var req := Request(1, "Jane Doe", "jane.doe@example.com");
            var first := Book(SeedDb(), req, now);
            && first.outcome == Booked(Confirmation(1, "Yoga Flow", "Priya Sharma", 1749432600, "Jane Doe", "jane.doe@example.com"))
            && first.db.classes[0].availableSlots == 19
            && Book(first.db, req, now).outcome == Rejected(Duplicate)
  {
    var req := Request(1, "Jane Doe", "jane.doe@example.com");
    var db := SeedDb();
    assert Bookable(db.classes, 0, 1, now);
    RepeatRequestRefused(db, req, now, now);
  }

  /** Booking a class id that no row has is refused as not found, at any time. */
  lemma UnknownClassScenario(now: Instant)
    ensures Book(SeedDb(), Request(999, "John Doe", "john.doe@example.com"), now).outcome == Rejected(NotFound)
  {
  }
}
