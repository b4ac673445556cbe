/**
 * The two tables of the studio database, `classes` and `bookings`, the
 * invariants that tie them together, and the rows `init_db` seeds.
 */
module Tables {

  /** An absolute instant, in seconds since 1970-01-01T00:00:00Z. */
  type Instant = int

  datatype Option<T> = None | Some(value: T)

  /** A row of the `classes` table. */
  datatype ClassRow = ClassRow(
    id: int,
    name: string,
    instructor: string,
    start: Instant,
    totalSlots: int,
    availableSlots: int)

  /** A row of the `bookings` table; `classId` refers to a class row by its id. */
  datatype BookingRow = BookingRow(
    id: int,
    classId: int,
    clientName: string,
    clientEmail: string,
    bookingTime: Instant)

  /**
   * The contents of the database: both tables in row order, and the value the
   * autoincrement counter of `bookings` hands out next.
   */
  datatype Db = Db(classes: seq<ClassRow>, bookings: seq<BookingRow>, nextBookingId: int)

  /** `id` is the primary key of `classes`. */
  ghost predicate UniqueClassIds(classes: seq<ClassRow>) {
    forall i, j | 0 <= i < |classes| && 0 <= j < |classes| && i != j :: classes[i].id != classes[j].id
  }

  /** The number of bookings that refer to class `classId`. */
  function CountFor(bookings: seq<BookingRow>, classId: int): (n: nat)
    ensures n <= |bookings|
    ensures n == 0 <==> forall j | 0 <= j < |bookings| :: bookings[j].classId != classId
  {
    if bookings == [] then 0
    else
      var last := bookings[|bookings| - 1];
      CountFor(bookings[..|bookings| - 1], classId) + (if last.classId == classId then 1 else 0)
  }

  /** Counting over a table with one more booking appended. */
  lemma CountForAppend(bookings: seq<BookingRow>, b: BookingRow, classId: int)
    ensures CountFor(bookings + [b], classId) == CountFor(bookings, classId) + (if b.classId == classId then 1 else 0)
  {
    assert (bookings + [b])[..|bookings|] == bookings;
  }

  ghost predicate SlotsInRange(classes: seq<ClassRow>) {
    forall i | 0 <= i < |classes| :: 0 <= classes[i].availableSlots <= classes[i].totalSlots
  }

  /** Every class has as many free slots as its capacity less the bookings made for it. */
  ghost predicate SlotsMatchBookings(db: Db) {
    forall i | 0 <= i < |db.classes| ::
      db.classes[i].availableSlots == db.classes[i].totalSlots - CountFor(db.bookings, db.classes[i].id)
  }

  /** No two bookings share a (class, client email) pair. */
  ghost predicate NoDuplicateBookings(bookings: seq<BookingRow>) {
    forall j, k | 0 <= j < k < |bookings| ::
      !(bookings[j].classId == bookings[k].classId && bookings[j].clientEmail == bookings[k].clientEmail)
  }

  /** Booking ids grow with row order and stay below the autoincrement counter. */
  ghost predicate BookingIdsIssued(bookings: seq<BookingRow>, nextBookingId: int) {
    && (forall j, k | 0 <= j < k < |bookings| :: bookings[j].id < bookings[k].id)
    && (forall j | 0 <= j < |bookings| :: bookings[j].id < nextBookingId)
  }

  ghost predicate ClassExists(classes: seq<ClassRow>, classId: int) {
    exists i | 0 <= i < |classes| :: classes[i].id == classId
  }

  /** Every booking refers to an existing class (the foreign key of `bookings`). */
  ghost predicate BookingsReferToClasses(db: Db) {
    forall j | 0 <= j < |db.bookings| :: ClassExists(db.classes, db.bookings[j].classId)
  }

  /** The invariant of the database that booking keeps. */
  ghost predicate Consistent(db: Db) {
    && UniqueClassIds(db.classes)
    && SlotsInRange(db.classes)
    && SlotsMatchBookings(db)
    && NoDuplicateBookings(db.bookings)
    && BookingIdsIssued(db.bookings, db.nextBookingId)
    && BookingsReferToClasses(db)
  }

  /** The class rows `init_db` inserts into an empty database, times in IST (UTC+05:30). */
  const SeedClasses: seq<ClassRow> := [
    ClassRow(1, "Yoga Flow", "Priya Sharma", 1749432600, 20, 20),      // 2025-06-09 07:00 IST
    ClassRow(2, "Zumba Dance", "Rahul Kumar", 1749474000, 25, 25),     // 2025-06-09 18:30 IST
    ClassRow(3, "HIIT Training", "Anjali Singh", 1749517200, 15, 15),  // 2025-06-10 06:30 IST
    ClassRow(4, "Power Yoga", "Priya Sharma", 1749562200, 20, 20),     // 2025-06-10 19:00 IST
    ClassRow(5, "Cardio Blast", "Vikram Patel", 1749607200, 18, 18)    // 2025-06-11 07:30 IST
  ]

  /** The database right after `init_db` on a fresh file: seeded classes, no bookings. */
  function SeedDb(): (db: Db)
    ensures Consistent(db)
    ensures forall i | 0 <= i < |db.classes| :: db.classes[i].availableSlots == db.classes[i].totalSlots
  {
    Db(SeedClasses, [], 1)
  }
}
