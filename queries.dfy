/**
 * The two read-only queries: the upcoming classes (`GET /classes`) and a
 * client's bookings joined to their classes (`GET /bookings`).
 */
module Queries {
  import opened Tables
  import opened Sorting

  function StartOf(c: ClassRow): int { c.start }

  /** The classes that start strictly after `now`, in table order. */
  function UpcomingRows(classes: seq<ClassRow>, now: Instant): (r: seq<ClassRow>)
    ensures forall c :: multiset(r)[c] == if now < c.start then multiset(classes)[c] else 0
  {
    if classes == [] then []
    else
      assert classes == [classes[0]] + classes[1..];
      (if now < classes[0].start then [classes[0]] else []) + UpcomingRows(classes[1..], now)
  }

  /**
   * The listing of upcoming classes: every class row that starts strictly
   * after `now`, as often as the table holds it, and nothing else, earliest first.
   */
  function UpcomingClasses(classes: seq<ClassRow>, now: Instant): (r: seq<ClassRow>)
    ensures SortedBy(r, StartOf, false)
    ensures forall c :: multiset(r)[c] == if now < c.start then multiset(classes)[c] else 0
  {
    SortBy(UpcomingRows(classes, now), StartOf, false)
  }

  /** The listing never shows a class that has begun, and shows every one that has not. */
  lemma UpcomingExact(classes: seq<ClassRow>, now: Instant, c: ClassRow)
    ensures c in UpcomingClasses(classes, now) <==> c in classes && now < c.start
  {
    var r := UpcomingClasses(classes, now);
    assert c in r <==> multiset(r)[c] > 0;
    assert c in classes <==> multiset(classes)[c] > 0;
  }

  /** A row of the bookings listing: a booking joined to the class it refers to. */
  datatype BookingView = BookingView(
    id: int,
    classId: int,
    clientName: string,
    clientEmail: string,
    bookingTime: Instant,
    className: string,
    instructor: string,
    classStart: Instant)

  function ViewOf(b: BookingRow, c: ClassRow): BookingView {
    BookingView(b.id, b.classId, b.clientName, b.clientEmail, b.bookingTime, c.name, c.instructor, c.start)
  }

  function ClassStartOf(v: BookingView): int { v.classStart }

  /** The first class row with id `classId`. */
  function ClassById(classes: seq<ClassRow>, classId: int): (r: Option<ClassRow>)
    ensures r.Some? ==> r.value in classes && r.value.id == classId
    ensures r.None? ==> forall i | 0 <= i < |classes| :: classes[i].id != classId
  {
    if classes == [] then None
    else if classes[0].id == classId then Some(classes[0])
    else ClassById(classes[1..], classId)
  }

  /** Under the primary key, the row a lookup finds is the only one with that id. */
  lemma ClassByIdUnique(classes: seq<ClassRow>, i: nat)
    requires UniqueClassIds(classes) && i < |classes|
    ensures ClassById(classes, classes[i].id) == Some(classes[i])
  {
    var r := ClassById(classes, classes[i].id);
    var k :| 0 <= k < |classes| && classes[k] == r.value;
    assert k == i;
  }

  /**
   * The inner join of `bookings` with `classes` on the class id, restricted to
   * the bookings made with `email`, in booking table order.
   */
  function JoinByEmail(bookings: seq<BookingRow>, classes: seq<ClassRow>, email: string): (r: seq<BookingView>)
    ensures forall v | v in r :: exists b, c | b in bookings && c in classes ::
              b.clientEmail == email && c.id == b.classId && v == ViewOf(b, c)
  {
    if bookings == [] then []
    else
      var b := bookings[0];
      var rest := JoinByEmail(bookings[1..], classes, email);
      assert forall b' | b' in bookings[1..] :: b' in bookings;
      if b.clientEmail == email then
        match ClassById(classes, b.classId)
        case Some(c) => [ViewOf(b, c)] + rest
        case None => rest
      else rest
  }

  /** The bookings listing for `email`: joined rows, latest class first. */
  function BookingsFor(db: Db, email: string): (r: seq<BookingView>)
    ensures SortedBy(r, ClassStartOf, true)
    ensures forall k | 0 <= k < |r| :: r[k].clientEmail == email
  {
    var joined := JoinByEmail(db.bookings, db.classes, email);
    var r := SortBy(joined, ClassStartOf, true);
    forall k | 0 <= k < |r| ensures r[k].clientEmail == email {
      assert r[k] in multiset(joined);
      assert r[k] in joined;
    }
    r
  }

  /**
   * Under the primary key, a row is in the bookings listing for `email` exactly
   * when it joins a booking made with `email` to the class that booking refers to.
   */
  lemma {:induction false} JoinExact(bookings: seq<BookingRow>, classes: seq<ClassRow>, email: string, v: BookingView)
    requires UniqueClassIds(classes)
    ensures v in JoinByEmail(bookings, classes, email) <==>
            exists j, i | 0 <= j < |bookings| && 0 <= i < |classes| ::
              bookings[j].clientEmail == email && classes[i].id == bookings[j].classId && v == ViewOf(bookings[j], classes[i])
  {
    if bookings != [] {
      JoinExact(bookings[1..], classes, email, v);
      var b := bookings[0];
      if exists j, i | 0 <= j < |bookings| && 0 <= i < |classes| ::
           bookings[j].clientEmail == email && classes[i].id == bookings[j].classId && v == ViewOf(bookings[j], classes[i]) {
        var j, i :| 0 <= j < |bookings| && 0 <= i < |classes| &&
           bookings[j].clientEmail == email && classes[i].id == bookings[j].classId && v == ViewOf(bookings[j], classes[i]);
        if j == 0 {
          ClassByIdUnique(classes, i);
        } else {
          assert bookings[1..][j - 1] == bookings[j];
        }
      }
      if v in JoinByEmail(bookings[1..], classes, email) {
        var j, i :| 0 <= j < |bookings[1..]| && 0 <= i < |classes| &&
           bookings[1..][j].clientEmail == email && classes[i].id == bookings[1..][j].classId && v == ViewOf(bookings[1..][j], classes[i]);
        assert bookings[j + 1] == bookings[1..][j];
      }
      if b.clientEmail == email && ClassById(classes, b.classId).Some? {
        var c := ClassById(classes, b.classId).value;
        var i :| 0 <= i < |classes| && classes[i] == c;
        assert bookings[0] == b;
      }
    }
  }

  lemma BookingsForExact(db: Db, email: string, v: BookingView)
    requires UniqueClassIds(db.classes)
    ensures v in BookingsFor(db, email) <==>
            exists j, i | 0 <= j < |db.bookings| && 0 <= i < |db.classes| ::
              db.bookings[j].clientEmail == email && db.classes[i].id == db.bookings[j].classId &&
              v == ViewOf(db.bookings[j], db.classes[i])
  {
    JoinExact(db.bookings, db.classes, email, v);
    var joined := JoinByEmail(db.bookings, db.classes, email);
    assert v in BookingsFor(db, email) <==> v in multiset(joined);
  }

  /** The number of bookings made with `email`. */
  function EmailCount(bookings: seq<BookingRow>, email: string): nat {
    if bookings == [] then 0
    else (if bookings[0].clientEmail == email then 1 else 0) + EmailCount(bookings[1..], email)
  }

  /**
   * When every booking refers to an existing class, the listing has one row per
   * booking made with `email`; an email without bookings gets the empty list.
   */
  lemma {:induction false} BookingsForCount(db: Db, email: string)
    requires BookingsReferToClasses(db)
    ensures |BookingsFor(db, email)| == EmailCount(db.bookings, email)
  {
    var joined := JoinByEmail(db.bookings, db.classes, email);
    assert |BookingsFor(db, email)| == |multiset(joined)|;
    JoinCount(db.bookings, db.classes, email);
  }

  lemma {:induction false} JoinCount(bookings: seq<BookingRow>, classes: seq<ClassRow>, email: string)
    requires forall j | 0 <= j < |bookings| :: ClassExists(classes, bookings[j].classId)
    ensures |JoinByEmail(bookings, classes, email)| == EmailCount(bookings, email)
  {
    if bookings != [] {
      assert forall j | 0 <= j < |bookings[1..]| :: bookings[1..][j] == bookings[j + 1];
      JoinCount(bookings[1..], classes, email);
      var i :| 0 <= i < |classes| && classes[i].id == bookings[0].classId;
    }
  }

  /** An email that made no booking gets the empty listing. */
  lemma NoBookingsEmptyListing(db: Db, email: string)
    requires forall j | 0 <= j < |db.bookings| :: db.bookings[j].clientEmail != email
    ensures BookingsFor(db, email) == []
  {
    NoBookingsNoJoin(db.bookings, db.classes, email);
    var joined := JoinByEmail(db.bookings, db.classes, email);
    assert |BookingsFor(db, email)| == |multiset(joined)|;
  }

  lemma {:induction false} NoBookingsNoJoin(bookings: seq<BookingRow>, classes: seq<ClassRow>, email: string)
    requires forall j | 0 <= j < |bookings| :: bookings[j].clientEmail != email
    ensures JoinByEmail(bookings, classes, email) == []
  {
    if bookings != [] {
      assert bookings[0].clientEmail != email;
      NoBookingsNoJoin(bookings[1..], classes, email);
    }
  }
}
