# Fitness studio booking: a Dafny model

This project models the booking logic of the Fitness Studio Booking API: a
service that keeps a `classes` table and a `bookings` table. It lists the
upcoming classes (`GET /classes`), books a slot in a class (`POST /book`) and
lists a client's bookings (`GET /bookings`). Booking runs its gates in a fixed
order:

1. the class must exist and start strictly after now;
2. it must have a free slot;
3. the client's email must not already hold a booking for it.

A booking that passes all three appends a row with the next autoincrement id
and takes one slot from the class. The model proves that booking keeps the
database invariant:

- every class has `0 <= available_slots <= total_slots`;
- every class has `available_slots == total_slots - (bookings of that class)`;
- no two bookings share a (class, email) pair;
- booking ids grow and stay below the counter;
- every booking refers to an existing class.

The seed database establishes this invariant.

Files and modules:

- `tables.dfy` (`Tables`): the rows, the database value `Db`, the invariant `Consistent`, and the seed rows of `init_db`.
- `sorting.dfy` (`Sorting`): the `ORDER BY` of the two listings, as a stable insertion sort by a key, ascending or descending.
- `queries.dfy` (`Queries`): the class listing and the bookings listing (a join on the class id), as functions.
- `workflow.dfy` (`Workflow`): the booking gates as the function `Book`, the lemmas about it, and the class `Studio`. `Studio` holds both tables and the counter as fields, and its method `BookClass` updates them in place; `Book` is its specification.
- `validation.dfy` (`Validation`): the client-name rule. It strips whitespace the way Python's `str.strip()` does (the same set of characters) and refuses a name that is then empty.
- `iso_time_text.dfy` (`IsoTimeText`): the ISO-8601 text the service stores and compares class times as, and the text comparison it runs (see Findings).

Modelling choices:

- Times are `Instant`s: integer seconds since the Unix epoch, UTC. The current time `now` is a parameter of every operation, and it is also the booking time stored in the new row.
- The outcomes of a booking are `Booked(confirmation)` or `Rejected(NotFound | NoSlots | Duplicate)`. The HTTP layer maps them to 404, 400 and 400.
- The name and email reach `Book` already validated, as they do in the service.

What the code does, which the model follows:

- Submitting the same request twice does not always give "already booked". The duplicate-booking test (test_main.py:118-138) expects that answer for the second request, and it gets it there because the seeded class has 20 slots and lies ahead. If the first booking took the last slot, the repeat is refused as no slots. If the class has begun in the meantime, the repeat is refused as not found. Both follow from the order of the gates (`Workflow.RepeatRequestRefused`).
- The code has no atomic, conditional decrement and no conflict outcome. Its checks, the insert and the update run one after the other and end in a single commit. The model is this sequential behaviour.

## Model

| member | source | states |
|---|---|---|
| `Tables.SeedDb` | main.py:51-69 | the seeded database (five classes, each with available == total, no bookings, counter at 1) satisfies every invariant |
| `Tables.CountForAppend` | main.py:229-235 | appending one booking raises that class's booking count by one and leaves every other class's count unchanged |
| `Sorting.SortBy` | main.py:164 | the result is ordered by the key (ascending or descending) and is a permutation of the input |
| `Queries.UpcomingRows` | main.py:160-165 | keeps each class row that starts strictly after now as often as the table holds it, and drops all the others |
| `Queries.UpcomingClasses` | main.py:160-172 | the class listing holds exactly the rows that start strictly after now, with the table's multiplicities, sorted earliest first |
| `Queries.UpcomingExact` | main.py:163 | a class is listed if and only if it is in the table and starts strictly after now |
| `Queries.ViewOf` | main.py:283-285 | the SELECT list of the bookings listing: the booking's id, class id, name, email and booking time, with the class's name, instructor and start; no contract of its own, `Queries.JoinExact` states which views the join holds |
| `Queries.ClassById` | main.py:287 | a found row has the requested id; no row is found only when no row has that id |
| `Queries.ClassByIdUnique` | main.py:29 | under the primary key on `classes.id`, the lookup by id finds exactly the row with that id |
| `Queries.JoinByEmail` | main.py:282-290 | every joined row pairs a booking made with the email with a class row whose id the booking refers to |
| `Queries.JoinExact` | main.py:282-290 | under the primary key, a view is in the join if and only if it pairs a booking with that email with the class that booking refers to |
| `Queries.BookingsFor` | main.py:282-299 | the bookings listing is sorted latest class first, and every row carries the queried email |
| `Queries.BookingsForExact` | main.py:282-299 | under the primary key, the listing holds exactly the joins of that email's bookings with their classes |
| `Queries.BookingsForCount` | main.py:282-299 | when every booking refers to an existing class, the listing has one row per booking made with the email |
| `Queries.NoBookingsEmptyListing` | main.py:286-290 | an email with no bookings gets the empty list, not an error |
| `Workflow.FindBookable` | main.py:197-208 | the lookup finds a row with the requested id that starts strictly after now; it finds nothing only when no such row exists |
| `Workflow.NewBooking` | main.py:229-233 | the inserted row: the next autoincrement id, the request's class id, name and email, and the booking time; no contract of its own, `Workflow.Book` states these fields of the new row |
| `Workflow.Reserve` | main.py:229-242 | the insert followed by the update: the old bookings stay in place with the new row after them, the counter advances by one, and only the looked-up class row changes, losing exactly one free slot |
| `Workflow.HasBooking` | main.py:217-222 | true if and only if some booking has both the requested class id and the requested email |
| `Workflow.Book` | main.py:196-256 | NotFound iff no row with the id starts after now. NoSlots iff that row has available <= 0. Duplicate iff it has a slot and the (class, email) pair is already booked. A refusal changes nothing. Success appends one booking (next id, the request's class, name and email) and advances the counter. It lowers that class's free slots by exactly 1 and changes no other row. The confirmation carries the row's name, instructor and start, and the request's name and email. |
| `Workflow.ReservePreservesConsistency` | main.py:228-244 | inserting the booking and decrementing the class, after the three gates pass, keeps every invariant |
| `Workflow.BookPreservesConsistency` | main.py:181-262 | every booking attempt keeps `0 <= available <= total`, `available == total - bookings`, one booking per (class, email), increasing ids and the reference to an existing class |
| `Workflow.BookedIdIsFresh` | main.py:229-235 | the id of a new booking is greater than every id already in the table |
| `Workflow.RepeatRequestRefused` | main.py:197-226 | repeating a request that succeeded is always refused: NotFound if the class has begun, NoSlots if the first booking took the last slot, otherwise Duplicate |
| `Workflow.FullClassRefuses` | main.py:210-214 | a class with as many bookings as seats refuses every further booking (NotFound or NoSlots) |
| `Workflow.BookedShowsInListing` | main.py:282-290 | after a successful booking, the client's bookings listing holds the new booking joined to its updated class |
| `Workflow.Studio.constructor` | main.py:21-72 | a fresh database holds exactly the seed rows and satisfies the invariant |
| `Workflow.Studio.BookClass` | main.py:181-262 | the in-place booking leaves the tables and the counter as `Book` describes and keeps the invariant |
| `Workflow.SeedBookingScenario` | test_main.py:118-138 | before Yoga Flow (class 1) begins, Jane Doe's booking of it in the seed database succeeds with booking id 1 and leaves 19 slots; the identical request then fails as a duplicate |
| `Workflow.UnknownClassScenario` | test_main.py:106-116 | booking class 999 in the seed database is refused as not found, at any time |
| `Validation.IsSpace` | main.py:105 | the characters `str.strip()` removes: tab to carriage return, the four separators 0x1C-0x1F, space, and the Unicode whitespace code points; no contract of its own, `Validation.Strip` is stated in terms of it |
| `Validation.LeadingSpace` | main.py:105 | the length of the leading whitespace run: all characters before it are whitespace, the one after it is not |
| `Validation.TrailingSpace` | main.py:105 | the length of the trailing whitespace run: all characters after it are whitespace, the one before it is not |
| `Validation.Strip` | main.py:105-107 | the stripped name is a slice of the input with only whitespace around it, neither starts nor ends with whitespace, and is empty iff the input is all whitespace |
| `Validation.StripIdempotent` | main.py:107 | stripping an already stripped name changes nothing |
| `Validation.ValidateName` | main.py:103-107 | the name is refused iff it is empty or all whitespace; an accepted name is the stripped input: a slice of it with only whitespace around it, non-empty and with no whitespace at either end |
| `Validation.ValidatedNameIsStable` | main.py:103-107 | an accepted name passes the validator again unchanged |
| `Validation.NameExamples` | main.py:103-107 | "" and " \t " are refused; "  John Doe " is accepted as "John Doe" |
| `IsoTimeText.IsoText` | main.py:69 | Python's `isoformat()` text of an aware datetime with whole seconds has 25 characters |
| `IsoTimeText.TextAfter` | main.py:163 | the text comparison behind `datetime > ?`; texts that compare after each other are different |
| `IsoTimeText.TextAfterAsymmetric` | main.py:200 | no two texts each compare after the other |
| `IsoTimeText.TextAfterSkipsPrefix` | main.py:200 | a common prefix does not change how two texts compare |
| `IsoTimeText.SeedStartsAreIst` | main.py:52-69 | the seed rows' instants are the listed wall-clock times read in IST (UTC+05:30) |
| `IsoTimeText.ClassTextAsStored` | main.py:64-69 | the Yoga Flow row stores "2025-06-09T07:00:00+05:30" |
| `IsoTimeText.NowTextInUtc` | main.py:201 | the current time 03:00 UTC on 2025-06-09 is written "2025-06-09T03:00:00+00:00" |
| `IsoTimeText.ClassTextAfterNowText` | main.py:200 | the stored Yoga Flow text compares after that current-time text |
| `IsoTimeText.MixedOffsetCounterexample` | main.py:197-201 | the text comparison keeps a class whose instant is before now |
| `IsoTimeText.BegunClassRefusedByInstant` | main.py:197-208 | comparing instants, that class is refused as not found and left out of the class listing |

## Left out

- HTTP routing, status codes, response models and server startup: the outcomes are the `Outcome` datatype instead.
- The unexpected-storage-failure path (HTTP 500): the model has no storage that can fail.
- SQLite connections, SQL text and the database file are not modelled. The tables are sequences of rows, and `init_db` on a fresh file is the constructor.
- Running `init_db` again on an existing file is not modelled. The model starts from a fresh file, as the service's tests do.
- `convert_timezone` is not part of this model. It relies on the IANA time-zone database. The listings return instants, which do not depend on the zone they are shown in.
- Email syntax validation (pydantic `EmailStr`) is not modelled, and neither is any normalisation it applies. Emails are compared exactly as they reach the booking logic.
- The clock is a parameter. The service reads the clock separately for the class lookup and for the booking time; the model uses one `now` for both.
- Concurrent requests are not modelled. The source runs each request's reads and writes in sequence with one commit, so the model is sequential.
- `Workflow.Book` requires unique class ids. The `classes` table declares `id` as its primary key, so every real database meets this.
- `Queries.BookingsFor` leaves the order of bookings whose classes start at the same instant unspecified beyond "sorted", as SQL does. The model keeps table order for ties.

## Findings

| source | as written | input that shows it | evidently intended | confidence | as-written member | corrected member |
|---|---|---|---|---|---|---|
| main.py:163, main.py:200 | class start and current time are compared as ISO text, the stored start carrying `+05:30` and the current time `+00:00` | Yoga Flow, stored "2025-06-09T07:00:00+05:30" (01:30 UTC), at 03:00 UTC ("2025-06-09T03:00:00+00:00"): the text compares greater, so the begun class is still listed and bookable | compare the instants: a class that has begun is neither listed nor bookable | high (not executed) | `IsoTimeText.MixedOffsetCounterexample` | `IsoTimeText.BegunClassRefusedByInstant` |

The corrected comparison of instants is the one the rest of the model uses:
`Workflow.Book` (NotFound exactly when no row with the id starts after now)
and `Queries.UpcomingExact`. The text comparison also fails when the current
time carries fractional seconds, because the texts already differ at the hour
digit.
