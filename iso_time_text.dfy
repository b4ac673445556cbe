/**
 * How the service compares class times with the current time. The class
 * rows hold their start as ISO-8601 text with the IST offset (`+05:30`), the
 * current time is ISO-8601 text with the UTC offset (`+00:00`), and both the
 * class lookup of a booking and the listing of classes compare the two texts
 * character by character. This module models that text comparison and shows
 * a class that has already begun which the comparison still treats as ahead;
 * the rest of the model compares instants instead.
 */
module IsoTimeText {
  import opened Tables
  import opened Queries
  import opened Workflow

  /** A wall-clock time with its UTC offset in minutes, whole seconds. */
  datatype ZonedTime = ZonedTime(year: int, month: int, day: int, hour: int, minute: int, second: int, offsetMinutes: int)

  ghost predicate Representable(z: ZonedTime) {
    && 0 <= z.year < 10000 && 1 <= z.month <= 12 && 1 <= z.day <= 31
    && 0 <= z.hour < 24 && 0 <= z.minute < 60 && 0 <= z.second < 60
    && -1440 < z.offsetMinutes < 1440
  }

  function Digit(d: int): char
    requires 0 <= d < 10
  {
    ('0' as int + d) as char
  }

  function TwoDigits(n: int): string
    requires 0 <= n < 100
  {
    [Digit(n / 10), Digit(n % 10)]
  }

  function FourDigits(n: int): string
    requires 0 <= n < 10000
  {
    TwoDigits(n / 100) + TwoDigits(n % 100)
  }

  /** The text Python's `isoformat()` gives an aware datetime with no fractional seconds. */
  function IsoText(z: ZonedTime): (t: string)
    requires Representable(z)
    ensures |t| == 25
  {
    DateText(z) + "T" + ClockText(z) + OffsetText(z.offsetMinutes)
  }

  function DateText(z: ZonedTime): string
    requires Representable(z)
  {
    FourDigits(z.year) + "-" + TwoDigits(z.month) + "-" + TwoDigits(z.day)
  }

  function ClockText(z: ZonedTime): string
    requires Representable(z)
  {
    TwoDigits(z.hour) + ":" + TwoDigits(z.minute) + ":" + TwoDigits(z.second)
  }

  function OffsetText(offsetMinutes: int): string
    requires -1440 < offsetMinutes < 1440
  {
    var off := if offsetMinutes < 0 then -offsetMinutes else offsetMinutes;
    (if offsetMinutes < 0 then "-" else "+") + TwoDigits(off / 60) + ":" + TwoDigits(off % 60)
  }

  /** Days from 1970-01-01 to the given date of the proleptic Gregorian calendar. */
  function DaysFromCivil(year: int, month: int, day: int): int
    requires 1 <= month <= 12
  {
    var y := if month <= 2 then year - 1 else year;
    var era := y / 400;
    var yearOfEra := y - era * 400;
    var shiftedMonth := if month > 2 then month - 3 else month + 9;
    var dayOfYear := (153 * shiftedMonth + 2) / 5 + day - 1;
    var dayOfEra := yearOfEra * 365 + yearOfEra / 4 - yearOfEra / 100 + dayOfYear;
    era * 146097 + dayOfEra - 719468
  }

  /** The instant a zoned wall-clock time denotes. */
  function InstantOf(z: ZonedTime): Instant
    requires Representable(z)
  {
    DaysFromCivil(z.year, z.month, z.day) * 86400 + z.hour * 3600 + z.minute * 60 + z.second
    - z.offsetMinutes * 60
  }

  /** SQLite's `a > b` on two TEXT values under the default BINARY collation. */
  function TextAfter(a: string, b: string): (r: bool)
    ensures r ==> a != b
  {
    if a == [] then false
    else if b == [] then true
    else if a[0] != b[0] then a[0] > b[0]
    else TextAfter(a[1..], b[1..])
  }

  /** No two texts each compare after the other. */
  lemma {:induction false} TextAfterAsymmetric(a: string, b: string)
    ensures TextAfter(a, b) ==> !TextAfter(b, a)
  {
    if a != [] && b != [] && a[0] == b[0] {
      TextAfterAsymmetric(a[1..], b[1..]);
    }
  }

  /** A common prefix does not change how two texts compare. */
  lemma {:induction false} TextAfterSkipsPrefix(p: string, a: string, b: string)
    ensures TextAfter(p + a, p + b) == TextAfter(a, b)
  {
    if p != [] {
      assert (p + a)[0] == p[0] == (p + b)[0];
      assert TextAfter(p + a, p + b) == TextAfter((p + a)[1..], (p + b)[1..]);
      assert (p + a)[1..] == p[1..] + a;
      assert (p + b)[1..] == p[1..] + b;
      TextAfterSkipsPrefix(p[1..], a, b);
    } else {
      assert p + a == a && p + b == b;
    }
  }

  /** The seed rows' start instants are the IST wall-clock times `init_db` lists. */
  lemma SeedStartsAreIst()
    ensures SeedClasses[0].start == InstantOf(ZonedTime(2025, 6, 9, 7, 0, 0, 330))
    ensures SeedClasses[1].start == InstantOf(ZonedTime(2025, 6, 9, 18, 30, 0, 330))
    ensures SeedClasses[2].start == InstantOf(ZonedTime(2025, 6, 10, 6, 30, 0, 330))
    ensures SeedClasses[3].start == InstantOf(ZonedTime(2025, 6, 10, 19, 0, 0, 330))
    ensures SeedClasses[4].start == InstantOf(ZonedTime(2025, 6, 11, 7, 30, 0, 330))
  {
    assert DaysFromCivil(2025, 6, 9) == 20248;
  }

  lemma ClassTextAsStored()
    ensures IsoText(ZonedTime(2025, 6, 9, 7, 0, 0, 330)) == "2025-06-09T07:00:00+05:30"
  {
    var z := ZonedTime(2025, 6, 9, 7, 0, 0, 330);
    DateOfSeedDay(z);
    assert ClockText(z) == "07:00:00" by {
      assert TwoDigits(7) == "07" && TwoDigits(0) == "00";
    }
    assert OffsetText(330) == "+05:30" by {
      assert TwoDigits(5) == "05" && TwoDigits(30) == "30";
    }
  }

  lemma NowTextInUtc()
    ensures IsoText(ZonedTime(2025, 6, 9, 3, 0, 0, 0)) == "2025-06-09T03:00:00+00:00"
  {
    var z := ZonedTime(2025, 6, 9, 3, 0, 0, 0);
    DateOfSeedDay(z);
    assert ClockText(z) == "03:00:00" by {
      assert TwoDigits(3) == "03" && TwoDigits(0) == "00";
    }
    assert OffsetText(0) == "+00:00" by {
      assert TwoDigits(0) == "00";
    }
  }

  lemma DateOfSeedDay(z: ZonedTime)
    requires Representable(z) && z.year == 2025 && z.month == 6 && z.day == 9
    ensures DateText(z) == "2025-06-09"
  {
    assert FourDigits(2025) == "2025" by {
      assert TwoDigits(20) == "20" && TwoDigits(25) == "25";
    }
    assert TwoDigits(6) == "06" && TwoDigits(9) == "09";
  }

  /** The stored text of the Yoga Flow row compares after the text of 03:00 UTC that day. */
  lemma ClassTextAfterNowText()
    ensures TextAfter("2025-06-09T07:00:00+05:30", "2025-06-09T03:00:00+00:00")
  {
    var prefix, classRest, nowRest := "2025-06-09T0", "7:00:00+05:30", "3:00:00+00:00";
    assert prefix + classRest == "2025-06-09T07:00:00+05:30";
    assert prefix + nowRest == "2025-06-09T03:00:00+00:00";
    TextAfterSkipsPrefix(prefix, classRest, nowRest);
  }

  /**
   * At 03:00 UTC on 2025-06-09 the Yoga Flow class (07:00 IST, that is 01:30
   * UTC) has begun 90 minutes earlier, yet its stored text compares after the
   * text of the current time, so `WHERE datetime > ?` keeps the row.
   */
  lemma MixedOffsetCounterexample()
    ensures TextAfter(IsoText(ZonedTime(2025, 6, 9, 7, 0, 0, 330)), IsoText(ZonedTime(2025, 6, 9, 3, 0, 0, 0)))
    ensures InstantOf(ZonedTime(2025, 6, 9, 7, 0, 0, 330)) < InstantOf(ZonedTime(2025, 6, 9, 3, 0, 0, 0))
  {
    ClassTextAsStored();
    NowTextInUtc();
    ClassTextAfterNowText();
  }

  /**
   * Comparing instants, at that same moment the class lookup refuses Yoga Flow
   * as already begun and the listing of classes leaves it out.
   */
  lemma BegunClassRefusedByInstant()
    ensures var now := InstantOf(ZonedTime(2025, 6, 9, 3, 0, 0, 0));
            && Book(SeedDb(), Request(1, "John Doe", "john.doe@example.com"), now).outcome == Rejected(NotFound)
            && SeedClasses[0] !in UpcomingClasses(SeedClasses, now)
  {
    var now := InstantOf(ZonedTime(2025, 6, 9, 3, 0, 0, 0));
    assert DaysFromCivil(2025, 6, 9) == 20248;
    assert now == 1749438000;
    UpcomingExact(SeedClasses, now, SeedClasses[0]);
  }
}
