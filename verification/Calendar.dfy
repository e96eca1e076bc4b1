/** The Gregorian calendar, as far as the end of the last year a timestamp can tell. */
module Calendar {

  predicate IsLeap(year: nat) {
    year % 4 == 0 && (year % 100 != 0 || year % 400 == 0)
  }

  // The days from 1970-01-01 to the first day of `year`.
  function DaysBefore(year: nat): nat
    requires year >= 1970
  {
    if year == 1970 then 0 else DaysBefore(year - 1) + if IsLeap(year - 1) then 366 else 365
  }

  function LeapsBefore(year: nat): int
    requires year > 0
  {
    (year - 1) / 4 - (year - 1) / 100 + (year - 1) / 400
  }

  lemma FourthYear(year: nat)
    requires year > 0
    ensures year / 4 - (year - 1) / 4 == if year % 4 == 0 then 1 else 0
  {
  }

  lemma HundredthYear(year: nat)
    requires year > 0
    ensures year / 100 - (year - 1) / 100 == if year % 100 == 0 then 1 else 0
  {
  }

  lemma FourHundredthYear(year: nat)
    requires year > 0
    ensures year / 400 - (year - 1) / 400 == if year % 400 == 0 then 1 else 0
  {
  }

  lemma EveryHundredth(year: nat)
    ensures year % 100 == 0 ==> year % 4 == 0
    ensures year % 400 == 0 ==> year % 100 == 0
  {
    if year % 100 == 0 {
      assert year == 4 * (25 * (year / 100));
    }
    if year % 400 == 0 {
      assert year == 100 * (4 * (year / 400));
    }
  }

  lemma OneMoreYear(year: nat)
    requires year > 0
    ensures LeapsBefore(year + 1) == LeapsBefore(year) + if IsLeap(year) then 1 else 0
  {
    FourthYear(year);
    HundredthYear(year);
    FourHundredthYear(year);
    EveryHundredth(year);
  }

  lemma {:induction false} DaysAre(year: nat)
    requires year >= 1970
    ensures DaysBefore(year) == 365 * (year - 1970) + LeapsBefore(year) - LeapsBefore(1970)
  {
    if year == 1970 {
    } else {
      DaysAre(year - 1);
      OneMoreYear(year - 1);
    }
  }

  // The last second before the year 10000.
  lemma LastSecond(year: nat)
    requires year == 10000
    ensures DaysBefore(year) * 24 * 60 * 60 - 1 == 253402300799
  {
    DaysAre(year);
  }
}
