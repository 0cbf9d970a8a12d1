/** Days since the Unix epoch for Gregorian dates. */
module Civil {

  import opened Base

  predicate IsLeap(year: int) {
    year % 4 == 0 && (year % 100 != 0 || year % 400 == 0)
  }

  function MonthLength(year: int, month: nat): nat {
    if month == 2 then if IsLeap(year) then 29 else 28
    else if month == 4 || month == 6 || month == 9 || month == 11 then 30
    else 31
  }

  datatype Date = Date(year: int, month: nat, day: nat)

  predicate IsDate(d: Date) {
    1 <= d.month <= 12 && 1 <= d.day <= MonthLength(d.year, d.month)
  }

  /** The calendar's own successor. */
  function NextDay(d: Date): Date {
    if d.day < MonthLength(d.year, d.month) then d.(day := d.day + 1)
    else if d.month < 12 then Date(d.year, d.month + 1, 1)
    else Date(d.year + 1, 1, 1)
  }

  /** Days in the years of an era before year `y` of it. */
  function YearDays(y: nat): int { y * 365 + y / 4 - y / 100 }

  /** Days in a year, counted from March, before the shifted month `m`. */
  function MonthDays(m: nat): int { (153 * m + 2) / 5 }

  function DaysFromCivil(year: int, month: nat, day: nat): int {
    var adjustedYear := if month <= 2 then year - 1 else year;
    var era := adjustedYear / 400;
    var yearOfEra := adjustedYear - era * 400;
    var monthShifted := if month > 2 then month - 3 else month + 9;
    var dayOfYear := MonthDays(monthShifted) + day - 1;
    var dayOfEra := YearDays(yearOfEra) + dayOfYear;
    era * 146_097 + dayOfEra - 719_468
  }

  function Days(d: Date): int { DaysFromCivil(d.year, d.month, d.day) }

  lemma Epoch()
    ensures DaysFromCivil(1970, 1, 1) == 0
  {
  }

  // ------------------------------------------------------------------- one day later

  /** From one month to the next inside a March-based year. */
  lemma MonthStep(year: int, month: nat)
    requires 1 <= month <= 12 && month != 2
    ensures var m := if month > 2 then month - 3 else month + 9;
            MonthDays(m + 1) == MonthDays(m) + MonthLength(year, month)
  {
  }

  /** The days of the March-based year that ends with February of `year`. */
  lemma YearStep(year: int)
    ensures var a, b := (year - 1) / 400, year / 400;
            var y, z := (year - 1) - a * 400, year - b * 400;
            b * 146_097 + YearDays(z) ==
              a * 146_097 + YearDays(y) + MonthDays(11) + MonthLength(year, 2)
  {
    hide YearDays, IsLeap;
    var b := year / 400;
    var z := year - b * 400;
    assert 0 <= z < 400 && year == 400 * b + z;
    LeapInEra(year, b, z);
    if z == 0 {
      assert (year - 1) / 400 == b - 1;
      EraDays();
    } else {
      assert (year - 1) / 400 == b;
      YearGrows(z);
    }
  }

  lemma EraDays()
    ensures YearDays(399) == 146_097 - 366 && YearDays(0) == 0
  {
  }

  lemma YearGrows(z: nat)
    requires 0 < z < 400
    ensures YearDays(z) == YearDays(z - 1) + 365 + if z % 4 == 0 && z % 100 != 0 then 1 else 0
  {
    Fourth(z);
    Hundredth(z);
  }

  lemma Fourth(z: nat)
    requires z > 0
    ensures z / 4 == (z - 1) / 4 + if z % 4 == 0 then 1 else 0
  {
  }

  lemma Hundredth(z: nat)
    requires z > 0
    ensures z / 100 == (z - 1) / 100 + if z % 100 == 0 then 1 else 0
  {
  }

  lemma LeapInEra(year: int, b: int, z: nat)
    requires year == 400 * b + z && z < 400
    ensures IsLeap(year) <==> z % 4 == 0 && (z % 100 != 0 || z == 0)
  {
    ModFour(100 * b, z);
    ModHundred(4 * b, z);
    ModEra(b, z);
  }

  lemma ModFour(k: int, z: nat)
    ensures (4 * k + z) % 4 == z % 4
  {
  }

  lemma ModHundred(k: int, z: nat)
    ensures (100 * k + z) % 100 == z % 100
  {
  }

  lemma ModEra(k: int, z: nat)
    requires z < 400
    ensures (400 * k + z) % 400 == z
  {
  }

  /** The day after a date is exactly one more, across every month, year and era. */
  lemma NextDayIsOneMore(d: Date)
    requires IsDate(d)
    ensures IsDate(NextDay(d)) && Days(NextDay(d)) == Days(d) + 1
  {
    if d.day == MonthLength(d.year, d.month) {
      if d.month == 2 {
        FebruaryEnds(d.year, d.day);
      } else {
        MonthEnds(d);
      }
    }
  }

  lemma FebruaryEnds(year: int, day: nat)
    requires day == MonthLength(year, 2)
    ensures DaysFromCivil(year, 3, 1) == DaysFromCivil(year, 2, day) + 1
  {
    hide YearDays, MonthLength;
    assert MonthDays(0) == 0;
    YearStep(year);
  }

  lemma MonthEnds(d: Date)
    requires IsDate(d) && d.day == MonthLength(d.year, d.month) && d.month != 2
    ensures Days(NextDay(d)) == Days(d) + 1
  {
    hide YearDays, MonthDays;
    MonthStep(d.year, d.month);
  }

  // ------------------------------------------------------------------ order of dates

  predicate Before(a: Date, b: Date) {
    a.year < b.year || (a.year == b.year && (a.month < b.month || (a.month == b.month && a.day < b.day)))
  }

  /** `n` days after a date, by the calendar. */
  function After(d: Date, n: nat): Date {
    if n == 0 then d else NextDay(After(d, n - 1))
  }

  lemma {:induction false} AfterCounts(d: Date, n: nat)
    requires IsDate(d)
    ensures IsDate(After(d, n)) && Days(After(d, n)) == Days(d) + n
    ensures n > 0 ==> Before(d, After(d, n))
  {
    hide DaysFromCivil, MonthLength, NextDay;
    if n > 0 {
      AfterCounts(d, n - 1);
      NextDayIsOneMore(After(d, n - 1));
      NextIsLater(d, After(d, n - 1));
    }
  }

  lemma NextIsLater(a: Date, d: Date)
    requires a == d || Before(a, d)
    ensures Before(a, NextDay(d))
  {
    hide MonthLength;
  }

  /** Every later date is some number of days after. */
  lemma {:induction false} LaterIsAfter(a: Date, b: Date) returns (n: nat)
    requires IsDate(a) && IsDate(b) && Before(a, b)
    ensures n > 0 && After(a, n) == b
    decreases b.year - a.year, b.month + 12 - a.month, b.day + 31 - a.day
  {
    var p := DayBefore(b);
    if p == a {
      n := 1;
      assert After(a, 1) == NextDay(After(a, 0));
    } else {
      n := LaterIsAfter(a, p);
      n := n + 1;
    }
  }

  lemma DayBefore(b: Date) returns (p: Date)
    requires IsDate(b)
    ensures IsDate(p) && NextDay(p) == b && Before(p, b)
    ensures forall a :: IsDate(a) && Before(a, b) ==> a == p || Before(a, p)
  {
    if b.day > 1 {
      p := b.(day := b.day - 1);
    } else if b.month > 1 {
      p := Date(b.year, b.month - 1, MonthLength(b.year, b.month - 1));
    } else {
      p := Date(b.year - 1, 12, 31);
    }
  }

  /** Strictly monotone both ways, hence injective. */
  lemma DaysMonotone(a: Date, b: Date)
    requires IsDate(a) && IsDate(b)
    ensures Days(a) < Days(b) <==> Before(a, b)
    ensures Days(a) == Days(b) <==> a == b
  {
    if Before(a, b) {
      var n := LaterIsAfter(a, b);
      AfterCounts(a, n);
    } else if Before(b, a) {
      var n := LaterIsAfter(b, a);
      AfterCounts(b, n);
    }
  }

  /** The result counts the days from 1 January 1970 by the calendar. */
  lemma CountsFromEpoch(d: Date)
    requires IsDate(d)
    ensures Days(d) >= 0 ==> After(Date(1970, 1, 1), Days(d)) == d
    ensures Days(d) < 0 ==> After(d, -Days(d)) == Date(1970, 1, 1)
  {
    hide DaysFromCivil, IsLeap, MonthLength;
    var epoch := Date(1970, 1, 1);
    Epoch();
    EpochIsDate();
    if Days(d) >= 0 {
      AfterCounts(epoch, Days(d));
      DaysMonotone(After(epoch, Days(d)), d);
    } else {
      AfterCounts(d, -Days(d));
      DaysMonotone(After(d, -Days(d)), epoch);
    }
  }

  lemma EpochIsDate()
    ensures IsDate(Date(1970, 1, 1))
  {
  }
}
