/**
 * UTC calendar fields of a day number, as "Time Values and Time Range" in section 21.4.1 of
 * ECMA-262 defines them: proleptic Gregorian calendar, day 0 is 1 January 1970.
 */
module Calendar {

  predicate LeapYear(y: int) {
    y % 4 == 0 && (y % 100 != 0 || y % 400 == 0)
  }

  function DaysInYear(y: int): int {
    if LeapYear(y) then 366 else 365
  }

  /** The day number of 1 January of year `y`. */
  function DayFromYear(y: int): int {
    365 * (y - 1970) + (y - 1969) / 4 - (y - 1901) / 100 + (y - 1601) / 400
  }

  lemma FourYears(y: int)
    ensures (y - 1968) / 4 == (y - 1969) / 4 + if y % 4 == 0 then 1 else 0
  {
  }

  lemma HundredYears(y: int)
    ensures (y - 1900) / 100 == (y - 1901) / 100 + if y % 100 == 0 then 1 else 0
  {
  }

  lemma FourHundredYears(y: int)
    ensures (y - 1600) / 400 == (y - 1601) / 400 + if y % 400 == 0 then 1 else 0
  {
  }

  lemma YearMultiples(y: int)
    ensures y % 100 == 0 ==> y % 4 == 0
    ensures y % 400 == 0 ==> y % 100 == 0
  {
  }

  lemma NextYear(y: int)
    ensures DayFromYear(y + 1) == DayFromYear(y) + DaysInYear(y)
  {
    FourYears(y);
    HundredYears(y);
    FourHundredYears(y);
    YearMultiples(y);
  }

  lemma YearLength(y: int)
    ensures DayFromYear(y) + 365 <= DayFromYear(y + 1) <= DayFromYear(y) + 366
  {
    hide DayFromYear, LeapYear;
    NextYear(y);
  }

  /** The year that holds day `day`, found by stepping from `guess`. */
  function YearFrom(day: int, guess: int): (y: int)
    ensures DayFromYear(y) <= day < DayFromYear(y + 1)
    decreases if day < DayFromYear(guess) then 1 else 0,
              if day < DayFromYear(guess) then DayFromYear(guess) - day else day - DayFromYear(guess)
  {
    hide DayFromYear;
    YearLength(guess - 1);
    YearLength(guess);
    if day < DayFromYear(guess) then YearFrom(day, guess - 1)
    else if day >= DayFromYear(guess + 1) then YearFrom(day, guess + 1)
    else guess
  }

  function YearOf(day: int): (y: int)
    ensures DayFromYear(y) <= day < DayFromYear(y + 1)
  {
    YearFrom(day, 1970)
  }

  lemma {:induction false} YearsAscend(y: int, z: int)
    requires y <= z
    ensures DayFromYear(y) + 365 * (z - y) <= DayFromYear(z) <= DayFromYear(y) + 366 * (z - y)
    decreases z - y
  {
    hide DayFromYear;
    if y < z {
      YearsAscend(y, z - 1);
      YearLength(z - 1);
    }
  }

  lemma YearUnique(day: int, y: int)
    requires DayFromYear(y) <= day < DayFromYear(y + 1)
    ensures YearOf(day) == y
  {
    var z := YearOf(day);
    if y < z {
      YearsAscend(y + 1, z);
    } else if z < y {
      YearsAscend(z + 1, y);
    }
  }

  /** The number of days of year `y` before the first of month `month`. */
  function MonthStart(month: nat, leap: bool): nat
    requires 1 <= month <= 13
  {
    [0, 31, 59, 90, 120, 151, 181, 212, 243, 273, 304, 334, 365][month - 1] +
    if leap && month > 2 then 1 else 0
  }

  function DaysInMonth(month: nat, leap: bool): nat
    requires 1 <= month <= 12
  {
    MonthStart(month + 1, leap) - MonthStart(month, leap)
  }

  /** The month, at least `guess`, that holds day-in-year `n`. */
  function MonthFrom(n: int, leap: bool, guess: nat): (month: nat)
    requires 1 <= guess <= 12
    requires MonthStart(guess, leap) <= n < MonthStart(13, leap)
    ensures guess <= month <= 12
    ensures MonthStart(month, leap) <= n < MonthStart(month + 1, leap)
    decreases 12 - guess
  {
    if n < MonthStart(guess + 1, leap) then guess else MonthFrom(n, leap, guess + 1)
  }

  /** `getUTCMonth() + 1` */
  function MonthOf(day: int): (month: nat)
    ensures 1 <= month <= 12
  {
    var y := YearOf(day);
    NextYear(y);
    MonthFrom(day - DayFromYear(y), LeapYear(y), 1)
  }

  /** `getUTCDate()` */
  function DateOf(day: int): int {
    var y := YearOf(day);
    day - DayFromYear(y) - MonthStart(MonthOf(day), LeapYear(y)) + 1
  }

  /** `getUTCDay()`, 0 being Sunday. */
  function WeekDay(day: int): (w: int)
    ensures 0 <= w <= 6
  {
    (day + 4) % 7
  }

  /** The day number of a civil date. */
  function DayNumber(y: int, month: nat, date: int): int
    requires 1 <= month <= 12
  {
    DayFromYear(y) + MonthStart(month, LeapYear(y)) + date - 1
  }

  lemma {:induction false} MonthsAscend(m: nat, n: nat, leap: bool)
    requires 1 <= m <= n <= 13
    ensures MonthStart(m, leap) <= MonthStart(n, leap)
    decreases n - m
  {
    if m < n {
      MonthsAscend(m + 1, n, leap);
    }
  }

  /** Every day has one civil date: the fields of a valid date's day number are that date. */
  lemma FieldsOfDayNumber(y: int, month: nat, date: int)
    requires 1 <= month <= 12
    requires 1 <= date <= DaysInMonth(month, LeapYear(y))
    ensures var day := DayNumber(y, month, date);
            YearOf(day) == y && MonthOf(day) == month && DateOf(day) == date
  {
    var day := DayNumber(y, month, date);
    var leap := LeapYear(y);
    MonthsAscend(month + 1, 13, leap);
    NextYear(y);
    YearUnique(day, y);
    var m := MonthOf(day);
    if m < month {
      MonthsAscend(m + 1, month, leap);
    } else if month < m {
      MonthsAscend(month + 1, m, leap);
    }
  }

  /** ... and every day number is that of its own fields, which form a valid date. */
  lemma DayNumberOfFields(day: int)
    ensures DayNumber(YearOf(day), MonthOf(day), DateOf(day)) == day
    ensures 1 <= DateOf(day) <= DaysInMonth(MonthOf(day), LeapYear(YearOf(day)))
  {
    NextYear(YearOf(day));
  }

  /** The longest a month gets in any year. */
  function LongestMonth(month: nat): nat
    requires 1 <= month <= 12
  {
    DaysInMonth(month, true)
  }

  predicate HasDate(day: int, month: nat, date: int) {
    MonthOf(day) == month && DateOf(day) == date
  }

  /** Only multiples of four are leap years, and of two in succession one is. */
  lemma LeapYearSpacing(y: int)
    ensures LeapYear(y) ==> y % 4 == 0
    ensures y % 4 == 0 ==> LeapYear(y) || LeapYear(y + 4)
    ensures y % 4 == 0 && !LeapYear(y) ==> LeapYear(y - 4)
  {
    if y % 4 == 0 && !LeapYear(y) {
      assert y % 100 == 0;
      assert (y + 4) % 100 == 4 && (y - 4) % 100 == 96;
    }
  }

  lemma NoMultipleOfFour(y: int, x: int)
    requires y % 4 == 0 && y < x < y + 4
    ensures x % 4 != 0
  {
  }

  /** No leap year strictly between neighbouring multiples of four. */
  lemma CommonBetween(y: int)
    requires y % 4 == 0
    ensures forall x :: y < x < y + 4 ==> !LeapYear(x)
  {
    hide LeapYear;
    forall x | y < x < y + 4 ensures !LeapYear(x) {
      NoMultipleOfFour(y, x);
      LeapYearSpacing(x);
    }
  }

  /** The first leap year after `y`: within eight years, and within seven unless `y` is leap itself. */
  lemma NextLeapYear(y: int) returns (z: int)
    ensures y < z <= y + 8 && LeapYear(z)
    ensures z == y + 8 ==> LeapYear(y)
    ensures forall x :: y < x < z ==> !LeapYear(x)
  {
    var multiple := y - y % 4;
    z := multiple + 4;
    CommonBetween(multiple);
    LeapYearSpacing(z);
    if !LeapYear(z) {
      CommonBetween(z);
      z := z + 4;
    }
  }

  lemma {:induction false} CommonYears(y: int, z: int)
    requires y <= z
    requires forall x :: y <= x < z ==> !LeapYear(x)
    ensures DayFromYear(z) == DayFromYear(y) + 365 * (z - y)
    decreases z - y
  {
    hide DayFromYear, LeapYear;
    if y < z {
      CommonYears(y, z - 1);
      NextYear(z - 1);
    }
  }

  /** Within the 2921 days after any day there is a 29 February. */
  lemma FebruaryGap(day: int) returns (found: int)
    ensures day < found <= day + 2921
    ensures HasDate(found, 2, 29)
  {
    hide LeapYear, DayFromYear;
    var y := YearOf(day + 1);
    NextYear(y);
    if LeapYear(y) && day + 1 <= DayNumber(y, 2, 29) {
      found := DayNumber(y, 2, 29);
      FieldsOfDayNumber(y, 2, 29);
      return;
    }
    var z := NextLeapYear(y);
    found := DayNumber(z, 2, 29);
    FieldsOfDayNumber(z, 2, 29);
    CommonYears(y + 1, z);
  }

  lemma FebruaryDayFound(day: int)
    requires HasDate(day, 2, 29)
    ensures LeapYear(YearOf(day)) && day == DayNumber(YearOf(day), 2, 29)
  {
    DayNumberOfFields(day);
  }

  lemma NoFebruaryDayBetween(y: int, z: int, day: int)
    requires forall x :: y < x < z ==> !LeapYear(x)
    requires DayNumber(y, 2, 29) < day < DayNumber(z, 2, 29)
    ensures !HasDate(day, 2, 29)
  {
    if HasDate(day, 2, 29) {
      FebruaryDayFound(day);
      if YearOf(day) <= y {
        YearsAscend(YearOf(day), y);
      } else {
        YearsAscend(z, YearOf(day));
      }
    }
  }

  lemma EightYears(y: int)
    requires LeapYear(y) && !LeapYear(y + 4)
    ensures LeapYear(y + 8) && forall x :: y < x < y + 8 ==> !LeapYear(x)
    ensures DayNumber(y + 8, 2, 29) == DayNumber(y, 2, 29) + 2921
  {
    LeapYearSpacing(y);
    LeapYearSpacing(y + 4);
    CommonBetween(y);
    CommonBetween(y + 4);
    hide LeapYear, DayFromYear;
    NextYear(y);
    CommonYears(y + 1, y + 8);
  }

  /**
   * The bound is attained around every century year that is not leap, as from 1896 to 1904: the
   * next 29 February is 2921 days away.
   */
  lemma FebruaryGapIsLongest(y: int, first: int)
    requires LeapYear(y) && !LeapYear(y + 4)
    requires first == DayNumber(y, 2, 29)
    ensures HasDate(first, 2, 29) && HasDate(first + 2921, 2, 29)
    ensures forall d :: first < d < first + 2921 ==> !HasDate(d, 2, 29)
  {
    hide LeapYear, DayFromYear, MonthOf, DateOf;
    EightYears(y);
    FieldsOfDayNumber(y, 2, 29);
    FieldsOfDayNumber(y + 8, 2, 29);
    forall d | first < d < first + 2921
      ensures !HasDate(d, 2, 29)
    {
      NoFebruaryDayBetween(y, y + 8, d);
    }
  }

  /** Within the 2921 days after any day every date that some year has occurs. */
  lemma DateGap(day: int, month: nat, date: int) returns (found: int)
    requires 1 <= month <= 12 && 1 <= date <= LongestMonth(month)
    ensures day < found <= day + 2921
    ensures HasDate(found, month, date)
  {
    hide LeapYear, DayFromYear;
    if month == 2 && date == 29 {
      found := FebruaryGap(day);
    } else {
      var y := YearOf(day + 1);
      if DayNumber(y, month, date) <= day {
        y := y + 1;
        NextYear(y);
        NextYear(y - 1);
      }
      found := DayNumber(y, month, date);
      FieldsOfDayNumber(y, month, date);
    }
  }
}
