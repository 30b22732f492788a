/** The calendar of calendar.dfy against rules of the Gregorian calendar that are stated without it. */
module CalendarRules {
  import opened Calendar

  /** Thirty days has September, April, June and November; February 28, or 29 in a leap year. */
  function GregorianLength(y: int, month: nat): nat {
    match month
    case 4 => 30
    case 6 => 30
    case 9 => 30
    case 11 => 30
    case 2 => if (y % 4 == 0 && y % 100 != 0) || y % 400 == 0 then 29 else 28
    case _ => 31
  }

  lemma MonthLengths(y: int, month: nat)
    requires 1 <= month <= 12
    ensures DaysInMonth(month, LeapYear(y)) == GregorianLength(y, month)
  {
    FourHundredIsHundred(y);
  }

  lemma FourHundredIsHundred(y: int)
    ensures y % 400 == 0 ==> y % 100 == 0
    ensures y % 100 == 0 ==> y % 4 == 0
  {
  }

  lemma FirstOfJanuary(y: int)
    ensures DayNumber(y, 1, 1) == DayFromYear(y) && 1 <= DaysInMonth(1, LeapYear(y))
  {
    hide DayFromYear, LeapYear;
  }

  /** Day 0 is Thursday, 1 January 1970. */
  lemma Epoch(y: int)
    requires y == 1970
    ensures YearOf(0) == y && MonthOf(0) == 1 && DateOf(0) == 1 && WeekDay(0) == 4
  {
    hide YearOf, MonthOf, DateOf, LeapYear, MonthStart, DaysInMonth, DayNumber;
    FirstOfJanuary(y);
    FieldsOfDayNumber(y, 1, 1);
  }

  /** The next day has the next weekday and the next date of the month, or is the first of the next month. */
  lemma NextDay(day: int)
    ensures WeekDay(day + 1) == if WeekDay(day) == 6 then 0 else WeekDay(day) + 1
    ensures var y, month, date := YearOf(day), MonthOf(day), DateOf(day);
            && 1 <= month <= 12 && 1 <= date <= GregorianLength(y, month)
            && YearOf(day + 1) == (if month == 12 && date == 31 then y + 1 else y)
            && MonthOf(day + 1) ==
               (if date < GregorianLength(y, month) then month else if month == 12 then 1 else month + 1)
            && DateOf(day + 1) == (if date < GregorianLength(y, month) then date + 1 else 1)
  {
    hide LeapYear, DayFromYear, MonthOf, DateOf, YearOf;
    var y, month, date := YearOf(day), MonthOf(day), DateOf(day);
    DayNumberOfFields(day);
    MonthLengths(y, month);
    if date < GregorianLength(y, month) {
      FieldsOfDayNumber(y, month, date + 1);
    } else if month < 12 {
      MonthLengths(y, month + 1);
      FieldsOfDayNumber(y, month + 1, 1);
    } else {
      NextYear(y);
      FieldsOfDayNumber(y + 1, 1, 1);
    }
  }

  /** The weekday of a date, 0 being Sunday, after Sakamoto: the year is counted from March. */
  function WeekDayRule(y: int, month: nat, date: int): int
    requires 1 <= month <= 12
  {
    var year := if month < 3 then y - 1 else y;
    (year + year / 4 - year / 100 + year / 400 + [0, 3, 2, 5, 0, 3, 5, 1, 4, 6, 2, 4][month - 1] + date) % 7
  }

  /** What the quotients of the leap rule come to in successive years. */
  lemma Quotients(y: int)
    ensures (y - 1969) / 4 == (y - 1) / 4 - 492
    ensures (y - 1901) / 100 == (y - 1) / 100 - 19
    ensures (y - 1601) / 400 == (y - 1) / 400 - 4
  {
  }

  lemma FourthsNext(y: int)
    ensures y / 4 == (y - 1) / 4 + if y % 4 == 0 then 1 else 0
  {
  }

  lemma HundredthsNext(y: int)
    ensures y / 100 == (y - 1) / 100 + if y % 100 == 0 then 1 else 0
  {
  }

  lemma FourHundredthsNext(y: int)
    ensures y / 400 == (y - 1) / 400 + if y % 400 == 0 then 1 else 0
  {
  }

  /** Leap days up to the end of year `y - 1`, and those up to the end of year `y`. */
  lemma LeapDays(y: int)
    ensures y / 4 - y / 100 + y / 400 == (y - 1) / 4 - (y - 1) / 100 + (y - 1) / 400 + if LeapYear(y) then 1 else 0
  {
    FourthsNext(y);
    HundredthsNext(y);
    FourHundredthsNext(y);
    FourHundredIsHundred(y);
  }

  lemma SameRemainder(a: int, b: int, k: int)
    requires a == b + 7 * k
    ensures a % 7 == b % 7
  {
  }

  /** The months start whole weeks apart, but for what the rule allows for. */
  lemma MonthOffsets(month: nat, leap: bool) returns (weeks: int)
    requires 1 <= month <= 12
    ensures MonthStart(month, leap) ==
            7 * weeks + [0, 3, 2, 5, 0, 3, 5, 1, 4, 6, 2, 4][month - 1] + if month < 3 then 0 else if leap then 2 else 1
  {
    weeks := [0, 4, 8, 12, 17, 21, 25, 30, 34, 38, 43, 47][month - 1];
  }

  /** The weekday of every date is the one that the rule gives. */
  lemma WeekDayOfDate(y: int, month: nat, date: int)
    requires 1 <= month <= 12
    ensures WeekDay(DayNumber(y, month, date)) == WeekDayRule(y, month, date)
  {
    hide LeapYear, MonthStart;
    Quotients(y);
    LeapDays(y);
    var weeks := MonthOffsets(month, LeapYear(y));
    var year := if month < 3 then y - 1 else y;
    var counted := year + year / 4 - year / 100 + year / 400 +
      [0, 3, 2, 5, 0, 3, 5, 1, 4, 6, 2, 4][month - 1] + date;
    SameRemainder(DayNumber(y, month, date) + 4, counted, 52 * y + weeks - 102789);
  }
}
