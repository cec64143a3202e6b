/**
 The proleptic Gregorian calendar behind `localtime` and `mktime`, for a fixed offset from UTC: minutes
 since the start of year 1 on one side, broken-down times on the other.
 */
module Calendar {

  // ---------------------------------------------------------------- years

  predicate Leap(year: int) {
    year % 4 == 0 && (year % 100 != 0 || year % 400 == 0)
  }

  lemma LeapYears()
    ensures Leap(2024) && !Leap(2023) && !Leap(1900) && Leap(2000)
  {
  }

  /** Days from the first day of year 1 to the first day of the year. */
  function DaysBefore(year: int): int {
    var k := year - 1;
    365 * k + k / 4 - k / 100 + k / 400
  }

  function YearLength(year: int): int {
    if Leap(year) then 366 else 365
  }

  lemma DivStep(k: int, d: int)
    requires d > 1
    ensures (k + 1) / d == k / d + if (k + 1) % d == 0 then 1 else 0
  {
    var q, r := k / d, k % d;
    assert k + 1 == q * d + (r + 1);
    if r + 1 == d {
      assert k + 1 == (q + 1) * d;
      DivOf(k + 1, d, q + 1, 0);
    } else {
      DivOf(k + 1, d, q, r + 1);
    }
  }

  lemma DivOf(n: int, d: int, q: int, r: int)
    requires d > 1 && n == q * d + r && 0 <= r < d
    ensures n / d == q && n % d == r
  {
    var e := n / d - q;
    assert n == (n / d) * d + n % d;
    assert e * d == r - n % d;
    Multiples(e, d);
  }

  lemma Multiples(e: int, d: int)
    requires d > 1
    ensures e >= 1 ==> e * d >= d
    ensures e <= -1 ==> e * d <= -d
  {
  }

  lemma YearStep(year: int)
    ensures DaysBefore(year + 1) == DaysBefore(year) + YearLength(year)
  {
    DivStep(year - 1, 4);
    DivStep(year - 1, 100);
    DivStep(year - 1, 400);
  }

  lemma {:induction false} YearsGrow(a: int, b: int)
    requires a <= b
    ensures DaysBefore(b) - DaysBefore(a) >= 365 * (b - a)
    decreases b - a
  {
    if a < b {
      YearsGrow(a, b - 1);
      YearStep(b - 1);
    }
  }

  /** A year that starts on or before the day. */
  function EarlyYear(day: int): (year: int)
    ensures DaysBefore(year) <= day
  {
    if day >= 0 then day / 366 + 1 else (day - 1) / 365 + 1
  }

  function YearFrom(day: int, year: int): (y: int)
    requires DaysBefore(year) <= day
    ensures DaysBefore(y) <= day < DaysBefore(y + 1)
    decreases day - DaysBefore(year)
  {
    YearStep(year);
    if day < DaysBefore(year + 1) then year else YearFrom(day, year + 1)
  }

  function YearOf(day: int): (y: int)
    ensures DaysBefore(y) <= day < DaysBefore(y + 1)
  {
    YearFrom(day, EarlyYear(day))
  }

  lemma YearIsUnique(day: int, year: int)
    requires DaysBefore(year) <= day < DaysBefore(year + 1)
    ensures YearOf(day) == year
  {
    hide DaysBefore, YearOf;
    var y := YearOf(day);
    if y < year {
      YearsGrow(y + 1, year);
    } else if year < y {
      YearsGrow(year + 1, y);
    }
  }

  // ---------------------------------------------------------------- months

  type Month = m: int | 0 <= m < 12

  function MonthLength(leap: bool, month: Month): int {
    if month == 1 then (if leap then 29 else 28)
    else if month == 3 || month == 5 || month == 8 || month == 10 then 30
    else 31
  }

  lemma MonthLengths(leap: bool, month: Month)
    ensures MonthLength(leap, month) == [31, if leap then 29 else 28, 31, 30, 31, 30, 31, 31, 30, 31, 30, 31][month]
  {
  }

  function DaysBeforeMonth(leap: bool, month: nat): int
    requires month <= 12
  {
    if month == 0 then 0 else DaysBeforeMonth(leap, month - 1) + MonthLength(leap, month - 1)
  }

  lemma {:induction false} MonthsGrow(leap: bool, a: nat, b: nat)
    requires a <= b <= 12
    ensures DaysBeforeMonth(leap, b) - DaysBeforeMonth(leap, a) >= 28 * (b - a)
    decreases b - a
  {
    if a < b {
      MonthsGrow(leap, a, b - 1);
    }
  }

  lemma QuarterIs(leap: bool, month: nat)
    requires month <= 9
    ensures DaysBeforeMonth(leap, month + 3) == DaysBeforeMonth(leap, month)
              + MonthLength(leap, month) + MonthLength(leap, month + 1) + MonthLength(leap, month + 2)
  {
    assert DaysBeforeMonth(leap, month + 1) == DaysBeforeMonth(leap, month) + MonthLength(leap, month);
    assert DaysBeforeMonth(leap, month + 2) == DaysBeforeMonth(leap, month + 1) + MonthLength(leap, month + 1);
  }

  lemma MonthsMakeAYear(year: int)
    ensures DaysBeforeMonth(Leap(year), 12) == YearLength(year)
  {
    var leap := Leap(year);
    QuarterIs(leap, 0);
    QuarterIs(leap, 3);
    QuarterIs(leap, 6);
    QuarterIs(leap, 9);
  }

  function MonthFrom(leap: bool, day: int, month: Month): (m: Month)
    requires DaysBeforeMonth(leap, month) <= day < DaysBeforeMonth(leap, 12)
    ensures DaysBeforeMonth(leap, m) <= day < DaysBeforeMonth(leap, m + 1)
    decreases 12 - month
  {
    if month == 11 || day < DaysBeforeMonth(leap, month + 1) then month else MonthFrom(leap, day, month + 1)
  }

  lemma MonthIsUnique(leap: bool, day: int, month: Month)
    requires DaysBeforeMonth(leap, month) <= day < DaysBeforeMonth(leap, month + 1)
    requires 0 <= day < DaysBeforeMonth(leap, 12)
    ensures MonthFrom(leap, day, 0) == month
  {
    hide MonthFrom;
    var m := MonthFrom(leap, day, 0);
    if m < month {
      MonthsGrow(leap, m + 1, month);
    } else if month < m {
      MonthsGrow(leap, month + 1, m);
    }
  }

  // ---------------------------------------------------------------- broken-down times

  /** `std::tm` with whole minutes; `mon` counts from 0 and `wday` from Sunday. */
  datatype Tm = Tm(min: int, hour: int, mday: int, mon: Month, year: int, wday: int)
  {
    predicate Valid() {
      && 0 <= min < 60 && 0 <= hour < 24
      && 1 <= mday <= MonthLength(Leap(year), mon)
      && wday == WeekdayOf(DayOf(this))
    }
  }

  function DayOf(tm: Tm): int {
    DaysBefore(tm.year) + DaysBeforeMonth(Leap(tm.year), tm.mon) + tm.mday - 1
  }

  /** The first day of year 1 is a Monday. */
  function WeekdayOf(day: int): int {
    (day + 1) % 7
  }

  /** `mktime`: fields out of range carry over. */
  function MinutesOf(tm: Tm): int {
    (DayOf(tm) * 24 + tm.hour) * 60 + tm.min
  }

  /** The date of a day, with a time on it. */
  function OnDay(day: int, hour: int, min: int): Tm {
    var year := YearOf(day);
    MonthsMakeAYear(year);
    YearStep(year);
    var month := MonthFrom(Leap(year), day - DaysBefore(year), 0);
    var mday := day - DaysBefore(year) - DaysBeforeMonth(Leap(year), month) + 1;
    Tm(min, hour, mday, month, year, WeekdayOf(day))
  }

  /** `localtime`. */
  function Broken(minutes: int): Tm {
    OnDay(minutes / 60 / 24, minutes / 60 % 24, minutes % 60)
  }

  /** What `mktime` leaves in its argument. */
  function Normalised(tm: Tm): Tm {
    Broken(MinutesOf(tm))
  }

  lemma MinutesOfBroken(minutes: int)
    ensures Broken(minutes).Valid() && MinutesOf(Broken(minutes)) == minutes
  {
  }

  lemma BrokenInRange(minutes: int)
    ensures var tm := Broken(minutes);
      0 <= tm.min < 60 && 0 <= tm.hour < 24 && 1 <= tm.mday <= MonthLength(Leap(tm.year), tm.mon) && 0 <= tm.wday < 7
  {
    hide Broken, MonthLength, Leap, DayOf;
    MinutesOfBroken(minutes);
  }

  lemma HoursAndDayOf(tm: Tm)
    requires tm.Valid()
    ensures MinutesOf(tm) / 60 == DayOf(tm) * 24 + tm.hour && MinutesOf(tm) % 60 == tm.min
    ensures MinutesOf(tm) / 60 / 24 == DayOf(tm) && MinutesOf(tm) / 60 % 24 == tm.hour
  {
    var day := DayOf(tm);
    hide DayOf, WeekdayOf, MonthLength;
    DivOf(MinutesOf(tm), 60, day * 24 + tm.hour, tm.min);
    DivOf(day * 24 + tm.hour, 24, day, tm.hour);
  }

  lemma YearAndMonthOf(tm: Tm)
    requires tm.Valid()
    ensures YearOf(DayOf(tm)) == tm.year
    ensures var rest := DayOf(tm) - DaysBefore(tm.year);
      0 <= rest < DaysBeforeMonth(Leap(tm.year), 12) && MonthFrom(Leap(tm.year), rest, 0) == tm.mon
  {
    DayIsInItsYear(tm);
    hide DayOf, DaysBefore, DaysBeforeMonth, MonthLength, Leap, YearOf, MonthFrom, WeekdayOf;
    YearIsUnique(DayOf(tm), tm.year);
    MonthIsUnique(Leap(tm.year), DayOf(tm) - DaysBefore(tm.year), tm.mon);
  }

  lemma OnItsDay(tm: Tm)
    requires tm.Valid()
    ensures OnDay(DayOf(tm), tm.hour, tm.min) == tm
  {
    hide DaysBefore, DaysBeforeMonth, MonthLength, Leap, YearOf, MonthFrom, WeekdayOf;
    YearAndMonthOf(tm);
  }

  /** Every valid broken-down time is the one of exactly its minute. */
  lemma BrokenMinutesOf(tm: Tm)
    requires tm.Valid()
    ensures Broken(MinutesOf(tm)) == tm
  {
    HoursAndDayOf(tm);
    OnItsDay(tm);
    hide OnDay, DayOf, MinutesOf;
  }

  lemma DayIsInItsYear(tm: Tm)
    requires tm.Valid()
    ensures DaysBefore(tm.year) <= DayOf(tm) < DaysBefore(tm.year + 1)
    ensures var rest := DayOf(tm) - DaysBefore(tm.year);
      && DaysBeforeMonth(Leap(tm.year), tm.mon) <= rest < DaysBeforeMonth(Leap(tm.year), tm.mon + 1)
      && rest < DaysBeforeMonth(Leap(tm.year), 12)
  {
    MonthsGrow(Leap(tm.year), 0, tm.mon);
    MonthsGrow(Leap(tm.year), tm.mon + 1, 12);
    MonthsMakeAYear(tm.year);
    YearStep(tm.year);
    hide DaysBefore, Leap;
  }

  /** Adding to the minutes field and normalising moves to that many minutes later. */
  lemma LaterMinute(minutes: int, more: int)
    ensures Normalised(Broken(minutes).(min := Broken(minutes).min + more)) == Broken(minutes + more)
  {
    MinutesOfBroken(minutes);
    hide Broken, DaysBefore, DaysBeforeMonth, Leap;
  }

  lemma TimeOnDay(day: int, hour: int, min: int)
    ensures var tm := OnDay(day, hour, min); tm.wday == WeekdayOf(day) && tm.hour == hour && tm.min == min
  {
    hide DaysBefore, DaysBeforeMonth, Leap, YearOf, MonthFrom, WeekdayOf;
  }

  lemma ADayLater(minutes: int)
    ensures (minutes + 1440) / 60 / 24 == minutes / 60 / 24 + 1
    ensures (minutes + 1440) / 60 % 24 == minutes / 60 % 24 && (minutes + 1440) % 60 == minutes % 60
  {
    DivOf(minutes + 1440, 60, minutes / 60 + 24, minutes % 60);
    DivOf(minutes / 60 + 24, 24, minutes / 60 / 24 + 1, minutes / 60 % 24);
  }

  /** The same time a day later is on the next weekday. */
  lemma NextWeekday(minutes: int)
    ensures Broken(minutes + 1440).wday == (Broken(minutes).wday + 1) % 7
    ensures Broken(minutes + 1440).hour == Broken(minutes).hour && Broken(minutes + 1440).min == Broken(minutes).min
  {
    hide OnDay;
    var day, hour, min := minutes / 60 / 24, minutes / 60 % 24, minutes % 60;
    ADayLater(minutes);
    TimeOnDay(day, hour, min);
    TimeOnDay(day + 1, hour, min);
  }

  /** The first day of 1970 was a Thursday. */
  lemma NewYear1970()
    ensures MinutesOf(Tm(0, 0, 1, 0, 1970, 4)) == 719162 * 1440
    ensures Broken(719162 * 1440) == Tm(0, 0, 1, 0, 1970, 4)
  {
    hide Leap, DaysBefore, Broken;
    DaysBefore1970();
    BrokenMinutesOf(Tm(0, 0, 1, 0, 1970, 4));
  }

  lemma DaysBefore1970()
    ensures DaysBefore(1970) == 719162
  {
  }

  // ---------------------------------------------------------------- every date on every weekday

  lemma LeapYearStarts(j: nat)
    requires j <= 6
    ensures Leap(2004 + 4 * j) && DaysBefore(2004 + 4 * j) == DaysBefore(2004) + 1461 * j
  {
    DivOf(2003 + 4 * j, 4, 500 + j, 3);
    DivOf(2003 + 4 * j, 100, 20, 3 + 4 * j);
    DivOf(2003 + 4 * j, 400, 5, 3 + 4 * j);
  }

  /** Four years move a date by five weekdays, and 5 generates the seven of them. */
  lemma ShiftedWeekday(day: int, w: int) returns (j: nat)
    requires 0 <= w < 7
    ensures j <= 6 && WeekdayOf(day + 1461 * j) == w
  {
    var now := WeekdayOf(day);
    j := (3 * (w - now)) % 7;
    var weeks, q := (day + 1) / 7, (3 * (w - now)) / 7;
    DivOf(day + 1 + 1461 * j, 7, weeks + 208 * j + 2 * (w - now) - 5 * q, w);
  }

  /** Each date of the calendar, 29 February included, falls on each weekday in some year. */
  lemma EveryDateOnEveryWeekday(mon: Month, mday: int, w: int) returns (year: int)
    requires 1 <= mday <= MonthLength(true, mon) && 0 <= w < 7
    ensures Leap(year) && WeekdayOf(DayOf(Tm(0, 0, mday, mon, year, 0))) == w
  {
    LeapYearStarts(0);
    var j := ShiftedWeekday(DayOf(Tm(0, 0, mday, mon, 2004, 0)), w);
    LeapYearStarts(j);
    year := 2004 + 4 * j;
    hide DaysBefore, DaysBeforeMonth, WeekdayOf, Leap;
    assert DayOf(Tm(0, 0, mday, mon, year, 0)) == DayOf(Tm(0, 0, mday, mon, 2004, 0)) + 1461 * j;
  }
}
