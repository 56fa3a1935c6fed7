/** Calendar arithmetic that the screens take from `moment`: proleptic
    Gregorian dates as (year, month, day) triples, day numbers counted from
    1970-01-01, the weekday of a date, adding days and months, and instants
    as millisecond timestamps on the local time line. */
module Dates {

  datatype Date = Date(year: int, month: int, day: int)

  /** The Gregorian leap-year rule. */
  predicate IsLeapYear(y: int) {
    y % 4 == 0 && (y % 100 != 0 || y % 400 == 0)
  }

  /** `moment().daysInMonth()` for month `m` (1 = January) of year `y`. */
  function DaysInMonth(y: int, m: int): (n: int)
    requires 1 <= m <= 12
    ensures 28 <= n <= 31
    ensures n == 29 <==> m == 2 && IsLeapYear(y)
    ensures n == 28 <==> m == 2 && !IsLeapYear(y)
  {
    if m == 2 then (if IsLeapYear(y) then 29 else 28)
    else if m == 4 || m == 6 || m == 9 || m == 11 then 30
    else 31
  }

  predicate ValidDate(d: Date) {
    1 <= d.month <= 12 && 1 <= d.day <= DaysInMonth(d.year, d.month)
  }

  function DaysInYear(y: int): int {
    if IsLeapYear(y) then 366 else 365
  }

  /** Day number of January 1st of year `y`: the lengths of the years
      between 1970 and `y`, added going forward and subtracted going back. */
  function YearStart(y: int): int
    decreases if y >= 1970 then y - 1970 else 1970 - y
  {
    if y == 1970 then 0
    else if y > 1970 then YearStart(y - 1) + DaysInYear(y - 1)
    else YearStart(y + 1) - DaysInYear(y)
  }

  lemma YearStartStep(y: int)
    ensures YearStart(y + 1) == YearStart(y) + DaysInYear(y)
  {
  }

  /** Later years start after earlier years end. */
  lemma {:induction false} YearStartMonotone(a: int, b: int)
    requires a < b
    ensures YearStart(a) + DaysInYear(a) <= YearStart(b)
    decreases b - a
  {
    YearStartStep(a);
    if a + 1 < b {
      YearStartMonotone(a + 1, b);
    }
  }

  /** Days of year `y` before the first of month `m`; month 13 stands for
      the end of the year. */
  function DaysBeforeMonth(y: int, m: int): int
    requires 1 <= m <= 13
  {
    var base :=
      if m == 1 then 0 else if m == 2 then 31 else if m == 3 then 59
      else if m == 4 then 90 else if m == 5 then 120 else if m == 6 then 151
      else if m == 7 then 181 else if m == 8 then 212 else if m == 9 then 243
      else if m == 10 then 273 else if m == 11 then 304 else if m == 12 then 334
      else 365;
    base + (if m > 2 && IsLeapYear(y) then 1 else 0)
  }

  lemma DaysBeforeMonthStep(y: int, m: int)
    requires 1 <= m <= 12
    ensures DaysBeforeMonth(y, m + 1) == DaysBeforeMonth(y, m) + DaysInMonth(y, m)
    ensures DaysBeforeMonth(y, 1) == 0 && DaysBeforeMonth(y, 13) == DaysInYear(y)
  {
  }

  lemma {:induction false} DaysBeforeMonthMonotone(y: int, a: int, b: int)
    requires 1 <= a < b <= 13
    ensures DaysBeforeMonth(y, a) + DaysInMonth(y, a) <= DaysBeforeMonth(y, b)
    decreases b - a
  {
    DaysBeforeMonthStep(y, a);
    if a + 1 < b {
      DaysBeforeMonthMonotone(y, a + 1, b);
    }
  }

  /** Days from 1970-01-01 to `d` (negative before it). */
  function DayNumber(d: Date): int
    requires ValidDate(d)
  {
    YearStart(d.year) + DaysBeforeMonth(d.year, d.month) + d.day - 1
  }

  /** A valid date's day number falls inside its own year. */
  lemma DayNumberInYear(d: Date)
    requires ValidDate(d)
    ensures YearStart(d.year) <= DayNumber(d) < YearStart(d.year) + DaysInYear(d.year)
  {
    DaysBeforeMonthStep(d.year, d.month);
    if d.month < 12 {
      DaysBeforeMonthMonotone(d.year, d.month + 1, 13);
    }
  }

  function YearUp(n: int, y: int): (r: int)
    requires YearStart(y) <= n
    ensures YearStart(r) <= n < YearStart(r) + DaysInYear(r)
    decreases n - YearStart(y)
  {
    YearStartStep(y);
    if n < YearStart(y) + DaysInYear(y) then y else YearUp(n, y + 1)
  }

  function YearDown(n: int, y: int): (r: int)
    requires n < YearStart(y) + DaysInYear(y)
    ensures YearStart(r) <= n < YearStart(r) + DaysInYear(r)
    decreases YearStart(y) - n
  {
    YearStartStep(y - 1);
    if YearStart(y) <= n then y else YearDown(n, y - 1)
  }

  /** The year whose days include day number `n`. */
  function YearOf(n: int): (y: int)
    ensures YearStart(y) <= n < YearStart(y) + DaysInYear(y)
  {
    YearStartStep(1969);
    if n >= 0 then YearUp(n, 1970) else YearDown(n, 1969)
  }

  /** The month of year `y`, at most `m`, that contains day `off` of the year. */
  function MonthFrom(y: int, off: int, m: int): (r: int)
    requires 1 <= m <= 12 && 0 <= off < DaysBeforeMonth(y, m + 1)
    ensures 1 <= r <= m && DaysBeforeMonth(y, r) <= off < DaysBeforeMonth(y, r + 1)
    decreases m
  {
    DaysBeforeMonthStep(y, m);
    if DaysBeforeMonth(y, m) <= off || m == 1 then m else MonthFrom(y, off, m - 1)
  }

  /** The date with day number `n`. */
  function FromDayNumber(n: int): (d: Date)
    ensures ValidDate(d) && DayNumber(d) == n
  {
    var y := YearOf(n);
    DaysBeforeMonthStep(y, 12);
    var off := n - YearStart(y);
    var m := MonthFrom(y, off, 12);
    DaysBeforeMonthStep(y, m);
    Date(y, m, off - DaysBeforeMonth(y, m) + 1)
  }

  /** Dates with the same day number are in the same year. */
  lemma SameDayNumberSameYear(a: Date, b: Date)
    requires ValidDate(a) && ValidDate(b) && DayNumber(a) == DayNumber(b)
    ensures a.year == b.year
  {
    DayNumberInYear(a);
    DayNumberInYear(b);
    if a.year < b.year {
      YearStartMonotone(a.year, b.year);
    } else if b.year < a.year {
      YearStartMonotone(b.year, a.year);
    }
  }

  /** Dates with the same day number are the same date. */
  lemma SameDayNumberSameDate(a: Date, b: Date)
    requires ValidDate(a) && ValidDate(b) && DayNumber(a) == DayNumber(b)
    ensures a == b
  {
    SameDayNumberSameYear(a, b);
    var y := a.year;
    DaysBeforeMonthStep(y, a.month);
    DaysBeforeMonthStep(y, b.month);
    if a.month < b.month {
      DaysBeforeMonthMonotone(y, a.month, b.month);
    } else if b.month < a.month {
      DaysBeforeMonthMonotone(y, b.month, a.month);
    }
  }

  /** Day numbers and dates are in one-to-one correspondence. */
  lemma DateRoundTrip(d: Date)
    requires ValidDate(d)
    ensures FromDayNumber(DayNumber(d)) == d
  {
    SameDayNumberSameDate(FromDayNumber(DayNumber(d)), d);
  }

  lemma DayNumberInjective(a: Date, b: Date)
    requires ValidDate(a) && ValidDate(b)
    ensures DayNumber(a) == DayNumber(b) <==> a == b
  {
    if DayNumber(a) == DayNumber(b) {
      DateRoundTrip(a);
      DateRoundTrip(b);
    }
  }

  /** The calendar day after `d`. */
  function NextDay(d: Date): (r: Date)
    requires ValidDate(d)
    ensures ValidDate(r) && DayNumber(r) == DayNumber(d) + 1
  {
    DaysBeforeMonthStep(d.year, d.month);
    YearStartStep(d.year);
    if d.day < DaysInMonth(d.year, d.month) then Date(d.year, d.month, d.day + 1)
    else if d.month < 12 then Date(d.year, d.month + 1, 1)
    else Date(d.year + 1, 1, 1)
  }

  /** `moment(d).add(n, 'days')` on calendar dates. */
  function AddDays(d: Date, n: int): Date
    requires ValidDate(d)
  {
    FromDayNumber(DayNumber(d) + n)
  }

  lemma AddOneDay(d: Date)
    requires ValidDate(d)
    ensures AddDays(d, 1) == NextDay(d)
  {
    DateRoundTrip(NextDay(d));
  }

  lemma {:induction false} AddDaysAdds(d: Date, a: int, b: int)
    requires ValidDate(d)
    ensures AddDays(AddDays(d, a), b) == AddDays(d, a + b)
    ensures AddDays(d, 0) == d
  {
    var n := DayNumber(d);
    assert DayNumber(AddDays(d, a)) == n + a;
    DateRoundTrip(d);
  }

  /** Leap years among years 1..x (counted with floor division for x < 1). */
  function LeapCount(x: int): int {
    x / 4 - x / 100 + x / 400
  }

  /** One step of floor division by a constant divisor. */
  lemma DivStep(y: int, k: int)
    requires k == 4 || k == 100 || k == 400
    ensures y / k == (y - 1) / k + (if y % k == 0 then 1 else 0)
  {
  }

  /** Multiples of 400 are multiples of 100, and those are multiples of 4. */
  lemma DivisorChain(y: int)
    ensures y % 400 == 0 ==> y % 100 == 0
    ensures y % 100 == 0 ==> y % 4 == 0
  {
    MultipleMod(y / 400, 4, 100);
    MultipleMod(y / 100, 25, 4);
  }

  /** A multiple of `a * k` is a multiple of `k`. */
  lemma MultipleMod(q: int, a: int, k: int)
    requires (a == 4 && k == 100) || (a == 25 && k == 4)
    ensures (a * k * q) % k == 0
  {
    assert a * k * q == k * (a * q);
  }

  lemma LeapCountStep(y: int)
    ensures LeapCount(y) == LeapCount(y - 1) + (if IsLeapYear(y) then 1 else 0)
  {
    DivisorChain(y);
    DivStep(y, 4);
    DivStep(y, 100);
    DivStep(y, 400);
  }

  /** Closed form of `YearStart`. */
  lemma {:induction false} YearStartClosed(y: int)
    ensures YearStart(y) == 365 * (y - 1970) + LeapCount(y - 1) - 477
    decreases if y >= 1970 then y - 1970 else 1970 - y
  {
    if y > 1970 {
      YearStartClosed(y - 1);
      LeapCountStep(y - 1);
    } else if y < 1970 {
      YearStartClosed(y + 1);
      LeapCountStep(y);
    }
  }

  /** Sakamoto's month offsets: 0, 3, 2, 5, 0, 3, 5, 1, 4, 6, 2, 4. */
  function SakamotoOffset(m: int): int
    requires 1 <= m <= 12
  {
    [0, 3, 2, 5, 0, 3, 5, 1, 4, 6, 2, 4][m - 1]
  }

  /** `moment(d).day()`: the weekday of a date, 0 = Sunday, by Sakamoto's method. */
  function Weekday(d: Date): (w: int)
    requires 1 <= d.month <= 12
    ensures 0 <= w < 7
  {
    var y := if d.month < 3 then d.year - 1 else d.year;
    (y + LeapCount(y) + SakamotoOffset(d.month) + d.day) % 7
  }

  lemma ModSevenShift(a: int, k: int)
    ensures (a + 7 * k) % 7 == a % 7
  {
  }

  /** Sakamoto's offsets track the month lengths modulo 7. */
  lemma SakamotoTable(y: int, m: int)
    requires 1 <= m <= 12
    ensures DaysBeforeMonth(y, m) - (if m > 2 && IsLeapYear(y) then 1 else 0)
            - SakamotoOffset(m) - (if m < 3 then 0 else 1)
            == 7 * [0, 4, 8, 12, 17, 21, 25, 30, 34, 38, 43, 47][m - 1]
  {
  }

  /** Sakamoto's weekday agrees with counting days from 1970-01-01, a Thursday. */
  lemma WeekdayByDayNumber(d: Date)
    requires ValidDate(d)
    ensures Weekday(d) == (DayNumber(d) + 4) % 7
  {
    var y, m := d.year, d.month;
    var sy := if m < 3 then y - 1 else y;
    var sak := sy + LeapCount(sy) + SakamotoOffset(m) + d.day;
    assert Weekday(d) == sak % 7;
    YearStartClosed(y);
    LeapCountStep(y);
    SakamotoTable(y, m);
    var c := [0, 4, 8, 12, 17, 21, 25, 30, 34, 38, 43, 47][m - 1];
    assert DayNumber(d) + 4 == sak + 7 * (52 * y - 102789 + c);
    ModSevenShift(sak, 52 * y - 102789 + c);
  }

  /** `year * 12 + month`, counted from 0 = January of year 0. */
  function MonthIndex(d: Date): int {
    d.year * 12 + d.month - 1
  }

  lemma MonthIndexInjective(a: Date, b: Date)
    requires 1 <= a.month <= 12 && 1 <= b.month <= 12
    ensures MonthIndex(a) == MonthIndex(b) <==> a.year == b.year && a.month == b.month
  {
    if MonthIndex(a) == MonthIndex(b) {
      assert (a.year - b.year) * 12 == b.month - a.month;
    }
  }

  /** `moment(d).add(n, 'months')`: shift year and month, then clamp the day
      to the length of the target month. */
  function AddMonths(d: Date, n: int): (r: Date)
    requires ValidDate(d)
    ensures ValidDate(r)
    ensures MonthIndex(r) == MonthIndex(d) + n
    ensures r.day == if d.day <= DaysInMonth(r.year, r.month) then d.day else DaysInMonth(r.year, r.month)
  {
    var idx := MonthIndex(d) + n;
    var y, m := idx / 12, idx % 12 + 1;
    Date(y, m, if d.day <= DaysInMonth(y, m) then d.day else DaysInMonth(y, m))
  }

  /** Going `n` months forward and back returns to the same year and month;
      the day survives unless the month in between was too short for it. */
  lemma AddMonthsRoundTrip(d: Date, n: int)
    requires ValidDate(d)
    ensures AddMonths(AddMonths(d, n), -n).year == d.year
    ensures AddMonths(AddMonths(d, n), -n).month == d.month
    ensures d.day <= DaysInMonth(AddMonths(d, n).year, AddMonths(d, n).month) ==> AddMonths(AddMonths(d, n), -n) == d
  {
    MonthIndexInjective(AddMonths(AddMonths(d, n), -n), d);
  }

  // ---- instants --------------------------------------------------------

  /** Milliseconds in a day. Daylight-saving transitions are not modelled:
      every local day is this long. */
  const DayMs: int := 86400000

  /** The local calendar date of the instant `t` (ms on the local time line). */
  function DateOf(t: int): (d: Date)
    ensures ValidDate(d)
  {
    FromDayNumber(t / DayMs)
  }

  /** Instants in the same day-long band have the date of that band's day number. */
  lemma DateOfDay(t: int, n: int)
    requires t / DayMs == n
    ensures DateOf(t) == FromDayNumber(n)
  {
  }

  /** The date of an instant is the one whose day number is the instant's whole days. */
  lemma DateOfDayNumber(t: int)
    ensures DayNumber(DateOf(t)) == t / DayMs
  {
  }

  /** Milliseconds since local midnight. */
  function TimeOfDay(t: int): (ms: int)
    ensures 0 <= ms < DayMs
  {
    t % DayMs
  }

  /** The instant on day number `n` at `ms` past midnight. */
  function At(n: int, ms: int): (t: int)
    requires 0 <= ms < DayMs
    ensures t / DayMs == n && t % DayMs == ms
  {
    n * DayMs + ms
  }

  /** Two instants fall on the same calendar date exactly when they lie in
      the same day-long band of the time line, whatever their time of day. */
  lemma SameDateIffSameDay(a: int, b: int)
    ensures DateOf(a) == DateOf(b) <==> a / DayMs == b / DayMs
  {
    DayNumberInjective(DateOf(a), DateOf(b));
  }

  /** `moment(t).date(i)`: day `i` of the month of `t` at the same time of
      day (days past the month's end run into the next month). */
  function WithDayOfMonth(t: int, i: int): int {
    var d := DateOf(t);
    At(DayNumber(Date(d.year, d.month, 1)) + i - 1, TimeOfDay(t))
  }

  /** Setting the day of the month keeps the time of day, and a day that
      the month has lands on exactly that date. */
  lemma WithDayOfMonthDate(t: int, i: int)
    ensures TimeOfDay(WithDayOfMonth(t, i)) == TimeOfDay(t)
    ensures 1 <= i <= DaysInMonth(DateOf(t).year, DateOf(t).month) ==>
              DateOf(WithDayOfMonth(t, i)) == Date(DateOf(t).year, DateOf(t).month, i)
  {
    var d := DateOf(t);
    var first := Date(d.year, d.month, 1);
    if 1 <= i <= DaysInMonth(d.year, d.month) {
      DateRoundTrip(Date(d.year, d.month, i));
    }
  }

  /** `moment(t).add(n, 'days')` on the local time line. */
  function AddDaysAt(t: int, n: int): (r: int)
    ensures TimeOfDay(r) == TimeOfDay(t)
    ensures r / DayMs == t / DayMs + n
  {
    t + n * DayMs
  }

  /** `moment(t).add(n, 'months')` on the local time line. */
  function AddMonthsAt(t: int, n: int): (r: int)
    ensures TimeOfDay(r) == TimeOfDay(t)
    ensures DateOf(r) == AddMonths(DateOf(t), n)
  {
    DateRoundTrip(AddMonths(DateOf(t), n));
    At(DayNumber(AddMonths(DateOf(t), n)), TimeOfDay(t))
  }
}
