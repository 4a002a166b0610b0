/** Calendar dates at midnight UTC and the parts of Go's time package that
    the tool relies on: `time.Date` normalisation (so `AddDate`), `Before`,
    `Sub` in whole days, the weekday, the layouts "2006-01-02", "2006-01",
    "Jan 2006", "Jan 2", "Jan 2, 2006" and "Monday", and strict parsing with
    "2006-01-02" and "2006-01". */
module Civil {
  import opened Wrappers
  import Decimal

  /** A civil date; a meaningful one satisfies `Valid`. */
  datatype Date = Date(year: int, month: int, day: int)

  predicate IsLeap(y: int) {
    y % 4 == 0 && (y % 100 != 0 || y % 400 == 0)
  }

  function DaysIn(y: int, m: int): (n: int)
    requires 1 <= m <= 12
    ensures 28 <= n <= 31
  {
    if m == 2 then (if IsLeap(y) then 29 else 28)
    else if m == 4 || m == 6 || m == 9 || m == 11 then 30
    else 31
  }

  predicate Valid(d: Date) {
    1 <= d.month <= 12 && 1 <= d.day <= DaysIn(d.year, d.month)
  }

  /** A date that exists: what a Go `time.Time` at midnight UTC always is. */
  type Day = d: Date | Valid(d) witness Date(1, 1, 1)

  /** The date `day - 1` days after the first of (y, m), for any `day`:
      overflow rolls into later months, underflow into earlier ones. */
  function NormalizeDay(y: int, m: int, day: int): (r: Date)
    requires 1 <= m <= 12
    ensures Valid(r)
    decreases if day < 1 then 1 - day else 0, day
  {
    if day < 1 then
      var (py, pm) := if m == 1 then (y - 1, 12) else (y, m - 1);
      NormalizeDay(py, pm, day + DaysIn(py, pm))
    else if day > DaysIn(y, m) then
      var (ny, nm) := if m == 12 then (y + 1, 1) else (y, m + 1);
      NormalizeDay(ny, nm, day - DaysIn(y, m))
    else
      Date(y, m, day)
  }

  /** `time.Date(y, m, day, 0, 0, 0, 0, time.UTC)`: months outside 1..12 are
      carried into the year first, then the day is normalised. */
  function Normalize(y: int, m: int, day: int): (r: Date)
    ensures Valid(r)
  {
    NormalizeDay(y + (m - 1) / 12, (m - 1) % 12 + 1, day)
  }

  /** `t.AddDate(years, months, days)`. */
  function AddDate(t: Date, years: int, months: int, days: int): (r: Date)
    ensures Valid(r)
  {
    Normalize(t.year + years, t.month + months, t.day + days)
  }

  function YearLength(y: int): int {
    if IsLeap(y) then 366 else 365
  }

  /** Days from 0001-01-01 to the first of January of `y` (negative before it). */
  function DaysBeforeYear(y: int): int {
    var p := y - 1;
    365 * p + p / 4 - p / 100 + p / 400
  }

  function DaysBeforeMonth(y: int, m: int): (n: int)
    requires 1 <= m <= 12
    ensures n >= 0
  {
    if m == 1 then 0 else DaysBeforeMonth(y, m - 1) + DaysIn(y, m - 1)
  }

  /** Days from 0001-01-01 (day 0) to the `day`-th day counted from the first of (y, m). */
  function DayIndex(y: int, m: int, day: int): int
    requires 1 <= m <= 12
  {
    DaysBeforeYear(y) + DaysBeforeMonth(y, m) + day - 1
  }

  function DayNumber(d: Date): int
    requires 1 <= d.month <= 12
  {
    DayIndex(d.year, d.month, d.day)
  }

  lemma LeapCount(p: int)
    ensures (p + 1) / 4 - p / 4 == (if (p + 1) % 4 == 0 then 1 else 0)
    ensures (p + 1) / 100 - p / 100 == (if (p + 1) % 100 == 0 then 1 else 0)
    ensures (p + 1) / 400 - p / 400 == (if (p + 1) % 400 == 0 then 1 else 0)
  {}

  lemma MultipleOf(k: int, d: int)
    requires d == 4 || d == 100
    ensures (d * k) % d == 0
  {}

  lemma DivisorChain(y: int)
    ensures y % 400 == 0 ==> y % 100 == 0
    ensures y % 100 == 0 ==> y % 4 == 0
  {
    if y % 400 == 0 {
      assert y == 100 * (4 * (y / 400));
      MultipleOf(4 * (y / 400), 100);
    }
    if y % 100 == 0 {
      assert y == 4 * (25 * (y / 100));
      MultipleOf(25 * (y / 100), 4);
    }
  }

  lemma YearStep(y: int)
    ensures DaysBeforeYear(y + 1) == DaysBeforeYear(y) + YearLength(y)
  {
    var p := y - 1;
    LeapCount(p);
    DivisorChain(y);
    var leaps := (if y % 4 == 0 then 1 else 0) - (if y % 100 == 0 then 1 else 0) + (if y % 400 == 0 then 1 else 0);
    assert YearLength(y) == 365 + leaps;
    assert DaysBeforeYear(y + 1) - DaysBeforeYear(y) == 365 + leaps;
  }

  lemma MonthsOfYear(y: int)
    ensures DaysBeforeMonth(y, 12) + DaysIn(y, 12) == YearLength(y)
  {
    var feb := DaysIn(y, 2);
    assert DaysBeforeMonth(y, 2) == 31;
    assert DaysBeforeMonth(y, 3) == 31 + feb;
    assert DaysBeforeMonth(y, 4) == 62 + feb;
    assert DaysBeforeMonth(y, 5) == 92 + feb;
    assert DaysBeforeMonth(y, 6) == 123 + feb;
    assert DaysBeforeMonth(y, 7) == 153 + feb;
    assert DaysBeforeMonth(y, 8) == 184 + feb;
    assert DaysBeforeMonth(y, 9) == 215 + feb;
    assert DaysBeforeMonth(y, 10) == 245 + feb;
    assert DaysBeforeMonth(y, 11) == 276 + feb;
    assert DaysBeforeMonth(y, 12) == 306 + feb;
  }

  /** One step of normalisation keeps the day index. */
  lemma {:induction false} NormalizeDayIndex(y: int, m: int, day: int)
    requires 1 <= m <= 12
    ensures DayNumber(NormalizeDay(y, m, day)) == DayIndex(y, m, day)
    decreases if day < 1 then 1 - day else 0, day
  {
    if day < 1 {
      var (py, pm) := if m == 1 then (y - 1, 12) else (y, m - 1);
      NormalizeDayIndex(py, pm, day + DaysIn(py, pm));
      if m == 1 {
        YearStep(y - 1);
        MonthsOfYear(y - 1);
      }
    } else if day > DaysIn(y, m) {
      var (ny, nm) := if m == 12 then (y + 1, 1) else (y, m + 1);
      NormalizeDayIndex(ny, nm, day - DaysIn(y, m));
      if m == 12 {
        YearStep(y);
        MonthsOfYear(y);
      }
    }
  }

  /** One month after the first of a month is that month's length later. */
  lemma NextMonthFirst(d: Date)
    requires Valid(d) && d.day == 1
    ensures AddDate(d, 0, 1, 0) == AddDate(d, 0, 0, DaysIn(d.year, d.month))
    ensures AddDate(d, 0, 1, 0).day == 1
    ensures DayNumber(AddDate(d, 0, 1, 0)) == DayNumber(d) + DaysIn(d.year, d.month)
  {
    var y, m := d.year, d.month;
    var (ny, nm) := if m == 12 then (y + 1, 1) else (y, m + 1);
    assert (m - 1) / 12 == 0 && (m - 1) % 12 + 1 == m;
    assert y + m / 12 == ny && m % 12 + 1 == nm;
    assert AddDate(d, 0, 1, 0) == NormalizeDay(ny, nm, 1) == Date(ny, nm, 1);
    assert AddDate(d, 0, 0, DaysIn(y, m)) == NormalizeDay(y, m, 1 + DaysIn(y, m));
    assert NormalizeDay(y, m, 1 + DaysIn(y, m)) == NormalizeDay(ny, nm, 1);
    AddDaysNumber(d, DaysIn(y, m));
  }

  /** The month after (y, m). */
  function NextMonth(y: int, m: int): (r: (int, int))
    requires 1 <= m <= 12
    ensures 1 <= r.1 <= 12
  {
    if m == 12 then (y + 1, 1) else (y, m + 1)
  }

  /** The month before (y, m). */
  function PrevMonth(y: int, m: int): (r: (int, int))
    requires 1 <= m <= 12
    ensures 1 <= r.1 <= 12
    ensures NextMonth(r.0, r.1) == (y, m)
  {
    if m == 1 then (y - 1, 12) else (y, m - 1)
  }

  /** `t.AddDate(0, 1, 0)`: the same day of the next month when that month
      has it; otherwise the excess days roll over into the month after. */
  lemma AddOneMonth(t: Date)
    requires Valid(t)
    ensures var (ny, nm) := NextMonth(t.year, t.month);
            AddDate(t, 0, 1, 0) == if t.day <= DaysIn(ny, nm) then Date(ny, nm, t.day)
                                   else Date(NextMonth(ny, nm).0, NextMonth(ny, nm).1, t.day - DaysIn(ny, nm))
  {
    var (ny, nm) := NextMonth(t.year, t.month);
    assert t.month / 12 == (if t.month == 12 then 1 else 0);
    assert t.month % 12 + 1 == nm;
    assert AddDate(t, 0, 1, 0) == NormalizeDay(ny, nm, t.day);
    if t.day > DaysIn(ny, nm) {
      var (y2, m2) := NextMonth(ny, nm);
      assert NormalizeDay(ny, nm, t.day) == NormalizeDay(y2, m2, t.day - DaysIn(ny, nm));
    }
  }

  /** `t.AddDate(0, -1, 0)`: the same day of the previous month when that
      month has it; otherwise the excess days roll over into `t`'s own month. */
  lemma SubOneMonth(t: Date)
    requires Valid(t)
    ensures var (py, pm) := PrevMonth(t.year, t.month);
            AddDate(t, 0, -1, 0) == if t.day <= DaysIn(py, pm) then Date(py, pm, t.day)
                                    else Date(t.year, t.month, t.day - DaysIn(py, pm))
  {
    var (py, pm) := PrevMonth(t.year, t.month);
    assert (t.month - 2) / 12 == (if t.month == 1 then -1 else 0);
    assert (t.month - 2) % 12 + 1 == pm;
    assert AddDate(t, 0, -1, 0) == NormalizeDay(py, pm, t.day);
    if t.day > DaysIn(py, pm) {
      assert NormalizeDay(py, pm, t.day) == NormalizeDay(t.year, t.month, t.day - DaysIn(py, pm));
    }
  }

  /** Normalisation leaves a valid date unchanged. */
  lemma NormalizeValid(d: Date)
    requires Valid(d)
    ensures Normalize(d.year, d.month, d.day) == d
  {}

  /** Adding `k` days moves the day number by exactly `k`, across month and
      year ends: Go's day arithmetic is linear. */
  lemma AddDaysNumber(t: Date, k: int)
    requires Valid(t)
    ensures DayNumber(AddDate(t, 0, 0, k)) == DayNumber(t) + k
  {
    assert (t.month - 1) / 12 == 0 && (t.month - 1) % 12 + 1 == t.month;
    NormalizeDayIndex(t.year, t.month, t.day + k);
  }

  /** Calendar order: by year, then month, then day. */
  predicate CalendarLess(a: Date, b: Date) {
    a.year < b.year
    || (a.year == b.year && a.month < b.month)
    || (a.year == b.year && a.month == b.month && a.day < b.day)
  }

  lemma YearOrder(a: Date, b: Date)
    requires Valid(a) && Valid(b) && a.year < b.year
    ensures DayNumber(a) < DayNumber(b)
  {
    YearBounds(a);
    YearBounds(b);
    YearStep(a.year);
    DaysBeforeYearMonotone(a.year + 1, b.year);
  }

  lemma MonthOrder(a: Date, b: Date)
    requires Valid(a) && Valid(b) && a.year == b.year && a.month < b.month
    ensures DayNumber(a) < DayNumber(b)
  {
    MonthBounds(a.year, a.month, b.month);
  }

  /** The day number orders valid dates exactly as the calendar does, so
      `Before` is calendar order and equal day numbers mean equal dates. */
  lemma DayNumberOrder(a: Date, b: Date)
    requires Valid(a) && Valid(b)
    ensures DayNumber(a) < DayNumber(b) <==> CalendarLess(a, b)
    ensures DayNumber(a) == DayNumber(b) <==> a == b
  {
    if a.year < b.year {
      YearOrder(a, b);
    } else if b.year < a.year {
      YearOrder(b, a);
    } else if a.month < b.month {
      MonthOrder(a, b);
    } else if b.month < a.month {
      MonthOrder(b, a);
    }
  }

  lemma {:induction false} DaysBeforeYearMonotone(x: int, y: int)
    requires x <= y
    ensures DaysBeforeYear(x) <= DaysBeforeYear(y)
    decreases y - x
  {
    if x < y {
      YearStep(x);
      DaysBeforeYearMonotone(x + 1, y);
    }
  }

  lemma {:induction false} DaysBeforeMonthBound(y: int, m: int)
    requires 1 <= m <= 12
    ensures DaysBeforeMonth(y, m) + DaysIn(y, m) <= YearLength(y)
    decreases 12 - m
  {
    if m < 12 {
      DaysBeforeMonthBound(y, m + 1);
    } else {
      MonthsOfYear(y);
    }
  }

  /** A valid date's day number lies within its year. */
  lemma YearBounds(d: Date)
    requires Valid(d)
    ensures DaysBeforeYear(d.year) <= DayNumber(d) < DaysBeforeYear(d.year) + YearLength(d.year)
  {
    DaysBeforeMonthBound(d.year, d.month);
    YearStep(d.year);
  }

  lemma {:induction false} MonthBounds(y: int, m1: int, m2: int)
    requires 1 <= m1 < m2 <= 12
    ensures DaysBeforeMonth(y, m1) + DaysIn(y, m1) <= DaysBeforeMonth(y, m2)
    decreases m2 - m1
  {
    if m1 + 1 < m2 {
      MonthBounds(y, m1, m2 - 1);
    }
  }

  /** `a.Before(b)` for midnight UTC times. */
  predicate Before(a: Date, b: Date)
    requires 1 <= a.month <= 12 && 1 <= b.month <= 12
  {
    DayNumber(a) < DayNumber(b)
  }

  /** The weekday, 0 for Sunday through 6 for Saturday; 0001-01-01 was a Monday. */
  function Weekday(d: Date): (w: int)
    requires 1 <= d.month <= 12
    ensures 0 <= w < 7
  {
    (DayNumber(d) + 1) % 7
  }

  /** Consecutive days have consecutive weekdays. */
  lemma NextWeekday(d: Date)
    requires Valid(d)
    ensures Weekday(AddDate(d, 0, 0, 1)) == (Weekday(d) + 1) % 7
  {
    AddDaysNumber(d, 1);
    ModSeven(DayNumber(d) + 1);
  }

  lemma ModSeven(a: int)
    ensures (a + 1) % 7 == (a % 7 + 1) % 7
  {}

  function MonthAbbrev(m: int): string
    requires 1 <= m <= 12
  {
    ["Jan", "Feb", "Mar", "Apr", "May", "Jun", "Jul", "Aug", "Sep", "Oct", "Nov", "Dec"][m - 1]
  }

  function WeekdayName(w: int): string
    requires 0 <= w < 7
  {
    ["Sunday", "Monday", "Tuesday", "Wednesday", "Thursday", "Friday", "Saturday"][w]
  }

  /** Layout "2006": the year padded to four digits, a '-' before a negative one. */
  function Year4(y: int): string {
    if y < 0 then "-" + Decimal.ZeroPad(-y, 4) else Decimal.ZeroPad(y, 4)
  }

  /** Layout "2006-01-02". */
  function FormatISO(d: Date): string
    requires Valid(d)
  {
    Year4(d.year) + "-" + Decimal.ZeroPad(d.month, 2) + "-" + Decimal.ZeroPad(d.day, 2)
  }

  /** Layout "Jan 2006". */
  function FormatMonthYear(d: Date): string
    requires Valid(d)
  {
    MonthAbbrev(d.month) + " " + Year4(d.year)
  }

  /** Layout "Jan 2". */
  function FormatMonthDay(d: Date): string
    requires Valid(d)
  {
    MonthAbbrev(d.month) + " " + Decimal.NatToString(d.day)
  }

  /** Layout "Jan 2, 2006". */
  function FormatMonthDayYear(d: Date): string
    requires Valid(d)
  {
    FormatMonthDay(d) + ", " + Year4(d.year)
  }

  /** Layout "Monday". */
  function FormatWeekday(d: Date): string
    requires Valid(d)
  {
    WeekdayName(Weekday(d))
  }

  function Digits(s: string, lo: nat, hi: nat): (v: Option<nat>)
    requires lo <= hi <= |s|
    ensures v.Some? <==> Decimal.AllDigits(s[lo..hi])
  {
    if Decimal.AllDigits(s[lo..hi]) then Some(Decimal.DigitsValue(s[lo..hi])) else None
  }

  /** `time.Parse("2006-01-02", s)`: exactly four year digits, '-', two month
      digits naming 01..12, '-', two day digits naming a day of that month,
      and nothing after. */
  function ParseISO(s: string): (r: Option<Date>)
    ensures r.Some? ==> Valid(r.value) && 0 <= r.value.year <= 9999
  {
    if |s| != 10 || s[4] != '-' || s[7] != '-' then None
    else match (Digits(s, 0, 4), Digits(s, 5, 7), Digits(s, 8, 10))
      case (Some(y), Some(m), Some(d)) =>
        Decimal.DigitsBound(s[0..4]);
        if 1 <= m <= 12 && 1 <= d <= DaysIn(y, m) then Some(Date(y, m, d)) else None
      case _ => None
  }

  /** `time.Parse("2006-01", s)`: four year digits, '-', two month digits
      naming 01..12, nothing after; the day is the first. */
  function ParseYearMonth(s: string): (r: Option<Date>)
    ensures r.Some? ==> Valid(r.value) && r.value.day == 1 && 0 <= r.value.year <= 9999
  {
    if |s| != 7 || s[4] != '-' then None
    else match (Digits(s, 0, 4), Digits(s, 5, 7))
      case (Some(y), Some(m)) =>
        Decimal.DigitsBound(s[0..4]);
        if 1 <= m <= 12 then Some(Date(y, m, 1)) else None
      case _ => None
  }

  lemma ZeroPadDigits(n: nat, w: nat)
    requires w >= 1 && n < Decimal.Pow10(w)
    ensures |Decimal.ZeroPad(n, w)| == w
    ensures Decimal.AllDigits(Decimal.ZeroPad(n, w))
    ensures Decimal.DigitsValue(Decimal.ZeroPad(n, w)) == n
  {
    Decimal.ZeroPadFacts(n, w);
  }

  /** Parsing what "2006-01-02" printed gives the date back, for the years
      the layout can parse. */
  lemma ParseFormatISO(d: Date)
    requires Valid(d) && 0 <= d.year <= 9999
    ensures ParseISO(FormatISO(d)) == Some(d)
  {
    var ys, ms, ds := Year4(d.year), Decimal.ZeroPad(d.month, 2), Decimal.ZeroPad(d.day, 2);
    ZeroPadDigits(d.year, 4);
    ZeroPadDigits(d.month, 2);
    ZeroPadDigits(d.day, 2);
    var s := FormatISO(d);
    assert s == ys + "-" + ms + "-" + ds;
    assert s[0..4] == ys && s[5..7] == ms && s[8..10] == ds;
    assert |s| == 10 && s[4] == '-' && s[7] == '-';
    assert Digits(s, 0, 4) == Some(d.year);
    assert Digits(s, 5, 7) == Some(d.month);
    assert Digits(s, 8, 10) == Some(d.day);
  }

  /** Parsing what "2006-01" printed gives the first of that month back. */
  lemma ParseFormatYearMonth(d: Date)
    requires Valid(d) && 0 <= d.year <= 9999
    ensures ParseYearMonth(Year4(d.year) + "-" + Decimal.ZeroPad(d.month, 2)) == Some(Date(d.year, d.month, 1))
  {
    var ys, ms := Year4(d.year), Decimal.ZeroPad(d.month, 2);
    ZeroPadDigits(d.year, 4);
    ZeroPadDigits(d.month, 2);
    var s := ys + "-" + ms;
    assert s[0..4] == ys && s[5..7] == ms;
  }

  /** 2025-01-01 was a Wednesday. */
  lemma NewYear2025()
    ensures FormatWeekday(Date(2025, 1, 1)) == "Wednesday"
  {
    assert DayNumber(Date(2025, 1, 1)) == 739251;
  }
}
