/** The record types of the comparison engine, the period label and the
    JSON-friendly projections (internal/diff/types.go). */
module DiffTypes {
  import opened Wrappers
  import opened Civil

  /** A half-open period [start, end) of midnight-UTC days. */
  datatype Period = Period(start: Day, end: Day)

  /** One group's comparison between the two periods. */
  datatype Item = Item(
    name: string,
    fromCost: real,
    toCost: real,
    diff: real,
    diffPct: real,
    isNew: bool,
    isRemoved: bool)

  datatype Result = Result(
    fromPeriod: Period,
    toPeriod: Period,
    fromTotal: real,
    toTotal: real,
    totalDiff: real,
    totalPct: real,
    items: seq<Item>)

  datatype TopItem = TopItem(name: string, cost: real, percent: real)

  datatype TopResult = TopResult(period: Period, total: real, items: seq<TopItem>)

  datatype DayItem = DayItem(date: Day, cost: real, change: real, changePercent: real)

  datatype WatchResult = WatchResult(
    startDate: Day,
    endDate: Day,
    total: real,
    average: real,
    days: seq<DayItem>)

  datatype PeriodJSON = PeriodJSON(start: string, end: string, periodLabel: string)

  datatype ResultJSON = ResultJSON(
    fromPeriod: PeriodJSON,
    toPeriod: PeriodJSON,
    fromTotal: real,
    toTotal: real,
    totalDiff: real,
    totalPct: real,
    items: seq<Item>)

  datatype TopResultJSON = TopResultJSON(period: PeriodJSON, total: real, items: seq<TopItem>)

  datatype DayItemJSON = DayItemJSON(date: string, cost: real, change: real, changePercent: real)

  datatype WatchResultJSON = WatchResultJSON(
    startDate: string,
    endDate: string,
    total: real,
    average: real,
    days: seq<DayItemJSON>)

  /** The period is exactly the calendar month beginning at `start`. */
  predicate IsCalendarMonth(p: Period) {
    p.start.day == 1 && p.end.day == 1 && p.end == AddDate(p.start, 0, 1, 0)
  }

  /** Human-readable label: "Jan 2006" for a calendar month, "Jan 2, 2006" for
      a period of exactly one day, otherwise the first and the last day
      ("Jan 2 - Jan 2, 2006"; only the last day's year is shown). */
  function Label(p: Period): string
  {
    if IsCalendarMonth(p) then FormatMonthYear(p.start)
    else if DayNumber(p.end) - DayNumber(p.start) == 1 then FormatMonthDayYear(p.start)
    else FormatMonthDay(p.start) + " - " + FormatMonthDayYear(AddDate(p.end, 0, 0, -1))
  }

  /** The calendar month starting on `d` is labelled with its month and year. */
  lemma LabelOfMonth(d: Day)
    requires d.day == 1
    ensures Label(Period(d, AddDate(d, 0, 1, 0))) == FormatMonthYear(d)
  {
    NextMonthFirst(d);
  }

  /** The single day `d` is labelled with its month, day and year; no
      calendar month is one day long, so the first rule never applies. */
  lemma LabelOfDay(d: Day)
    ensures Label(Period(d, AddDate(d, 0, 0, 1))) == FormatMonthDayYear(d)
  {
    AddDaysNumber(d, 1);
    if d.day == 1 {
      NextMonthFirst(d);
      DayNumberOrder(AddDate(d, 0, 1, 0), AddDate(d, 0, 0, 1));
    }
  }

  /** Any other period is labelled by its first day and the day before its
      end, the year shown only once, after the last day. */
  lemma LabelOfRange(p: Period)
    requires !IsCalendarMonth(p)
    requires DayNumber(p.end) != DayNumber(p.start) + 1
    ensures Label(p) == FormatMonthDay(p.start) + " - " + FormatMonthDayYear(AddDate(p.end, 0, 0, -1))
    ensures DayNumber(AddDate(p.end, 0, 0, -1)) + 1 == DayNumber(p.end)
  {
    AddDaysNumber(p.end, -1);
  }

  function PeriodToJSON(p: Period): (j: PeriodJSON)
    ensures j.periodLabel == Label(p)
  {
    PeriodJSON(FormatISO(p.start), FormatISO(p.end), Label(p))
  }

  function ResultToJSON(r: Result): (j: ResultJSON)
    ensures j.items == r.items
  {
    ResultJSON(PeriodToJSON(r.fromPeriod), PeriodToJSON(r.toPeriod),
      r.fromTotal, r.toTotal, r.totalDiff, r.totalPct, r.items)
  }

  function TopResultToJSON(r: TopResult): (j: TopResultJSON)
    ensures j.items == r.items
  {
    TopResultJSON(PeriodToJSON(r.period), r.total, r.items)
  }

  function DayItemToJSON(d: DayItem): DayItemJSON
  {
    DayItemJSON(FormatISO(d.date), d.cost, d.change, d.changePercent)
  }

  /** `WatchResult.ToJSON`: fills a slice of the same length, day by day. */
  method WatchResultToJSON(r: WatchResult) returns (j: WatchResultJSON)
    ensures |j.days| == |r.days|
    ensures forall i :: 0 <= i < |r.days| ==> j.days[i] == DayItemToJSON(r.days[i])
    ensures j.startDate == FormatISO(r.startDate) && j.endDate == FormatISO(r.endDate)
    ensures j.total == r.total && j.average == r.average
  {
    var days := seq(|r.days|, _ => DayItemJSON("", 0.0, 0.0, 0.0));
    for i := 0 to |r.days|
      invariant |days| == |r.days|
      invariant forall k :: 0 <= k < i ==> days[k] == DayItemToJSON(r.days[k])
    {
      days := days[i := DayItemToJSON(r.days[i])];
    }
    j := WatchResultJSON(FormatISO(r.startDate), FormatISO(r.endDate), r.total, r.average, days);
  }

  // Decoding the JSON projections back: the reference against which the
  // projections are shown to lose nothing.

  /** The years the layout "2006-01-02" reads back. */
  predicate FourDigitYears(p: Period) {
    0 <= p.start.year <= 9999 && 0 <= p.end.year <= 9999
  }

  function PeriodFromJSON(j: PeriodJSON): Option<Period>
  {
    match (ParseISO(j.start), ParseISO(j.end))
    case (Some(s), Some(e)) => Some(Period(s, e))
    case _ => None
  }

  function ResultFromJSON(j: ResultJSON): Option<Result>
  {
    match (PeriodFromJSON(j.fromPeriod), PeriodFromJSON(j.toPeriod))
    case (Some(f), Some(t)) => Some(Result(f, t, j.fromTotal, j.toTotal, j.totalDiff, j.totalPct, j.items))
    case _ => None
  }

  function TopResultFromJSON(j: TopResultJSON): Option<TopResult>
  {
    match PeriodFromJSON(j.period)
    case Some(p) => Some(TopResult(p, j.total, j.items))
    case None => None
  }

  /** A period's JSON form holds both dates in full and its label. */
  lemma PeriodJSONRoundTrip(p: Period)
    requires FourDigitYears(p)
    ensures PeriodFromJSON(PeriodToJSON(p)) == Some(p)
    ensures PeriodToJSON(p).periodLabel == Label(p)
  {
    ParseFormatISO(p.start);
    ParseFormatISO(p.end);
  }

  /** A comparison result's JSON form loses nothing. */
  lemma ResultJSONRoundTrip(r: Result)
    requires FourDigitYears(r.fromPeriod) && FourDigitYears(r.toPeriod)
    ensures ResultFromJSON(ResultToJSON(r)) == Some(r)
  {
    PeriodJSONRoundTrip(r.fromPeriod);
    PeriodJSONRoundTrip(r.toPeriod);
  }

  /** A top result's JSON form loses nothing. */
  lemma TopResultJSONRoundTrip(r: TopResult)
    requires FourDigitYears(r.period)
    ensures TopResultFromJSON(TopResultToJSON(r)) == Some(r)
  {
    PeriodJSONRoundTrip(r.period);
  }

  /** Each day of the watch JSON reads back as the day it came from. */
  lemma DayItemJSONRoundTrip(d: DayItem)
    requires 0 <= d.date.year <= 9999
    ensures ParseISO(DayItemToJSON(d).date) == Some(d.date)
    ensures DayItemToJSON(d).cost == d.cost && DayItemToJSON(d).change == d.change
    ensures DayItemToJSON(d).changePercent == d.changePercent
  {
    ParseFormatISO(d.date);
  }
}
