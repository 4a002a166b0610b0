/** The CSV renderers (internal/output/csv.go) as the sequence of records
    they hand to the CSV writer: a header, then one record per item or day in
    order. Quoting, flushing and write errors belong to the writer and the
    output stream and are not part of this model. */
module OutputCsv {
  import opened Decimal
  import opened Wrappers
  import opened Civil
  import opened DiffTypes

  type Record = seq<string>

  const DiffHeader: Record := ["name", "from_period", "to_period", "from_cost", "to_cost", "diff", "diff_percent", "is_new", "is_removed"]
  const TopHeader: Record := ["rank", "name", "period", "cost", "percent"]
  const WatchHeader: Record := ["date", "day_of_week", "cost", "change", "change_percent"]

  /** `%t`. */
  function BoolText(b: bool): (t: string)
    ensures t == "true" <==> b
    ensures t == "true" || t == "false"
  {
    if b then "true" else "false"
  }

  /** `%.2f`. */
  function Money(x: real): string
  {
    Fixed(x, 2)
  }

  /** The record of one item of a comparison: one cell per header column,
      the name first, both period labels, and flag cells that say "true"
      exactly when the flag is set. */
  function DiffRow(r: Result, it: Item): (rec: Record)
    ensures |rec| == |DiffHeader|
    ensures rec[0] == it.name
    ensures rec[1..3] == [Label(r.fromPeriod), Label(r.toPeriod)]
    ensures rec[7] == BoolText(it.isNew) && rec[8] == BoolText(it.isRemoved)
  {
    [it.name, Label(r.fromPeriod), Label(r.toPeriod), Money(it.fromCost), Money(it.toCost),
     Money(it.diff), Money(it.diffPct), BoolText(it.isNew), BoolText(it.isRemoved)]
  }

  /** The record of the item at position `i` of a ranking: one cell per
      header column, with the name and the period's label. */
  function TopRow(r: TopResult, i: nat, it: TopItem): (rec: Record)
    ensures |rec| == |TopHeader|
    ensures rec[1] == it.name && rec[2] == Label(r.period)
  {
    [NatToString(i + 1), it.name, Label(r.period), Money(it.cost), Money(it.percent)]
  }

  /** The record of one day of a trend: one cell per header column. */
  function WatchRow(d: DayItem): (rec: Record)
    ensures |rec| == |WatchHeader|
  {
    [FormatISO(d.date), FormatWeekday(d.date), Money(d.cost), Money(d.change), Money(d.changePercent)]
  }

  /** The loop every renderer runs: write the header, then one record per
      element in order, built from its position and the element. */
  method WriteRecords<T>(header: Record, elems: seq<T>, row: (nat, T) -> Record) returns (records: seq<Record>)
    ensures |records| == 1 + |elems|
    ensures records[0] == header
    ensures forall i :: 0 <= i < |elems| ==> records[i + 1] == row(i, elems[i])
  {
    records := [header];
    for i := 0 to |elems|
      invariant |records| == 1 + i && records[0] == header
      invariant forall k :: 0 <= k < i ==> records[k + 1] == row(k, elems[k])
    {
      records := records + [row(i, elems[i])];
    }
  }

  /** `RenderCSVTo`: the header, then the record of each item in order. */
  method RenderCSV(r: Result) returns (records: seq<Record>)
    ensures |records| == 1 + |r.items|
    ensures records[0] == DiffHeader
    ensures forall i :: 0 <= i < |r.items| ==> records[i + 1] == DiffRow(r, r.items[i])
  {
    records := WriteRecords(DiffHeader, r.items, (i: nat, it: Item) => DiffRow(r, it));
  }

  /** `RenderTopCSVTo`: the header, then the record of each item in order,
      ranked from 1. */
  method RenderTopCSV(r: TopResult) returns (records: seq<Record>)
    ensures |records| == 1 + |r.items|
    ensures records[0] == TopHeader
    ensures forall i :: 0 <= i < |r.items| ==> records[i + 1] == TopRow(r, i, r.items[i])
  {
    records := WriteRecords(TopHeader, r.items, (i: nat, it: TopItem) => TopRow(r, i, it));
  }

  /** `RenderWatchCSVTo`: the header, then the record of each day in order. */
  method RenderWatchCSV(r: WatchResult) returns (records: seq<Record>)
    ensures |records| == 1 + |r.days|
    ensures records[0] == WatchHeader
    ensures forall i :: 0 <= i < |r.days| ==> records[i + 1] == WatchRow(r.days[i])
  {
    records := WriteRecords(WatchHeader, r.days, (i: nat, d: DayItem) => WatchRow(d));
  }

  /** A money cell starts with "-" exactly for a negative amount, and its
      digits read without sign and point are the amount in cents, rounded
      half to even. */
  lemma MoneyCell(x: real)
    ensures |Money(x)| >= 1 && (Money(x)[0] == '-' <==> x < 0.0)
    ensures AllDigits(Unpointed(Money(x)))
    ensures Shifted(x, 2) - 1.0 / 2.0 <= DigitsValue(Unpointed(Money(x))) as real <= Shifted(x, 2) + 1.0 / 2.0
  {
    FixedDigits(x, 2);
  }

  /** A cost of 500 is written "500.00". */
  lemma MoneyExample()
    ensures Money(500.0) == "500.00"
  {
    assert Shifted(500.0, 2) == 50000.0;
    assert RoundHalfEven(50000.0) == 50000;
    assert Quot(50000, 100) == 500 && Rem(50000, 100) == 0;
    assert NatToString(50) == "50";
    assert NatToString(500) == "500";
    assert ZeroPad(0, 2) == "00";
  }

  /** The rank cell of the item at position `i` reads back as `i + 1`. */
  lemma TopRankCell(r: TopResult, i: nat, it: TopItem)
    ensures AllDigits(TopRow(r, i, it)[0]) && DigitsValue(TopRow(r, i, it)[0]) == i + 1
  {
    NatToStringRoundTrip(i + 1);
  }

  /** The date cell of a day parses back to the day, and the weekday cell
      names its weekday. */
  lemma WatchDateCell(d: DayItem)
    requires 0 <= d.date.year <= 9999
    ensures ParseISO(WatchRow(d)[0]) == Some(d.date)
    ensures WatchRow(d)[1] == WeekdayName(Weekday(d.date))
  {
    ParseFormatISO(d.date);
  }

  /** A trend starting on 1 January 2025 labels that day Wednesday. */
  lemma WatchNewYear(cost: real, change: real, pct: real)
    ensures WatchRow(DayItem(Date(2025, 1, 1), cost, change, pct))[1] == "Wednesday"
  {
    NewYear2025();
  }
}
