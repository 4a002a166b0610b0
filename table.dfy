/** The parts of the table renderer that decide what is drawn
    (internal/output/table.go): rune-wise truncation of names, and the width
    and colour of each bar of the daily bar chart. The table layout itself is
    a foreign library and not part of this model. */
module OutputTable {
  import opened Civil
  import opened DiffTypes
  import opened OutputColor

  const BarChartMaxWidth := 40
  const AboveAverageThreshold := 1.2
  const BelowAverageThreshold := 0.8

  /** `Truncate`, on a string of runes: a string that fits is kept; a longer
      one is cut to `maxLen` runes, the last three of them "..." when there is
      room for more than three. */
  function Truncate(s: string, maxLen: int): (r: string)
    requires maxLen >= 0
    ensures |r| == if |s| <= maxLen then |s| else maxLen
    ensures |s| <= maxLen ==> r == s
    ensures |s| > maxLen && maxLen <= 3 ==> r == s[..maxLen]
    ensures |s| > maxLen && maxLen > 3 ==> r[..maxLen - 3] == s[..maxLen - 3] && r[maxLen - 3..] == "..."
  {
    if |s| <= maxLen then s
    else if maxLen <= 3 then s[..maxLen]
    else s[..maxLen - 3] + "..."
  }

  /** Truncating twice to the same width changes nothing more. */
  lemma TruncateIdempotent(s: string, maxLen: int)
    requires maxLen >= 0
    ensures Truncate(Truncate(s, maxLen), maxLen) == Truncate(s, maxLen)
  {
  }

  /** Everything kept is a prefix of the name, up to the ellipsis. */
  lemma TruncateKeepsPrefix(s: string, maxLen: int)
    requires maxLen >= 0
    ensures var r := Truncate(s, maxLen);
            var kept := if |s| > maxLen > 3 then maxLen - 3 else |r|;
            kept <= |s| && r[..kept] == s[..kept]
  {
  }

  /** Go's conversion of a float to int: the integer part, rounded toward zero. */
  function TowardZero(x: real): (r: int)
    ensures x >= 0.0 ==> 0.0 <= r as real <= x < r as real + 1.0
    ensures x < 0.0 ==> r as real - 1.0 < x <= r as real <= 0.0
  {
    if x >= 0.0 then x.Floor else -((-x).Floor)
  }

  /** The width of a day's bar as written: the day's share of the peak, times
      40, toward zero, and at least 1 for a positive cost. It is negative for
      a cost of at most -1/40 of the peak, and `strings.Repeat` panics on a
      negative count. */
  function BarWidth(cost: real, maxCost: real): (w: int)
    requires maxCost > 0.0
    ensures w >= 1 <==> cost > 0.0
    ensures cost == 0.0 ==> w == 0
  {
    var width := TowardZero((cost / maxCost) * BarChartMaxWidth as real);
    if width < 1 && cost > 0.0 then 1 else width
  }

  /** For costs between 0 and the peak, the width lies in [0, 40]; it is at
      least 1 for a positive cost and 40 at the peak. */
  lemma BarWidthBounds(cost: real, maxCost: real)
    requires maxCost > 0.0 && 0.0 <= cost <= maxCost
    ensures 0 <= BarWidth(cost, maxCost) <= BarChartMaxWidth
    ensures cost > 0.0 <==> BarWidth(cost, maxCost) >= 1
    ensures cost == maxCost ==> BarWidth(cost, maxCost) == BarChartMaxWidth
  {
    ShareBounds(cost, maxCost);
  }

  lemma ShareBounds(cost: real, maxCost: real)
    requires maxCost > 0.0 && 0.0 <= cost <= maxCost
    ensures 0.0 <= (cost / maxCost) * 40.0 <= 40.0
    ensures cost == maxCost ==> (cost / maxCost) * 40.0 == 40.0
  {
    assert cost / maxCost <= 1.0;
  }

  /** The width as written is negative exactly when the cost is at most
      -1/40 of the peak, and then drawing the bar panics. */
  lemma BarWidthNegative(cost: real, maxCost: real)
    requires maxCost > 0.0
    ensures BarWidth(cost, maxCost) < 0 <==> cost * 40.0 <= -maxCost
  {
    var x := (cost / maxCost) * 40.0;
    assert x * maxCost == cost * 40.0;
    ScaledAtMostMinusOne(x, maxCost, cost * 40.0);
  }

  /** With a positive scale `m`, `x` is at most -1 exactly when `x * m` is
      at most `-m`. */
  lemma ScaledAtMostMinusOne(x: real, m: real, y: real)
    requires m > 0.0 && x * m == y
    ensures x <= -1.0 <==> y <= -m
  {
    if x <= -1.0 {
      assert (x + 1.0) * m <= 0.0;
    } else {
      assert (x + 1.0) * m > 0.0;
    }
  }

  /** A credit of $10 on a chart whose peak day cost $10 gets width -40. */
  lemma NegativeCostPanics()
    ensures BarWidth(-10.0, 10.0) == -40
  {
    assert (-10.0 / 10.0) * 40.0 == -40.0;
  }

  /** The width the chart evidently intends: as written, but never below 0,
      so a day with a credit draws no bar instead of panicking. */
  function BarWidthClamped(cost: real, maxCost: real): (w: nat)
    requires maxCost > 0.0
    ensures cost >= 0.0 ==> w == BarWidth(cost, maxCost)
    ensures w >= 1 <==> cost > 0.0
  {
    var width := BarWidth(cost, maxCost);
    if width < 0 then 0 else width
  }

  /** The clamped width agrees with the written one wherever that one is
      usable, lies in [0, 40] for any cost up to the peak, is 0 for a cost
      that is not positive and at least 1 for a positive one. */
  lemma BarWidthClampedBounds(cost: real, maxCost: real)
    requires maxCost > 0.0 && cost <= maxCost
    ensures 0 <= BarWidthClamped(cost, maxCost) <= BarChartMaxWidth
    ensures cost >= 0.0 ==> BarWidthClamped(cost, maxCost) == BarWidth(cost, maxCost)
    ensures cost > 0.0 <==> BarWidthClamped(cost, maxCost) >= 1
  {
    if cost >= 0.0 {
      BarWidthBounds(cost, maxCost);
    } else {
      assert (cost / maxCost) * 40.0 < 0.0;
    }
  }

  /** The colour of a bar: red above 1.2 times the average, green below 0.8
      times it, cyan in between. */
  function Band(cost: real, average: real): (c: Colour)
    ensures c == Red <==> cost > average * AboveAverageThreshold
    ensures c == Green <==> cost <= average * AboveAverageThreshold && cost < average * BelowAverageThreshold
    ensures c == Cyan <==> average * BelowAverageThreshold <= cost <= average * AboveAverageThreshold
  {
    if cost > average * AboveAverageThreshold then Red
    else if cost < average * BelowAverageThreshold then Green
    else Cyan
  }

  /** For a non-negative average, red bars are above it, green bars below it,
      and a day exactly at the average is cyan. */
  lemma BandAroundAverage(cost: real, average: real)
    requires average >= 0.0
    ensures Band(cost, average) == Red ==> cost > average
    ensures Band(cost, average) == Green ==> cost < average
    ensures cost == average ==> Band(cost, average) == Cyan
    ensures Band(cost, average) in {Red, Green, Cyan}
  {
  }

  /** With a negative average (possible once a day has a negative cost) the
      bands flip: 120% of the average lies below it, so a day exactly at the
      average is red, and a red day need not lie above the average. */
  lemma BandNegativeAverage(average: real)
    requires average < 0.0
    ensures Band(average, average) == Red
    ensures Band(average * 1.1, average) == Red && average * 1.1 < average
  {
  }

  /** The largest cost among the first `n` days, or 0 when none is positive
      (the scan starts from 0). */
  function PeakCost(days: seq<DayItem>, n: nat): (m: real)
    requires n <= |days|
    ensures m >= 0.0
    ensures forall k :: 0 <= k < n ==> days[k].cost <= m
    ensures m == 0.0 || exists k :: 0 <= k < n && days[k].cost == m
  {
    if n == 0 then 0.0
    else
      var m := PeakCost(days, n - 1);
      if days[n - 1].cost > m then days[n - 1].cost else m
  }

  /** No bar is drawn exactly when no day has a positive cost. */
  lemma PeakZero(days: seq<DayItem>)
    ensures PeakCost(days, |days|) == 0.0 <==> forall k :: 0 <= k < |days| ==> days[k].cost <= 0.0
  {
    if PeakCost(days, |days|) != 0.0 {
      var k :| 0 <= k < |days| && days[k].cost == PeakCost(days, |days|);
    }
  }

  function Repeat(c: char, n: nat): (s: string)
    ensures |s| == n && forall i :: 0 <= i < n ==> s[i] == c
  {
    if n == 0 then [] else Repeat(c, n - 1) + [c]
  }

  /** One line of the chart: the day, its bar and its cost. */
  datatype BarLine = BarLine(date: Day, bar: Painted, cost: real)

  /** The line drawn for one day against the chart's peak and average. */
  function BarLineOf(day: DayItem, maxCost: real, average: real, noColor: bool): BarLine
    requires maxCost > 0.0
  {
    BarLine(day.date, Sprint(Band(day.cost, average), Repeat('█', BarWidthClamped(day.cost, maxCost)), noColor), day.cost)
  }

  /** The scan for the peak cost. */
  method MaxCost(days: seq<DayItem>) returns (maxCost: real)
    ensures maxCost == PeakCost(days, |days|)
  {
    maxCost := 0.0;
    for i := 0 to |days|
      invariant maxCost == PeakCost(days, i)
    {
      if days[i].cost > maxCost {
        maxCost := days[i].cost;
      }
    }
  }

  /** `renderBarChartTo` with the clamped width: nothing for no days or when
      no day has a positive cost, otherwise one line per day in order. */
  method RenderBarChart(days: seq<DayItem>, average: real, noColor: bool) returns (lines: seq<BarLine>)
    ensures PeakCost(days, |days|) == 0.0 ==> lines == []
    ensures PeakCost(days, |days|) > 0.0 ==>
              |lines| == |days|
              && forall k :: 0 <= k < |days| ==> lines[k] == BarLineOf(days[k], PeakCost(days, |days|), average, noColor)
  {
    lines := [];
    if |days| == 0 {
      return;
    }
    var maxCost := MaxCost(days);
    if maxCost == 0.0 {
      return;
    }
    lines := DrawBars(days, maxCost, average, noColor);
  }

  /** The drawing loop: one line per day, in order. */
  method DrawBars(days: seq<DayItem>, maxCost: real, average: real, noColor: bool) returns (lines: seq<BarLine>)
    requires maxCost > 0.0
    ensures |lines| == |days|
    ensures forall k :: 0 <= k < |days| ==> lines[k] == BarLineOf(days[k], maxCost, average, noColor)
  {
    lines := [];
    for i := 0 to |days|
      invariant |lines| == i
      invariant forall k :: 0 <= k < i ==> lines[k] == BarLineOf(days[k], maxCost, average, noColor)
    {
      lines := lines + [BarLineOf(days[i], maxCost, average, noColor)];
    }
  }

  /** Every bar of a drawn chart is between 0 and 40 blocks, a day with a
      positive cost gets at least one, and a peak day gets all 40. */
  lemma ChartBars(days: seq<DayItem>, average: real, noColor: bool, k: nat)
    requires k < |days| && PeakCost(days, |days|) > 0.0
    ensures var line := BarLineOf(days[k], PeakCost(days, |days|), average, noColor);
            |line.bar.text| <= BarChartMaxWidth
            && (days[k].cost > 0.0 <==> |line.bar.text| >= 1)
            && (days[k].cost == PeakCost(days, |days|) ==> |line.bar.text| == BarChartMaxWidth)
  {
    var m := PeakCost(days, |days|);
    BarWidthClampedBounds(days[k].cost, m);
    if days[k].cost == m {
      BarWidthBounds(m, m);
    }
  }
}
