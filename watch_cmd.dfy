/** The watch command once its inputs are in (cmd/watch.go): the date window
    and the daily trend built from the fetched daily costs. */
module CmdWatch {
  import opened Civil
  import opened Sums
  import opened DiffTypes
  import opened DiffCompare
  import AwsCosts

  const DefaultWatchDays := 7

  /** The window of `runWatch`: it ends today at midnight and starts
      `watchDays` days earlier. */
  function WatchWindow(now: Day, watchDays: int): (w: (Day, Day))
    ensures w.1 == now
  {
    (AddDate(now, 0, 0, -watchDays), now)
  }

  /** The window spans exactly `watchDays` days. */
  lemma WatchWindowLength(now: Day, watchDays: int)
    ensures DayNumber(WatchWindow(now, watchDays).1) - DayNumber(WatchWindow(now, watchDays).0) == watchDays
  {
    AddDaysNumber(now, -watchDays);
  }

  /** The sum of the first `n` daily costs. */
  function CostSum(daily: seq<AwsCosts.DailyCost>, n: nat): real
    requires n <= |daily|
  {
    if n == 0 then 0.0 else CostSum(daily, n - 1) + daily[n - 1].cost
  }

  /** Day `i`'s change from the day before; none for the first day. */
  function ChangeAt(daily: seq<AwsCosts.DailyCost>, i: nat): real
    requires i < |daily|
  {
    if i == 0 then 0.0 else daily[i].cost - daily[i - 1].cost
  }

  /** Day `i`'s change as a percentage of the day before, when that day's
      cost is positive; otherwise 0. */
  function ChangePercentAt(daily: seq<AwsCosts.DailyCost>, i: nat): real
    requires i < |daily|
  {
    if i > 0 && daily[i - 1].cost > 0.0 then PercentOf(daily[i].cost - daily[i - 1].cost, daily[i - 1].cost) else 0.0
  }

  /** The items after the first loop: date and cost copied, no change yet. */
  ghost predicate Copied(items: seq<DayItem>, daily: seq<AwsCosts.DailyCost>)
  {
    |items| == |daily|
    && forall k :: 0 <= k < |items| ==> items[k].date == daily[k].date && items[k].cost == daily[k].cost
  }

  /** `buildWatchResult`: one item per day in input order with its date and
      cost, each day's change from the day before (from the original costs)
      and that change in percent, the total of the costs and their average
      (0 for no days), and the window passed through. */
  method BuildWatchResult(daily: seq<AwsCosts.DailyCost>, start: Day, end: Day) returns (r: WatchResult)
    ensures r.startDate == start && r.endDate == end
    ensures r.total == CostSum(daily, |daily|)
    ensures r.average == if |daily| > 0 then r.total / |daily| as real else 0.0
    ensures Copied(r.days, daily)
    ensures forall i :: 0 <= i < |r.days| ==> r.days[i].change == ChangeAt(daily, i)
    ensures forall i :: 0 <= i < |r.days| ==> r.days[i].changePercent == ChangePercentAt(daily, i)
    ensures |r.days| > 0 ==> r.days[0].change == 0.0 && r.days[0].changePercent == 0.0
  {
    var total := 0.0;
    var items: seq<DayItem> := [];
    for i := 0 to |daily|
      invariant total == CostSum(daily, i)
      invariant |items| == i
      invariant forall k :: 0 <= k < i ==> items[k] == DayItem(daily[k].date, daily[k].cost, 0.0, 0.0)
    {
      total := total + daily[i].cost;
      items := items + [DayItem(daily[i].date, daily[i].cost, 0.0, 0.0)];
    }
    var i := 1;
    while i < |items|
      invariant 1 <= i && (|items| > 0 ==> i <= |items|)
      invariant Copied(items, daily)
      invariant forall k :: 0 <= k < |items| && k < i ==> items[k].change == ChangeAt(daily, k)
      invariant forall k :: 0 <= k < |items| && k < i ==> items[k].changePercent == ChangePercentAt(daily, k)
      invariant forall k :: i <= k < |items| ==> items[k].change == 0.0 && items[k].changePercent == 0.0
    {
      var prev := items[i - 1].cost;
      var curr := items[i].cost;
      items := items[i := items[i].(change := curr - prev)];
      if prev > 0.0 {
        items := items[i := items[i].(changePercent := PercentOf(curr - prev, prev))];
      }
      i := i + 1;
    }
    var avg := 0.0;
    if |items| > 0 {
      avg := total / |items| as real;
    }
    r := WatchResult(start, end, total, avg, items);
  }

  /** The sum of the changes of the first `n` days. */
  function ChangeSum(daily: seq<AwsCosts.DailyCost>, n: nat): real
    requires n <= |daily|
  {
    if n == 0 then 0.0 else ChangeSum(daily, n - 1) + ChangeAt(daily, n - 1)
  }

  /** The changes telescope: over the first `n` days they add up to the
      last cost minus the first. */
  lemma {:induction false} ChangesTelescope(daily: seq<AwsCosts.DailyCost>, n: nat)
    requires 1 <= n <= |daily|
    ensures ChangeSum(daily, n) == daily[n - 1].cost - daily[0].cost
  {
    if n > 1 {
      ChangesTelescope(daily, n - 1);
    }
  }
}
