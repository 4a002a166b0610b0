/** The top command once its inputs are in (cmd/top.go): the ranking of one
    period's costs with each cost's share of the total, the threshold
    filter, the period argument and the post-fetch steps. */
module CmdTop {
  import opened Wrappers
  import opened Civil
  import opened Sums
  import opened DiffTypes
  import opened DiffCompare
  import opened CmdDiff

  function TopCost(it: TopItem): real { it.cost }

  function TopName(it: TopItem): string { it.name }

  /** No name is ranked twice. */
  predicate NamesDistinct(items: seq<TopItem>)
  {
    forall i, j :: 0 <= i < j < |items| ==> items[i].name != items[j].name
  }

  /** `items` are the most expensive names of `costs` that reach the
      threshold: any such name not among them costs no more than each of
      them. */
  ghost predicate Dominates(items: seq<TopItem>, costs: map<string, real>, threshold: real)
  {
    forall n :: n in costs && (threshold > 0.0 ==> costs[n] >= threshold)
                && (forall i :: 0 <= i < |items| ==> items[i].name != n) ==>
      forall i :: 0 <= i < |items| ==> costs[n] <= items[i].cost
  }

  function TopPercent(it: TopItem): real { it.percent }

  /** The item appended for one map entry, before its share is known. */
  function Entry(name: string, costs: map<string, real>): TopItem
    requires name in costs
  {
    TopItem(name, costs[name], 0.0)
  }

  /** The entries for the names in `names`, one each. */
  ghost function EntriesOver(names: set<string>, costs: map<string, real>): set<TopItem>
    requires names <= costs.Keys
  {
    set n | n in names :: Entry(n, costs)
  }

  /** One entry per name of the map. */
  ghost function Entries(costs: map<string, real>): multiset<TopItem>
  {
    multiset(EntriesOver(costs.Keys, costs))
  }

  /** A share of the total in percent, 0 unless the total is positive. */
  function Share(cost: real, total: real): real
  {
    if total > 0.0 then PercentOf(cost, total) else 0.0
  }

  /** The items with their shares blanked, as they were appended. */
  function Stripped(s: seq<TopItem>): (r: seq<TopItem>)
    ensures |r| == |s|
    ensures forall i :: 0 <= i < |s| ==> r[i] == s[i].(percent := 0.0)
  {
    seq(|s|, i requires 0 <= i < |s| => s[i].(percent := 0.0))
  }

  lemma EntriesOverStep(names: set<string>, n: string, costs: map<string, real>)
    requires names <= costs.Keys && n in costs && n !in names
    ensures multiset(EntriesOver(names + {n}, costs)) == multiset(EntriesOver(names, costs)) + multiset{Entry(n, costs)}
  {
    var before := EntriesOver(names, costs);
    assert EntriesOver(names + {n}, costs) == before + {Entry(n, costs)};
    assert Entry(n, costs) !in before;
  }

  /** What the collecting loop holds once the names in `done` are handled. */
  ghost predicate Collected(done: set<string>, items: seq<TopItem>, total: real, costs: map<string, real>)
  {
    && done <= costs.Keys
    && multiset(items) == multiset(EntriesOver(done, costs))
    && total == MapSum(Restrict(costs, done))
    && total == SumOf(items, TopCost)
  }

  lemma CollectStep(done: set<string>, items: seq<TopItem>, total: real, n: string, costs: map<string, real>)
    requires n in costs && n !in done && Collected(done, items, total, costs)
    ensures Collected(done + {n}, items + [Entry(n, costs)], total + costs[n], costs)
  {
    EntriesOverStep(done, n, costs);
    RestrictStep(costs, done, n);
    SumOfAppend(items, [Entry(n, costs)], TopCost);
    assert [Entry(n, costs)][..0] == [];
  }

  /** The map's entries in whatever order they come, and their sum. */
  method CollectEntries(costs: map<string, real>) returns (items: seq<TopItem>, total: real)
    ensures multiset(items) == Entries(costs)
    ensures total == MapSum(costs) && total == SumOf(items, TopCost)
  {
    var remaining := costs.Keys;
    items, total := [], 0.0;
    while remaining != {}
      invariant remaining <= costs.Keys
      invariant Collected(costs.Keys - remaining, items, total, costs)
      decreases remaining
    {
      var name :| name in remaining;
      CollectStep(costs.Keys - remaining, items, total, name, costs);
      assert (costs.Keys - remaining) + {name} == costs.Keys - (remaining - {name});
      items := items + [Entry(name, costs)];
      total := total + costs[name];
      remaining := remaining - {name};
    }
    assert costs.Keys - remaining == costs.Keys;
    RestrictAll(costs, costs.Keys);
  }

  /** The share step of `buildTopResult`: when the total is positive, each
      item's percent becomes its share of the total; nothing else changes. */
  method SetShares(a: array<TopItem>, total: real)
    modifies a
    ensures forall k :: 0 <= k < a.Length ==>
              a[k] == if total > 0.0 then old(a[k]).(percent := PercentOf(old(a[k]).cost, total)) else old(a[k])
  {
    for i := 0 to a.Length
      invariant forall k :: 0 <= k < i && total > 0.0 ==> a[k] == old(a[k]).(percent := PercentOf(old(a[k]).cost, total))
      invariant forall k :: 0 <= k < a.Length && (i <= k || total <= 0.0) ==> a[k] == old(a[k])
    {
      if total > 0.0 {
        a[i] := a[i].(percent := PercentOf(a[i].cost, total));
      }
    }
  }

  /** `buildTopResult`: one item per map entry with its name and cost, the
      total of all costs, the items ordered by cost, largest first, and each
      item's share of the total (0 unless the total is positive). */
  method BuildTopResult(costs: map<string, real>, period: Period) returns (r: TopResult)
    ensures r.period == period
    ensures r.total == MapSum(costs) && r.total == SumOf(r.items, TopCost)
    ensures multiset(Stripped(r.items)) == Entries(costs)
    ensures SortedDesc(r.items, TopCost)
    ensures forall i :: 0 <= i < |r.items| ==> r.items[i].percent == Share(r.items[i].cost, r.total)
  {
    var items, total := CollectEntries(costs);
    var a := new TopItem[|items|](i requires 0 <= i < |items| => items[i]);
    assert a[..] == items;
    SortDescending(a, TopCost);
    ghost var sorted := a[..];
    SetShares(a, total);
    r := TopResult(period, total, a[..]);
    SharesKeep(items, sorted, r.items, total);
  }

  /** Setting the shares changes neither the costs, nor their order, nor the
      entries underneath. */
  lemma SharesKeep(items: seq<TopItem>, sorted: seq<TopItem>, shared: seq<TopItem>, total: real)
    requires multiset(sorted) == multiset(items)
    requires forall x :: x in multiset(items) ==> x.percent == 0.0
    requires total == SumOf(items, TopCost)
    requires |shared| == |sorted|
    requires forall k :: 0 <= k < |sorted| ==>
               shared[k] == if total > 0.0 then sorted[k].(percent := PercentOf(sorted[k].cost, total)) else sorted[k]
    ensures Stripped(shared) == sorted
    ensures multiset(Stripped(shared)) == multiset(items)
    ensures SortedDesc(sorted, TopCost) ==> SortedDesc(shared, TopCost)
    ensures SumOf(shared, TopCost) == total
    ensures forall k :: 0 <= k < |shared| ==> shared[k].percent == Share(shared[k].cost, total)
  {
    forall k | 0 <= k < |sorted| ensures sorted[k].percent == 0.0 {
      assert sorted[k] in multiset(sorted);
    }
    assert Stripped(shared) == sorted;
    SumOfPermutation(items, sorted, TopCost);
    SumOfCosts(sorted, shared);
  }

  lemma {:induction false} SumOfCosts(a: seq<TopItem>, b: seq<TopItem>)
    requires |a| == |b| && forall k :: 0 <= k < |a| ==> a[k].cost == b[k].cost
    ensures SumOf(a, TopCost) == SumOf(b, TopCost)
  {
    if a != [] {
      SumOfCosts(a[..|a| - 1], b[..|b| - 1]);
    }
  }

  /** Over exact reals the shares add up to 100 whenever the total is
      positive. */
  lemma {:induction false} SharesSumTo100(items: seq<TopItem>, total: real)
    requires total > 0.0 && SumOf(items, TopCost) == total
    requires forall i :: 0 <= i < |items| ==> items[i].percent == Share(items[i].cost, total)
    ensures SumOf(items, TopPercent) == 100.0
  {
    SharesScale(items, total);
  }

  lemma {:induction false} SharesScale(items: seq<TopItem>, total: real)
    requires total > 0.0
    requires forall i :: 0 <= i < |items| ==> items[i].percent == Share(items[i].cost, total)
    ensures SumOf(items, TopPercent) == SumOf(items, TopCost) / total * 100.0
  {
    if items != [] {
      var init := items[..|items| - 1];
      SharesScale(init, total);
      var c := items[|items| - 1].cost;
      DivSum(SumOf(init, TopCost), c, total);
    }
  }

  lemma DivSum(a: real, b: real, t: real)
    requires t != 0.0
    ensures a / t * 100.0 + b / t * 100.0 == (a + b) / t * 100.0
  {
  }

  /** What the entries mean: each item is one map entry, name and cost
      copied, every name of the map has an item, and no name has two. */
  lemma EntriesCharacterised(items: seq<TopItem>, costs: map<string, real>)
    requires multiset(Stripped(items)) == Entries(costs)
    ensures forall i :: 0 <= i < |items| ==> items[i].name in costs && items[i].cost == costs[items[i].name]
    ensures forall n :: n in costs ==> exists i :: 0 <= i < |items| && items[i].name == n
    ensures forall i, j :: 0 <= i < j < |items| ==> items[i].name != items[j].name
  {
    var s := Stripped(items);
    forall i | 0 <= i < |items|
      ensures items[i].name in costs && items[i].cost == costs[items[i].name]
    {
      assert s[i] in multiset(s);
    }
    forall n | n in costs
      ensures exists i :: 0 <= i < |items| && items[i].name == n
    {
      assert Entry(n, costs) in multiset(s);
      var i :| 0 <= i < |s| && s[i] == Entry(n, costs);
      assert items[i].name == n;
    }
    forall i, j | 0 <= i < j < |items|
      ensures items[i].name != items[j].name
    {
      assert s[i] in multiset(s);
      assert multiset(s)[s[i]] <= 1;
      if items[i].name == items[j].name {
        assert s[j] in multiset(s);
        assert s[i] == s[j];
        MultiplicityOfTwo(s, i, j);
      }
    }
  }

  function CostAtLeast(threshold: real): TopItem -> bool
  {
    (it: TopItem) => it.cost >= threshold
  }

  /** `filterTopByThreshold`: the period and the total kept, and the items
      whose cost reaches `threshold`, in order. */
  method FilterTopByThreshold(r: TopResult, threshold: real) returns (f: TopResult)
    ensures f.period == r.period && f.total == r.total
    ensures f.items == Kept(r.items, CostAtLeast(threshold))
    ensures forall x :: x in f.items <==> x in r.items && x.cost >= threshold
  {
    var items := KeepWhere(r.items, CostAtLeast(threshold));
    f := TopResult(r.period, r.total, items);
    KeptMembers(r.items, CostAtLeast(threshold));
  }

  /** `parseTopPeriod`: the current calendar month by default, as computed
      from `now`, else the parsed date or month. */
  function ParseTopPeriod(from: string, now: Day): (r: Outcome<Period, string>)
    ensures from != "" ==> r == ParseDate(from)
    ensures from == "" ==> r.Ok? && r.value.start == Date(now.year, now.month, 1)
  {
    if from == "" then Ok(DefaultToPeriod(now)) else ParseDate(from)
  }

  /** The default is the current calendar month exactly when `now`'s day
      exists in the next month; on 31 January it runs to 1 March. */
  lemma TopPeriodDefault(now: Day)
    ensures var (ny, nm) := NextMonth(now.year, now.month);
            IsCalendarMonth(ParseTopPeriod("", now).value) <==> now.day <= DaysIn(ny, nm)
    ensures ParseTopPeriod("", Date(2025, 1, 31)) == Ok(Period(Date(2025, 1, 1), Date(2025, 3, 1)))
  {
    DefaultToPeriodSpan(now);
    DefaultToPeriodJanuary31();
  }

  /** `parseTopPeriod` with the default month taken from the first of the
      month. */
  function ParseTopPeriodFixed(from: string, now: Day): (r: Outcome<Period, string>)
    ensures from != "" ==> r == ParseDate(from)
  {
    if from == "" then Ok(DefaultToPeriodFixed(now)) else ParseDate(from)
  }

  /** The fixed default is always the calendar month that holds `now`. */
  lemma TopPeriodDefaultFixed(now: Day)
    ensures ParseTopPeriodFixed("", now).Ok?
    ensures IsCalendarMonth(ParseTopPeriodFixed("", now).value)
    ensures ParseTopPeriodFixed("", now).value.start == Date(now.year, now.month, 1)
    ensures DayNumber(ParseTopPeriodFixed("", now).value.start) <= DayNumber(now)
            < DayNumber(ParseTopPeriodFixed("", now).value.end)
  {
    NextMonthFirst(Date(now.year, now.month, 1));
  }

  /** The top command after the fetch (`runTop`): rank, filter by the
      threshold when it is positive, keep at most `topN` items. */
  method RunTop(costs: map<string, real>, period: Period, threshold: real, topN: int) returns (r: TopResult)
    requires topN >= 0
    ensures r.period == period && r.total == MapSum(costs)
    ensures |r.items| <= topN
    ensures SortedDesc(r.items, TopCost)
    ensures forall i :: 0 <= i < |r.items| ==> r.items[i].name in costs && r.items[i].cost == costs[r.items[i].name]
    ensures forall i :: 0 <= i < |r.items| ==> r.items[i].percent == Share(r.items[i].cost, r.total)
    ensures threshold > 0.0 ==> forall i :: 0 <= i < |r.items| ==> r.items[i].cost >= threshold
    ensures |r.items| < topN ==>
              forall n :: n in costs && (threshold > 0.0 ==> costs[n] >= threshold) ==>
                exists i :: 0 <= i < |r.items| && r.items[i].name == n
    ensures NamesDistinct(r.items)
    ensures Dominates(r.items, costs, threshold)
  {
    var built := BuildTopResult(costs, period);
    EntriesCharacterised(built.items, costs);
    assert NamesDistinct(built.items);
    var filtered := ThresholdStep(built, threshold);
    r := LimitStep(built, filtered, topN, threshold, costs);
  }

  /** The limit step of `runTop`: at most the first `topN` of the filtered
      items, which keep every property of the ranking. */
  method LimitStep(built: TopResult, filtered: TopResult, topN: nat, threshold: real, costs: map<string, real>)
    returns (r: TopResult)
    requires filtered.period == built.period && filtered.total == built.total
    requires forall x :: x in filtered.items <==> x in built.items && (threshold > 0.0 ==> x.cost >= threshold)
    requires SortedDesc(filtered.items, TopCost)
    requires forall i :: 0 <= i < |built.items| ==> built.items[i].name in costs && built.items[i].cost == costs[built.items[i].name]
    requires forall i :: 0 <= i < |built.items| ==> built.items[i].percent == Share(built.items[i].cost, built.total)
    requires forall n :: n in costs ==> exists i :: 0 <= i < |built.items| && built.items[i].name == n
    requires NamesDistinct(filtered.items)
    ensures r.period == built.period && r.total == built.total
    ensures r.items == Limit(filtered.items, topN)
    ensures |r.items| <= topN
    ensures SortedDesc(r.items, TopCost)
    ensures forall i :: 0 <= i < |r.items| ==> r.items[i].name in costs && r.items[i].cost == costs[r.items[i].name]
    ensures forall i :: 0 <= i < |r.items| ==> r.items[i].percent == Share(r.items[i].cost, r.total)
    ensures threshold > 0.0 ==> forall i :: 0 <= i < |r.items| ==> r.items[i].cost >= threshold
    ensures |r.items| < topN ==>
              forall n :: n in costs && (threshold > 0.0 ==> costs[n] >= threshold) ==>
                exists i :: 0 <= i < |r.items| && r.items[i].name == n
    ensures NamesDistinct(r.items)
    ensures Dominates(r.items, costs, threshold)
  {
    r := filtered;
    if |r.items| > topN {
      r := r.(items := r.items[..topN]);
    }
    LimitKeeps(built, filtered.items, r.items, topN, threshold, costs);
    LimitDominance(built, filtered.items, r.items, topN, threshold, costs);
  }

  /** The threshold step of `runTop`: filter only for a positive threshold;
      either way the order and the total are kept. */
  method ThresholdStep(built: TopResult, threshold: real) returns (r: TopResult)
    requires SortedDesc(built.items, TopCost)
    ensures r.period == built.period && r.total == built.total
    ensures SortedDesc(r.items, TopCost)
    ensures forall x :: x in r.items <==> x in built.items && (threshold > 0.0 ==> x.cost >= threshold)
    ensures r.items == if threshold > 0.0 then Kept(built.items, CostAtLeast(threshold)) else built.items
    ensures NamesDistinct(built.items) ==> NamesDistinct(r.items)
  {
    r := built;
    if threshold > 0.0 {
      r := FilterTopByThreshold(r, threshold);
      KeptSorted(built.items, CostAtLeast(threshold), TopCost);
      if NamesDistinct(built.items) {
        KeptDistinct(built.items, CostAtLeast(threshold), TopName);
      }
    }
  }

  lemma LimitKeeps(built: TopResult, kept: seq<TopItem>, items: seq<TopItem>, topN: nat, threshold: real, costs: map<string, real>)
    requires items == Limit(kept, topN)
    requires forall x :: x in kept <==> x in built.items && (threshold > 0.0 ==> x.cost >= threshold)
    requires SortedDesc(kept, TopCost)
    requires forall i :: 0 <= i < |built.items| ==> built.items[i].name in costs && built.items[i].cost == costs[built.items[i].name]
    requires forall i :: 0 <= i < |built.items| ==> built.items[i].percent == Share(built.items[i].cost, built.total)
    requires forall n :: n in costs ==> exists i :: 0 <= i < |built.items| && built.items[i].name == n
    ensures SortedDesc(items, TopCost)
    ensures forall i :: 0 <= i < |items| ==> items[i].name in costs && items[i].cost == costs[items[i].name]
    ensures forall i :: 0 <= i < |items| ==> items[i].percent == Share(items[i].cost, built.total)
    ensures threshold > 0.0 ==> forall i :: 0 <= i < |items| ==> items[i].cost >= threshold
    ensures |items| < topN ==>
              forall n :: n in costs && (threshold > 0.0 ==> costs[n] >= threshold) ==>
                exists i :: 0 <= i < |items| && items[i].name == n
  {
    forall i | 0 <= i < |items|
      ensures items[i] in built.items && (threshold > 0.0 ==> items[i].cost >= threshold)
    {
      assert items[i] == kept[i] && kept[i] in kept;
    }
    if |items| < topN {
      forall n | n in costs && (threshold > 0.0 ==> costs[n] >= threshold)
        ensures exists i :: 0 <= i < |items| && items[i].name == n
      {
        var j :| 0 <= j < |built.items| && built.items[j].name == n;
        assert built.items[j] in kept;
      }
    }
  }

  /** The first `topN` of a ranking are the most expensive: names stay
      distinct, and every name that reaches the threshold but is not shown
      costs no more than any shown item. */
  lemma LimitDominance(built: TopResult, kept: seq<TopItem>, items: seq<TopItem>, topN: nat, threshold: real, costs: map<string, real>)
    requires items == Limit(kept, topN)
    requires forall x :: x in built.items && (threshold > 0.0 ==> x.cost >= threshold) ==> x in kept
    requires SortedDesc(kept, TopCost)
    requires forall i :: 0 <= i < |built.items| ==> built.items[i].name in costs && built.items[i].cost == costs[built.items[i].name]
    requires forall n :: n in costs ==> exists i :: 0 <= i < |built.items| && built.items[i].name == n
    requires NamesDistinct(kept)
    ensures NamesDistinct(items)
    ensures Dominates(items, costs, threshold)
  {
    assert forall i :: 0 <= i < |items| ==> items[i] == kept[i];
    LimitKeepsLargest(kept, topN, TopCost);
    forall n | n in costs && (threshold > 0.0 ==> costs[n] >= threshold)
               && (forall i :: 0 <= i < |items| ==> items[i].name != n)
      ensures forall i :: 0 <= i < |items| ==> costs[n] <= items[i].cost
    {
      var j :| 0 <= j < |built.items| && built.items[j].name == n;
      var x := built.items[j];
      assert x in kept;
      assert x !in items;
    }
  }
}
