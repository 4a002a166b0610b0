/** The diff command once its inputs are in (cmd/diff.go): parsing the two
    periods, the group-by selector, the threshold filter, the choice of sort
    and the pipeline that turns the two fetched cost maps into the result.
    The clock is the parameter `now`; the flags are parameters. */
module CmdDiff {
  import opened Wrappers
  import opened Civil
  import opened Sums
  import opened DiffTypes
  import opened DiffCompare
  import AwsCosts

  const DateFormatError := "date must be YYYY-MM or YYYY-MM-DD format"

  /** `parseDate`: "YYYY-MM-DD" is that single day, else "YYYY-MM" is that
      calendar month, else an error. */
  function ParseDate(s: string): (r: Outcome<Period, string>)
    ensures r.Err? <==> ParseISO(s).None? && ParseYearMonth(s).None?
    ensures r.Err? ==> r.error == DateFormatError
    ensures ParseISO(s).Some? ==> r.Ok? && r.value.start == ParseISO(s).value
    ensures ParseISO(s).None? && ParseYearMonth(s).Some? ==> r.Ok? && r.value.start == ParseYearMonth(s).value
  {
    match ParseISO(s)
    case Some(t) => Ok(Period(t, AddDate(t, 0, 0, 1)))
    case None =>
      match ParseYearMonth(s)
      case Some(t) => Ok(Period(t, AddDate(t, 0, 1, 0)))
      case None => Err(DateFormatError)
  }

  /** A day written as "YYYY-MM-DD" parses to the period of that one day,
      which is labelled "Mon D, YYYY". */
  lemma ParseDateOfDay(d: Day)
    requires 0 <= d.year <= 9999
    ensures ParseDate(FormatISO(d)).Ok?
    ensures ParseDate(FormatISO(d)).value.start == d
    ensures DayNumber(ParseDate(FormatISO(d)).value.end) == DayNumber(d) + 1
    ensures Label(ParseDate(FormatISO(d)).value) == FormatMonthDayYear(d)
  {
    ParseFormatISO(d);
    AddDaysNumber(d, 1);
    LabelOfDay(d);
  }

  /** A month written as "YYYY-MM" parses to that calendar month, which is
      labelled "Mon YYYY". */
  lemma ParseDateOfMonth(d: Day)
    requires 0 <= d.year <= 9999 && d.day == 1
    ensures ParseDate(Year4(d.year) + "-" + Decimal.ZeroPad(d.month, 2)).Ok?
    ensures ParseDate(Year4(d.year) + "-" + Decimal.ZeroPad(d.month, 2)).value == Period(d, AddDate(d, 0, 1, 0))
    ensures IsCalendarMonth(ParseDate(Year4(d.year) + "-" + Decimal.ZeroPad(d.month, 2)).value)
    ensures Label(ParseDate(Year4(d.year) + "-" + Decimal.ZeroPad(d.month, 2)).value) == FormatMonthYear(d)
  {
    var s := Year4(d.year) + "-" + Decimal.ZeroPad(d.month, 2);
    ParseFormatYearMonth(d);
    assert |s| == 7;
    NextMonthFirst(d);
    LabelOfMonth(d);
  }

  /** Other shapes are rejected. */
  lemma ParseDateRejects()
    ensures ParseDate("invalid").Err?
    ensures ParseDate("2024").Err?
    ensures ParseDate("12-2024").Err?
    ensures ParseDate("2024/12/15").Err?
    ensures ParseDate("2024-13").Err?
  {
    assert ParseISO("2024/12/15").None?;
    assert ParseYearMonth("2024-13").None? by {
      assert "2024-13"[5..7] == "13";
      assert Decimal.DigitsValue("13") == 13 by {
        assert "13"[..1] == "1";
      }
    }
  }

  /** The previous calendar month, as the default of the earlier period is
      computed: from the month of `now` minus one month, which Go normalises
      from `now`'s own day. */
  function DefaultFromPeriod(now: Day): (p: Period)
    ensures p.start.day == 1 && p.end == Date(now.year, now.month, 1)
    ensures DayNumber(p.start) <= DayNumber(p.end)
  {
    var lastMonth := AddDate(now, 0, -1, 0);
    var p := Period(Date(lastMonth.year, lastMonth.month, 1), Date(now.year, now.month, 1));
    SubOneMonth(now);
    DayNumberOrder(p.start, p.end);
    p
  }

  /** The current calendar month, as the default of the later period (and of
      the top command's period) is computed: up to the month of `now` plus one
      month, normalised from `now`'s own day. */
  function DefaultToPeriod(now: Day): (p: Period)
    ensures p.start == Date(now.year, now.month, 1) && p.end.day == 1
    ensures DayNumber(p.start) < DayNumber(p.end)
  {
    var nextMonth := AddDate(now, 0, 1, 0);
    var p := Period(Date(now.year, now.month, 1), Date(nextMonth.year, nextMonth.month, 1));
    AddOneMonth(now);
    DayNumberOrder(p.start, p.end);
    p
  }

  /** `parsePeriods`: each empty input takes its default, each other input is
      parsed, and the earlier period must start strictly before the later. */
  function ParsePeriods(from: string, to: string, now: Day): (r: Outcome<(Period, Period), string>)
    ensures r.Ok? ==> Before(r.value.0.start, r.value.1.start)
    ensures from != "" && ParseDate(from).Err? ==> r.Err?
    ensures from != "" && r.Ok? ==> ParseDate(from) == Ok(r.value.0)
    ensures to != "" && r.Ok? ==> ParseDate(to) == Ok(r.value.1)
    ensures from == "" && r.Ok? ==> r.value.0 == DefaultFromPeriod(now)
    ensures to == "" && r.Ok? ==> r.value.1 == DefaultToPeriod(now)
  {
    var fromPeriod :=
      if from == "" then Ok(DefaultFromPeriod(now))
      else match ParseDate(from)
        case Ok(p) => Ok(p)
        case Err(e) => Err("invalid --from date: " + e);
    var toPeriod :=
      if to == "" then Ok(DefaultToPeriod(now))
      else match ParseDate(to)
        case Ok(p) => Ok(p)
        case Err(e) => Err("invalid --to date: " + e);
    match (fromPeriod, toPeriod)
    case (Err(e), _) => Err(e)
    case (_, Err(e)) => Err(e)
    case (Ok(f), Ok(t)) =>
      if !Before(f.start, t.start) then
        Err("--from date (" + FormatISO(f.start) + ") must be before --to date (" + FormatISO(t.start) + ")")
      else Ok((f, t))
  }

  /** Two given periods pass exactly when the first starts before the second,
      so equal months are rejected. */
  lemma ParsePeriodsOrder(from: string, to: string, now: Day)
    requires from != "" && to != "" && ParseDate(from).Ok? && ParseDate(to).Ok?
    ensures ParsePeriods(from, to, now).Ok? <==> Before(ParseDate(from).value.start, ParseDate(to).value.start)
    ensures from == to ==> ParsePeriods(from, to, now).Err?
  {
  }

  /** The earlier default starts on the first of the previous month when
      `now`'s day exists there, and otherwise on the first of `now`'s month. */
  lemma DefaultFromStart(now: Day)
    ensures var (py, pm) := PrevMonth(now.year, now.month);
            DefaultFromPeriod(now).start == if now.day <= DaysIn(py, pm) then Date(py, pm, 1) else Date(now.year, now.month, 1)
  {
    SubOneMonth(now);
  }

  /** The default pair is accepted exactly when `now`'s day of the month
      exists in the previous month. */
  lemma DefaultPeriodsAccepted(now: Day)
    ensures ParsePeriods("", "", now).Ok?
            <==> now.day <= DaysIn(PrevMonth(now.year, now.month).0, PrevMonth(now.year, now.month).1)
  {
    var f, t := DefaultFromPeriod(now), DefaultToPeriod(now);
    assert ParsePeriods("", "", now).Ok? <==> Before(f.start, t.start);
    DefaultFromStart(now);
    DayNumberOrder(f.start, t.start);
  }

  /** Accepted defaults are the previous and the current calendar month,
      back to back. */
  lemma DefaultPeriodsShape(now: Day)
    requires now.day <= DaysIn(PrevMonth(now.year, now.month).0, PrevMonth(now.year, now.month).1)
    ensures IsCalendarMonth(DefaultFromPeriod(now))
    ensures DefaultFromPeriod(now).end == DefaultToPeriod(now).start == Date(now.year, now.month, 1)
  {
    var (py, pm) := PrevMonth(now.year, now.month);
    DefaultFromStart(now);
    AddOneMonth(Date(py, pm, 1));
  }

  /** The defect: on 31 March the previous month computed from `now` lands
      on 3 March, so both defaults start on 1 March and the defaults are
      rejected. */
  lemma DefaultPeriodsMarch31()
    ensures ParsePeriods("", "", Date(2025, 3, 31)).Err?
  {
    DefaultPeriodsAccepted(Date(2025, 3, 31));
  }

  /** The later default is one calendar month exactly when `now`'s day
      exists in the next month; otherwise its end skips a month. */
  lemma DefaultToPeriodSpan(now: Day)
    ensures var (ny, nm) := NextMonth(now.year, now.month);
            IsCalendarMonth(DefaultToPeriod(now)) <==> now.day <= DaysIn(ny, nm)
  {
    AddOneMonth(now);
    AddOneMonth(Date(now.year, now.month, 1));
  }

  /** The defect: on 31 January the current month runs to 1 March. */
  lemma DefaultToPeriodJanuary31()
    ensures DefaultToPeriod(Date(2025, 1, 31)) == Period(Date(2025, 1, 1), Date(2025, 3, 1))
    ensures !IsCalendarMonth(DefaultToPeriod(Date(2025, 1, 31)))
  {
    AddOneMonth(Date(2025, 1, 31));
    DefaultToPeriodSpan(Date(2025, 1, 31));
  }

  /** The defaults computed from the first of `now`'s month, which has a
      counterpart in every month. */
  function DefaultFromPeriodFixed(now: Day): Period
  {
    var first := Date(now.year, now.month, 1);
    var lastMonth := AddDate(first, 0, -1, 0);
    Period(lastMonth, first)
  }

  function DefaultToPeriodFixed(now: Day): Period
  {
    var first := Date(now.year, now.month, 1);
    Period(first, AddDate(first, 0, 1, 0))
  }

  /** `parsePeriods` with the defaults taken from the first of the month. */
  function ParsePeriodsFixed(from: string, to: string, now: Day): (r: Outcome<(Period, Period), string>)
    ensures r.Ok? ==> Before(r.value.0.start, r.value.1.start)
  {
    var fromPeriod :=
      if from == "" then Ok(DefaultFromPeriodFixed(now))
      else match ParseDate(from)
        case Ok(p) => Ok(p)
        case Err(e) => Err("invalid --from date: " + e);
    var toPeriod :=
      if to == "" then Ok(DefaultToPeriodFixed(now))
      else match ParseDate(to)
        case Ok(p) => Ok(p)
        case Err(e) => Err("invalid --to date: " + e);
    match (fromPeriod, toPeriod)
    case (Err(e), _) => Err(e)
    case (_, Err(e)) => Err(e)
    case (Ok(f), Ok(t)) =>
      if !Before(f.start, t.start) then
        Err("--from date (" + FormatISO(f.start) + ") must be before --to date (" + FormatISO(t.start) + ")")
      else Ok((f, t))
  }

  /** On every date the fixed defaults are accepted and are the previous and
      the current calendar month, back to back. */
  lemma DefaultPeriodsFixed(now: Day)
    ensures ParsePeriodsFixed("", "", now).Ok?
    ensures var (f, t) := ParsePeriodsFixed("", "", now).value;
            IsCalendarMonth(f) && IsCalendarMonth(t) && f.end == t.start
            && t.start == Date(now.year, now.month, 1)
  {
    var first: Day := Date(now.year, now.month, 1);
    var (py, pm) := PrevMonth(now.year, now.month);
    SubOneMonth(first);
    var prev: Day := Date(py, pm, 1);
    assert AddDate(first, 0, -1, 0) == prev;
    NextMonthFirst(prev);
    AddOneMonth(prev);
    AddOneMonth(first);
    NextMonthFirst(first);
    DayNumberOrder(prev, first);
  }

  /** `parseGroupBy`: exact, case-sensitive selectors; "tag" needs a tag
      key. The usage-type grouping is a parameter. */
  function ParseGroupBy(group: string, tag: string, usageType: AwsCosts.GroupType): (r: Outcome<AwsCosts.GroupType, string>)
    ensures r.Ok? <==> group in {"service", "usage-type", "region", "account"} || (group == "tag" && tag != "")
    ensures group == "service" ==> r == Ok(AwsCosts.GroupByService)
    ensures group == "usage-type" ==> r == Ok(usageType)
    ensures group == "region" ==> r == Ok(AwsCosts.GroupByRegion)
    ensures group == "account" ==> r == Ok(AwsCosts.GroupByAccount)
    ensures group == "tag" && tag != "" ==> r == Ok(AwsCosts.GroupType("TAG", tag))
  {
    match group
    case "service" => Ok(AwsCosts.GroupByService)
    case "usage-type" => Ok(usageType)
    case "region" => Ok(AwsCosts.GroupByRegion)
    case "account" => Ok(AwsCosts.GroupByAccount)
    case "tag" =>
      if tag == "" then Err("--tag is required when grouping by tag")
      else Ok(AwsCosts.GroupType("TAG", tag))
    case _ => Err("invalid group: " + group + " (must be service|usage-type|tag|region|account)")
  }

  /** Selectors in other letter case are errors, and so is "tag" without a key. */
  lemma ParseGroupByRejects(tag: string, usageType: AwsCosts.GroupType)
    ensures ParseGroupBy("Service", tag, usageType).Err?
    ensures ParseGroupBy("SERVICE", tag, usageType).Err?
    ensures ParseGroupBy("tag", "", usageType).Err?
    ensures ParseGroupBy("", tag, usageType).Err?
  {
  }

  /** The totals agree with the period sums, as `Compare` leaves them. */
  predicate TotalsConsistent(r: Result)
  {
    r.totalDiff == r.toTotal - r.fromTotal
    && r.totalPct == if r.fromTotal > 0.0 then PercentOf(r.totalDiff, r.fromTotal) else 0.0
  }

  /** What `filterByThreshold` returns: the periods and the period totals
      copied, the items with |Diff| at least `threshold` in order, and the
      total change and percentage left at zero because they are not copied. */
  function ThresholdFiltered(r: Result, threshold: real): Result
  {
    Result(r.fromPeriod, r.toPeriod, r.fromTotal, r.toTotal, 0.0, 0.0, Kept(r.items, PassesMinDiff(threshold)))
  }

  /** `filterByThreshold`, as written. */
  method FilterByThreshold(r: Result, threshold: real) returns (f: Result)
    ensures f == ThresholdFiltered(r, threshold)
    ensures forall i :: 0 <= i < |f.items| ==> Abs(f.items[i].diff) >= threshold
  {
    var items := KeepWhere(r.items, PassesMinDiff(threshold));
    f := Result(r.fromPeriod, r.toPeriod, r.fromTotal, r.toTotal, 0.0, 0.0, items);
    KeptMembers(r.items, PassesMinDiff(threshold));
    assert forall i :: 0 <= i < |items| ==> items[i] in items;
  }

  /** The defect: whenever the two periods' totals differ, the filtered
      result reports a total change of zero and no longer agrees with its
      own totals. */
  lemma ThresholdZeroesTotals(r: Result, threshold: real)
    requires TotalsConsistent(r) && r.toTotal != r.fromTotal
    ensures !TotalsConsistent(ThresholdFiltered(r, threshold))
  {
  }

  /** `filterByThreshold` with the total change and percentage copied too. */
  function ThresholdFilteredFixed(r: Result, threshold: real): Result
  {
    r.(items := Kept(r.items, PassesMinDiff(threshold)))
  }

  method FilterByThresholdFixed(r: Result, threshold: real) returns (f: Result)
    ensures f == ThresholdFilteredFixed(r, threshold)
    ensures forall i :: 0 <= i < |f.items| ==> Abs(f.items[i].diff) >= threshold
  {
    var items := KeepWhere(r.items, PassesMinDiff(threshold));
    f := Result(r.fromPeriod, r.toPeriod, r.fromTotal, r.toTotal, r.totalDiff, r.totalPct, items);
    KeptMembers(r.items, PassesMinDiff(threshold));
    assert forall i :: 0 <= i < |items| ==> items[i] in items;
  }

  /** The fixed filter keeps the periods, all four totals and their
      agreement, and exactly the items reaching the threshold, in order. */
  lemma ThresholdKeepsTotals(r: Result, threshold: real)
    ensures TotalsConsistent(r) ==> TotalsConsistent(ThresholdFilteredFixed(r, threshold))
    ensures var f := ThresholdFilteredFixed(r, threshold);
            f.fromPeriod == r.fromPeriod && f.toPeriod == r.toPeriod
            && f.fromTotal == r.fromTotal && f.toTotal == r.toTotal
            && f.totalDiff == r.totalDiff && f.totalPct == r.totalPct
    ensures forall x :: x in ThresholdFilteredFixed(r, threshold).items <==> x in r.items && Abs(x.diff) >= threshold
  {
    KeptMembers(r.items, PassesMinDiff(threshold));
  }

  /** The key each sort selector orders by; "name" has none here. */
  function SortKey(sortBy: string): Item -> real
  {
    match sortBy
    case "diff-pct" => AbsDiffPct
    case "cost" => ToCost
    case _ => AbsDiff
  }

  /** `applySorting`: "diff-pct", "cost" and "diff" select their sort, any
      other selector but "name" falls back to the |Diff| sort. The sort by
      name is not part of this model and leaves the order as it is. */
  method ApplySorting(a: array<Item>, sortBy: string)
    modifies a
    ensures multiset(a[..]) == old(multiset(a[..]))
    ensures sortBy != "name" ==> SortedDesc(a[..], SortKey(sortBy))
    ensures sortBy == "name" ==> a[..] == old(a[..])
  {
    match sortBy
    case "diff" => SortByDiff(a);
    case "diff-pct" => SortByDiffPercent(a);
    case "cost" => SortByToCost(a);
    case "name" =>
    case _ => SortByDiff(a);
  }

  /** Keeping some elements of a sorted sequence leaves it sorted. */
  lemma {:induction false} KeptSorted<T>(s: seq<T>, keep: T -> bool, key: T -> real)
    requires SortedDesc(s, key)
    ensures SortedDesc(Kept(s, keep), key)
  {
    if s != [] {
      var init, last := s[..|s| - 1], s[|s| - 1];
      assert SortedDesc(init, key) by {
        forall i, j | 0 <= i < j < |init| ensures key(init[i]) >= key(init[j]) {
          assert init[i] == s[i] && init[j] == s[j];
        }
      }
      KeptSorted(init, keep, key);
      if keep(last) {
        assert forall j :: 0 <= j < |init| ==> key(init[j]) >= key(last) by {
          forall j | 0 <= j < |init| ensures key(init[j]) >= key(last) {
            assert init[j] == s[j];
          }
        }
        KeptBelow(init, keep, key, key(last));
        SortedSnoc(Kept(init, keep), last, key);
      }
    }
  }

  /** A bound on every key of `s` bounds every key of what is kept. */
  lemma {:induction false} KeptBelow<T>(s: seq<T>, keep: T -> bool, key: T -> real, v: real)
    requires forall j :: 0 <= j < |s| ==> key(s[j]) >= v
    ensures forall i :: 0 <= i < |Kept(s, keep)| ==> key(Kept(s, keep)[i]) >= v
  {
    if s != [] {
      var init := s[..|s| - 1];
      assert forall j :: 0 <= j < |init| ==> key(init[j]) >= v by {
        forall j | 0 <= j < |init| ensures key(init[j]) >= v {
          assert init[j] == s[j];
        }
      }
      KeptBelow(init, keep, key, v);
    }
  }

  lemma SortedSnoc<T>(s: seq<T>, x: T, key: T -> real)
    requires SortedDesc(s, key)
    requires forall i :: 0 <= i < |s| ==> key(s[i]) >= key(x)
    ensures SortedDesc(s + [x], key)
  {
    forall i, j | 0 <= i < j < |s + [x]| ensures key((s + [x])[i]) >= key((s + [x])[j]) {
      assert (s + [x])[i] == s[i];
    }
  }

  /** An item passes the filters that apply: each applies only when its
      bound is positive. */
  predicate Passes(it: Item, threshold: real, minCost: real)
  {
    (threshold > 0.0 ==> Abs(it.diff) >= threshold)
    && (minCost > 0.0 ==> it.fromCost >= minCost || it.toCost >= minCost)
  }

  /** What the filter steps hold: `items` are those elements of `all` that
      pass the filters applied so far, each at most as often as in `all`,
      and in an order that keeps `key` sorted if `all` did. */
  ghost predicate Shown(all: seq<Item>, items: seq<Item>, threshold: real, minCost: real, key: Item -> real)
  {
    && multiset(items) <= multiset(all)
    && (SortedDesc(all, key) ==> SortedDesc(items, key))
    && (forall x :: x in items ==> Passes(x, threshold, minCost))
    && (forall x :: x in all && Passes(x, threshold, minCost) ==> x in items)
  }

  /** A filter step: keeping the items that pass one more filter. */
  lemma KeptShown(all: seq<Item>, items: seq<Item>, keep: Item -> bool,
                  t0: real, m0: real, t1: real, m1: real, key: Item -> real)
    requires Shown(all, items, t0, m0, key)
    requires forall x :: Passes(x, t1, m1) <==> Passes(x, t0, m0) && keep(x)
    ensures Shown(all, Kept(items, keep), t1, m1, key)
  {
    KeptMembers(items, keep);
    var k := Kept(items, keep);
    assert multiset(k) <= multiset(items) by {
      forall x ensures multiset(k)[x] <= multiset(items)[x] {}
    }
    if SortedDesc(all, key) {
      KeptSorted(items, keep, key);
    }
  }

  /** At most the first `n` items, as `items[:n]` when there are more. */
  function Limit<T>(items: seq<T>, n: nat): (r: seq<T>)
    ensures |r| <= n && r <= items
    ensures |items| <= n ==> r == items
    ensures |items| > n ==> |r| == n
  {
    if |items| > n then items[..n] else items
  }

  /** Cutting a list sorted by `key` keeps its largest elements: anything
      dropped has a key no larger than any that was kept. */
  lemma LimitKeepsLargest<T>(items: seq<T>, n: nat, key: T -> real)
    requires SortedDesc(items, key)
    ensures forall x :: x in items && x !in Limit(items, n) ==>
              forall i :: 0 <= i < |Limit(items, n)| ==> key(x) <= key(Limit(items, n)[i])
  {
    var m := Limit(items, n);
    forall x, i | x in items && x !in m && 0 <= i < |m|
      ensures key(x) <= key(m[i])
    {
      var k :| 0 <= k < |items| && items[k] == x;
      assert forall j :: 0 <= j < |m| ==> m[j] == items[j];
      assert |m| <= k;
      assert m[i] == items[i];
    }
  }

  /** Passing both filters that apply, as one predicate. */
  function PassesFilters(threshold: real, minCost: real): Item -> bool
  {
    (it: Item) => Passes(it, threshold, minCost)
  }

  /** The truncation step keeps everything `Shown` promises except
      completeness, which survives only when nothing was cut. */
  lemma LimitShown(all: seq<Item>, items: seq<Item>, n: nat, threshold: real, minCost: real, key: Item -> real)
    requires Shown(all, items, threshold, minCost, key)
    ensures multiset(Limit(items, n)) <= multiset(all)
    ensures forall i :: 0 <= i < |Limit(items, n)| ==> Passes(Limit(items, n)[i], threshold, minCost)
    ensures SortedDesc(all, key) ==> SortedDesc(Limit(items, n), key)
    ensures |Limit(items, n)| < n ==> forall x :: x in all && Passes(x, threshold, minCost) ==> x in Limit(items, n)
    ensures SortedDesc(all, key) ==>
              forall x :: x in all && Passes(x, threshold, minCost) && x !in Limit(items, n) ==>
                forall i :: 0 <= i < |Limit(items, n)| ==> key(x) <= key(Limit(items, n)[i])
  {
    var m := Limit(items, n);
    if SortedDesc(all, key) {
      LimitKeepsLargest(items, n, key);
    }
    assert items == m + items[|m|..];
    assert multiset(items) == multiset(m) + multiset(items[|m|..]);
    forall i | 0 <= i < |m| ensures Passes(m[i], threshold, minCost) {
      assert m[i] == items[i] && items[i] in items;
    }
  }

  /** The threshold step (skipped for a bound that is not positive) followed
      by the minimum-cost filter keeps exactly the items passing both. */
  lemma FiltersCompose(items: seq<Item>, passed: seq<Item>, threshold: real, minCost: real)
    requires passed == if threshold > 0.0 then Kept(items, PassesMinDiff(threshold)) else items
    ensures Kept(passed, PassesFilters(0.0, minCost)) == Kept(items, PassesFilters(threshold, minCost))
  {
    if threshold > 0.0 {
      KeptTwice(items, PassesMinDiff(threshold), PassesFilters(0.0, minCost), PassesFilters(threshold, minCost));
    } else {
      KeptAgrees(items, PassesFilters(0.0, minCost), PassesFilters(threshold, minCost));
    }
  }

  /** The minimum-cost filter of `runDiff`, applied only for a positive
      bound: exactly the items that pass it, in order. */
  method MinCostStep(r: Result, threshold: real, minCost: real, ghost all: seq<Item>, ghost key: Item -> real)
    returns (f: Result)
    requires Shown(all, r.items, threshold, 0.0, key)
    ensures f == r.(items := f.items)
    ensures f.items == Kept(r.items, PassesFilters(0.0, minCost))
    ensures Shown(all, f.items, threshold, minCost, key)
  {
    f := r;
    if minCost > 0.0 {
      KeptAgrees(r.items, PassesMinCost(minCost), PassesFilters(0.0, minCost));
      KeptShown(all, f.items, PassesMinCost(minCost), threshold, 0.0, threshold, minCost, key);
      var items := FilterByMinCost(f.items, minCost);
      f := f.(items := items);
    } else {
      assert forall x :: Passes(x, threshold, minCost) <==> Passes(x, threshold, 0.0);
      KeptAgrees(r.items, PassesFilters(0.0, minCost), PassesFilters(0.0, minCost));
    }
  }

  /** The minimum-cost filter, when its bound is positive, then at most
      `topN` items. Only the items change; their order is kept, so any sort
      order survives. */
  method MinCostAndLimit(r: Result, threshold: real, minCost: real, topN: nat,
                         ghost all: seq<Item>, ghost key: Item -> real)
    returns (f: Result)
    requires Shown(all, r.items, threshold, 0.0, key)
    ensures f == r.(items := f.items)
    ensures |f.items| <= topN
    ensures multiset(f.items) <= multiset(all)
    ensures forall i :: 0 <= i < |f.items| ==> Passes(f.items[i], threshold, minCost)
    ensures SortedDesc(all, key) ==> SortedDesc(f.items, key)
    ensures |f.items| < topN ==> forall x :: x in all && Passes(x, threshold, minCost) ==> x in f.items
    ensures SortedDesc(all, key) ==>
              forall x :: x in all && Passes(x, threshold, minCost) && x !in f.items ==>
                forall i :: 0 <= i < |f.items| ==> key(x) <= key(f.items[i])
    ensures f.items == Limit(Kept(r.items, PassesFilters(0.0, minCost)), topN)
  {
    f := MinCostStep(r, threshold, minCost, all, key);
    ghost var filtered := f.items;
    LimitShown(all, filtered, topN, threshold, minCost, key);
    if |f.items| > topN {
      f := f.(items := f.items[..topN]);
    }
    assert f.items == Limit(filtered, topN);
  }

  /** The filter and limit steps of `runDiff`, as written: the threshold
      filter (which drops the total change and percentage) and the
      minimum-cost filter when each bound is positive, then at most `topN`
      items. */
  method FilterAndLimit(r: Result, threshold: real, minCost: real, topN: int, ghost key: Item -> real)
    returns (f: Result)
    requires topN >= 0
    ensures f.fromPeriod == r.fromPeriod && f.toPeriod == r.toPeriod
    ensures f.fromTotal == r.fromTotal && f.toTotal == r.toTotal
    ensures threshold > 0.0 ==> f.totalDiff == 0.0 && f.totalPct == 0.0
    ensures threshold <= 0.0 ==> f.totalDiff == r.totalDiff && f.totalPct == r.totalPct
    ensures |f.items| <= topN
    ensures multiset(f.items) <= multiset(r.items)
    ensures forall i :: 0 <= i < |f.items| ==> Passes(f.items[i], threshold, minCost)
    ensures SortedDesc(r.items, key) ==> SortedDesc(f.items, key)
    ensures |f.items| < topN ==> forall x :: x in r.items && Passes(x, threshold, minCost) ==> x in f.items
    ensures SortedDesc(r.items, key) ==>
              forall x :: x in r.items && Passes(x, threshold, minCost) && x !in f.items ==>
                forall i :: 0 <= i < |f.items| ==> key(x) <= key(f.items[i])
    ensures f.items == Limit(Kept(r.items, PassesFilters(threshold, minCost)), topN)
  {
    f := r;
    assert Shown(r.items, f.items, 0.0, 0.0, key);
    if threshold > 0.0 {
      KeptShown(r.items, f.items, PassesMinDiff(threshold), 0.0, 0.0, threshold, 0.0, key);
      f := FilterByThreshold(f, threshold);
    } else {
      assert forall x :: Passes(x, threshold, 0.0) <==> Passes(x, 0.0, 0.0);
    }
    ghost var passed := f.items;
    f := MinCostAndLimit(f, threshold, minCost, topN, r.items, key);
    FiltersCompose(r.items, passed, threshold, minCost);
  }

  /** The same steps with the corrected threshold filter, which keeps all
      four totals. */
  method FilterAndLimitFixed(r: Result, threshold: real, minCost: real, topN: int, ghost key: Item -> real)
    returns (f: Result)
    requires topN >= 0
    ensures f == r.(items := f.items)
    ensures |f.items| <= topN
    ensures multiset(f.items) <= multiset(r.items)
    ensures forall i :: 0 <= i < |f.items| ==> Passes(f.items[i], threshold, minCost)
    ensures SortedDesc(r.items, key) ==> SortedDesc(f.items, key)
    ensures |f.items| < topN ==> forall x :: x in r.items && Passes(x, threshold, minCost) ==> x in f.items
    ensures SortedDesc(r.items, key) ==>
              forall x :: x in r.items && Passes(x, threshold, minCost) && x !in f.items ==>
                forall i :: 0 <= i < |f.items| ==> key(x) <= key(f.items[i])
    ensures f.items == Limit(Kept(r.items, PassesFilters(threshold, minCost)), topN)
  {
    f := r;
    assert Shown(r.items, f.items, 0.0, 0.0, key);
    if threshold > 0.0 {
      KeptShown(r.items, f.items, PassesMinDiff(threshold), 0.0, 0.0, threshold, 0.0, key);
      f := FilterByThresholdFixed(f, threshold);
    } else {
      assert forall x :: Passes(x, threshold, 0.0) <==> Passes(x, 0.0, 0.0);
    }
    ghost var passed := f.items;
    f := MinCostAndLimit(f, threshold, minCost, topN, r.items, key);
    FiltersCompose(r.items, passed, threshold, minCost);
  }

  /** The first two steps of `runDiff`: compare, then sort by the selector. */
  method CompareSorted(fromCosts: map<string, real>, toCosts: map<string, real>, from: Period, to: Period,
                       sortBy: string)
    returns (r: Result)
    ensures r.fromPeriod == from && r.toPeriod == to
    ensures r.fromTotal == MapSum(fromCosts) && r.toTotal == MapSum(toCosts)
    ensures TotalsConsistent(r)
    ensures multiset(r.items) == ExpectedItems(fromCosts, toCosts)
    ensures sortBy != "name" ==> SortedDesc(r.items, SortKey(sortBy))
  {
    var compared := Compare(fromCosts, toCosts, from, to);
    var a := new Item[|compared.items|](i requires 0 <= i < |compared.items| => compared.items[i]);
    assert a[..] == compared.items;
    ApplySorting(a, sortBy);
    r := compared.(items := a[..]);
  }

  /** The pipeline after the fetch (`runDiff`), as written: compare, sort,
      filter, limit. What is shown is part of the comparison, passes the
      filters that apply, keeps the chosen order, and is everything that
      passes unless `topN` cut it short. The totals agree with each other
      only without a threshold; with one, the total change and percentage
      are 0. */
  method RunDiff(fromCosts: map<string, real>, toCosts: map<string, real>, from: Period, to: Period,
                 sortBy: string, threshold: real, minCost: real, topN: int)
    returns (r: Result)
    requires topN >= 0
    ensures r.fromPeriod == from && r.toPeriod == to
    ensures r.fromTotal == MapSum(fromCosts) && r.toTotal == MapSum(toCosts)
    ensures threshold <= 0.0 ==> TotalsConsistent(r)
    ensures threshold > 0.0 ==> r.totalDiff == 0.0 && r.totalPct == 0.0
    ensures |r.items| <= topN
    ensures multiset(r.items) <= ExpectedItems(fromCosts, toCosts)
    ensures forall i :: 0 <= i < |r.items| ==> Passes(r.items[i], threshold, minCost)
    ensures sortBy != "name" ==> SortedDesc(r.items, SortKey(sortBy))
    ensures |r.items| < topN ==>
              forall x :: x in ExpectedItems(fromCosts, toCosts) && Passes(x, threshold, minCost) ==> x in r.items
    ensures sortBy != "name" ==>
              forall x :: x in ExpectedItems(fromCosts, toCosts) && Passes(x, threshold, minCost) && x !in r.items ==>
                forall i :: 0 <= i < |r.items| ==> SortKey(sortBy)(x) <= SortKey(sortBy)(r.items[i])
  {
    var sorted := CompareSorted(fromCosts, toCosts, from, to, sortBy);
    r := FilterAndLimit(sorted, threshold, minCost, topN, SortKey(sortBy));
    if |r.items| < topN {
      forall x | x in ExpectedItems(fromCosts, toCosts) && Passes(x, threshold, minCost)
        ensures x in r.items
      {
        assert x in multiset(sorted.items);
      }
    }
    if sortBy != "name" {
      forall x | x in ExpectedItems(fromCosts, toCosts) && Passes(x, threshold, minCost) && x !in r.items
        ensures forall i :: 0 <= i < |r.items| ==> SortKey(sortBy)(x) <= SortKey(sortBy)(r.items[i])
      {
        assert x in multiset(sorted.items);
      }
    }
  }

  /** The pipeline with the corrected threshold filter: the same items, and
      totals that always agree with each other. */
  method RunDiffFixed(fromCosts: map<string, real>, toCosts: map<string, real>, from: Period, to: Period,
                      sortBy: string, threshold: real, minCost: real, topN: int)
    returns (r: Result)
    requires topN >= 0
    ensures r.fromPeriod == from && r.toPeriod == to
    ensures r.fromTotal == MapSum(fromCosts) && r.toTotal == MapSum(toCosts)
    ensures TotalsConsistent(r)
    ensures |r.items| <= topN
    ensures multiset(r.items) <= ExpectedItems(fromCosts, toCosts)
    ensures forall i :: 0 <= i < |r.items| ==> Passes(r.items[i], threshold, minCost)
    ensures sortBy != "name" ==> SortedDesc(r.items, SortKey(sortBy))
    ensures |r.items| < topN ==>
              forall x :: x in ExpectedItems(fromCosts, toCosts) && Passes(x, threshold, minCost) ==> x in r.items
    ensures sortBy != "name" ==>
              forall x :: x in ExpectedItems(fromCosts, toCosts) && Passes(x, threshold, minCost) && x !in r.items ==>
                forall i :: 0 <= i < |r.items| ==> SortKey(sortBy)(x) <= SortKey(sortBy)(r.items[i])
  {
    var sorted := CompareSorted(fromCosts, toCosts, from, to, sortBy);
    r := FilterAndLimitFixed(sorted, threshold, minCost, topN, SortKey(sortBy));
    if |r.items| < topN {
      forall x | x in ExpectedItems(fromCosts, toCosts) && Passes(x, threshold, minCost)
        ensures x in r.items
      {
        assert x in multiset(sorted.items);
      }
    }
    if sortBy != "name" {
      forall x | x in ExpectedItems(fromCosts, toCosts) && Passes(x, threshold, minCost) && x !in r.items
        ensures forall i :: 0 <= i < |r.items| ==> SortKey(sortBy)(x) <= SortKey(sortBy)(r.items[i])
      {
        assert x in multiset(sorted.items);
      }
    }
  }
}
