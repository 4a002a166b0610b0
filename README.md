# costdiff: the comparison and aggregation engine, in Dafny

costdiff is a command-line tool that compares cloud costs between two periods
(`costdiff`), ranks the costs of one period (`costdiff top`) and shows a daily
trend (`costdiff watch`). This project models what happens once the Cost
Explorer response is in, and proves properties of it:

- **Aggregation** (`AwsCosts`): folding the response into a name→cost map,
  a daily series and a total. The response is plain data, and the
  number parser is a parameter.
- **Comparison** (`DiffCompare`): one item per name in either period, the
  change and percentage conventions for new and removed names, the totals,
  the in-place sorts and the filters.
- **Commands after the fetch** (`CmdDiff`, `CmdTop`, `CmdWatch`, `CmdRoot`):
  - period parsing, defaults and ordering;
  - the group-by and metric validators and the output-format switch;
  - the diff pipeline (compare, sort, filter, limit);
  - the top-N ranking with shares of the total;
  - the watch window and day-over-day changes.
- **Records and labels** (`DiffTypes`): the period label and the JSON
  projections.
- **Presentation rules** (`OutputColor`, `OutputTable`, `OutputCsv`):
  - currency, percent and change text, and its colour;
  - rune truncation;
  - bar-chart widths and colour bands;
  - the CSV records.

Support modules:

- `Civil` holds calendar dates at midnight UTC. Its `AddDate` reproduces
  Go's normalisation, where an overflowing day rolls into the next month.
  It also has the `2006-01-02` and `2006-01` layouts and the weekday.
- `Decimal` holds `%d` and `%.Nf`. `%.Nf` is rounded half to even from the
  exact value.
- `Sums` holds sums over maps, independent of iteration order.
- `Wrappers` holds `Option` and `Outcome`.

Modelling choices:

- Costs are exact reals.
- The clock (`now`), the global flags and `color.NoColor` are parameters.
- Go's unordered map iteration is modelled by `:|` choice. Results that
  depend on it are stated as multisets, or as orderings up to ties.
- Sorting is an in-place selection sort on an `array`. `sort.Slice` is not
  stable, so only "non-increasing key" and "permutation" are promised.

## Model

| member | source | states |
|---|---|---|
| DiffCompare.Abs | internal/diff/compare.go:134-139 | the result is non-negative and is `x` or `-x` |
| DiffCompare.BuildItem | internal/diff/compare.go:26-45 | Diff is ToCost − FromCost. IsNew iff FromCost = 0 < ToCost, with DiffPct 100. IsRemoved iff FromCost > 0 = ToCost, with DiffPct −100. The two are never both set. Otherwise DiffPct is the change over FromCost when FromCost > 0, else 0 |
| DiffCompare.BuildItems | internal/diff/compare.go:16-50 | the items are one per name in either map (missing side costs 0), and the accumulated totals are the two map sums |
| DiffCompare.Compare | internal/diff/compare.go:8-64 | periods copied; items are exactly one per name of the union; order by non-increasing \|Diff\|; FromTotal/ToTotal are the map sums; TotalDiff = ToTotal − FromTotal; TotalPct = TotalDiff/FromTotal·100 if FromTotal > 0 else 0 |
| DiffCompare.CompareSimple | internal/diff/compare.go:67-111 | the same multiset of items as `Compare`, ordered by non-increasing \|Diff\| |
| DiffCompare.ItemsCharacterised | internal/diff/compare.go:16-47 | from the multiset alone: each item is the item for its own name, every name of either map has an item, no name has two, and there are exactly as many items as names |
| DiffCompare.CompareSimpleAgrees | internal/diff/compare.go:59-61 | two results of the same comparison, both sorted by \|Diff\|, have equal length and the same \|Diff\| at every position (equal up to ties) |
| DiffCompare.SortedKeysEqual | internal/diff/compare.go:59-61 | two sorted orderings of one multiset agree on every key |
| DiffCompare.SortDescending | internal/diff/compare.go:59-61 | in place: the array becomes a permutation of its old contents with a non-increasing key |
| DiffCompare.SortByToCost | internal/diff/compare.go:114-118 | permutes the array in place so that ToCost does not increase |
| DiffCompare.SortByDiff | internal/diff/compare.go:121-125 | permutes the array in place so that \|Diff\| does not increase |
| DiffCompare.SortByDiffPercent | internal/diff/compare.go:128-132 | permutes the array in place so that \|DiffPct\| does not increase |
| DiffCompare.KeepWhere | internal/diff/compare.go:143-149 | the append loop returns exactly the elements that pass, in order |
| DiffCompare.KeptMembers | internal/diff/compare.go:143-149 | an element is kept iff it occurs and passes; kept multiplicities are the original ones; never longer |
| DiffCompare.KeptAppend | internal/diff/compare.go:143-149 | filtering distributes over concatenation (order is kept) |
| DiffCompare.FilterByMinDiff | internal/diff/compare.go:142-150 | exactly the items with \|Diff\| ≥ minDiff, in their original order |
| DiffCompare.FilterByMinCost | internal/diff/compare.go:153-161 | exactly the items with FromCost ≥ m or ToCost ≥ m, in their original order |
| Sums.SumOfPermutation | internal/diff/compare.go:48-49 | a sum does not depend on the order of the terms |
| Sums.MapSumPick | internal/diff/compare.go:17-22 | a map sum may start from any key, so it does not depend on iteration order |
| Sums.MapSumAdd | internal/aws/costs.go:43 | `m[k] += a`, with a missing key read as 0, adds `a` to the map's sum |
| DiffTypes.Label | internal/diff/types.go:14-30 | the period's label; its three cases are stated by `LabelOfMonth`, `LabelOfDay` and `LabelOfRange` |
| DiffTypes.LabelOfMonth | internal/diff/types.go:16-21 | a calendar month starting on the 1st is labelled "Jan 2006" |
| DiffTypes.LabelOfDay | internal/diff/types.go:24-26 | a single day is labelled "Jan 2, 2006" |
| DiffTypes.LabelOfRange | internal/diff/types.go:29 | any other period is labelled "Jan 2 - Jan 2, 2006" with the day before End, which lies exactly one day before End |
| DiffTypes.PeriodToJSON | internal/diff/types.go:93-99 | the label field is `Label()` |
| DiffTypes.PeriodJSONRoundTrip | internal/diff/types.go:93-99 | both dates are written as YYYY-MM-DD and parse back to the period, for four-digit years |
| DiffTypes.ResultToJSON | internal/diff/types.go:113-123 | items are copied unchanged |
| DiffTypes.ResultJSONRoundTrip | internal/diff/types.go:113-123 | totals and items are copied and the periods read back: nothing is lost |
| DiffTypes.TopResultToJSON | internal/diff/types.go:133-139 | items are copied unchanged |
| DiffTypes.TopResultJSONRoundTrip | internal/diff/types.go:133-139 | total and items are copied and the period reads back |
| DiffTypes.WatchResultToJSON | internal/diff/types.go:159-177 | days of the same length and order, each converted; both dates as YYYY-MM-DD; total and average copied |
| DiffTypes.DayItemJSONRoundTrip | internal/diff/types.go:162-167 | each day's date reads back and its cost, change and percentage are copied |
| CmdTop.CollectEntries | cmd/top.go:109-115 | one item per map entry with name and cost, and a total equal to the map's sum |
| CmdTop.SetShares | cmd/top.go:123-127 | each Percent becomes Cost/Total·100 when Total > 0 and stays 0 otherwise; nothing else changes |
| CmdTop.BuildTopResult | cmd/top.go:105-134 | period passed through; Total is the map sum; one item per entry; order by non-increasing Cost; each Percent is its share |
| CmdTop.EntriesCharacterised | cmd/top.go:109-113 | each item is a map entry with its cost, every name has an item, and no name has two |
| CmdTop.SharesSumTo100 | cmd/top.go:123-127 | over exact reals the shares add up to 100 whenever Total > 0 |
| CmdTop.FilterTopByThreshold | cmd/top.go:136-150 | exactly the items with Cost ≥ threshold, in order; period and total unchanged |
| CmdTop.ParseTopPeriod | cmd/top.go:90-103 | a given date is delegated to `parseDate`; the default starts on the 1st of `now`'s month |
| CmdTop.TopPeriodDefault | cmd/top.go:93-99 | the default is one calendar month iff `now`'s day exists in the next month; on 31 January it runs to 1 March |
| CmdTop.ParseTopPeriodFixed | cmd/top.go:90-103 | a given date is delegated to `parseDate`; the default is computed from the 1st of the month |
| CmdTop.TopPeriodDefaultFixed | cmd/top.go:93-99 | the corrected default is always the calendar month holding `now` |
| CmdTop.ThresholdStep | cmd/top.go:77-79 | filters only for a positive threshold, keeping exactly the items that reach it in ranking order; the total is kept, and distinct names stay distinct |
| CmdTop.LimitStep | cmd/top.go:82-84 | exactly the first `topN` filtered items (all of them when they fit); names stay distinct, whatever is cut costs no more than anything kept, and everything the ranking promises is kept |
| CmdTop.LimitDominance | cmd/top.go:82-84 | the first `topN` of a ranking by cost are the most expensive: names are distinct, and any name reaching the threshold that is not shown costs no more than each shown item |
| CmdTop.RunTop | cmd/top.go:74-84 | at most `topN` items, sorted by cost, each a distinct map entry with its share of the map's total, each reaching a positive threshold; any qualifying name not shown costs no more than every shown item, and fewer than `topN` shown means every qualifying name is shown |
| CmdWatch.WatchWindow | cmd/watch.go:41-43 | the window ends on today's date |
| CmdWatch.WatchWindowLength | cmd/watch.go:41-43 | the window spans exactly `watchDays` days |
| CmdWatch.BuildWatchResult | cmd/watch.go:88-123 | one day per input in order with date and cost copied; day 0 has no change; day i's change is Cost[i] − Cost[i−1] of the original costs; its percentage is change/Cost[i−1]·100 when Cost[i−1] > 0, else 0; Total is the sum; Average is Total/len or 0; dates passed through |
| CmdWatch.ChangesTelescope | cmd/watch.go:101-104 | the changes of the first n days add up to the last cost minus the first |
| CmdDiff.ParseDate | cmd/diff.go:138-156 | YYYY-MM-DD gives that day, else YYYY-MM gives that month, else the fixed error |
| CmdDiff.ParseDateOfDay | cmd/diff.go:140-145 | a printed day parses to [that day, next day), labelled "Jan 2, 2006" |
| CmdDiff.ParseDateOfMonth | cmd/diff.go:148-153 | a printed month parses to [1st, 1st of next month), a calendar month labelled "Jan 2006" |
| CmdDiff.ParseDateRejects | cmd/diff.go:155 | "invalid", "2024", "12-2024", "2024/12/15" and "2024-13" are errors |
| CmdDiff.ParsePeriods | cmd/diff.go:94-136 | an accepted pair has from.Start strictly before to.Start; each given date is `parseDate`'s; each empty one is its default; a bad from is an error |
| CmdDiff.ParsePeriodsOrder | cmd/diff.go:129-133 | two given periods pass iff the first starts before the second; equal inputs are rejected |
| CmdDiff.DefaultFromPeriod | cmd/diff.go:99-105 | starts on a 1st, ends on the 1st of `now`'s month, and never ends before it starts |
| CmdDiff.DefaultFromStart | cmd/diff.go:99-105 | the default from starts on the 1st of the previous month when `now`'s day exists there, else on the 1st of `now`'s month |
| CmdDiff.DefaultPeriodsAccepted | cmd/diff.go:99-133 | the defaults are accepted iff `now`'s day of the month exists in the previous month |
| CmdDiff.DefaultPeriodsShape | cmd/diff.go:99-120 | accepted defaults are the previous calendar month followed by the current one |
| CmdDiff.DefaultPeriodsMarch31 | cmd/diff.go:99-133 | on 31 March the defaults are rejected |
| CmdDiff.DefaultToPeriod | cmd/diff.go:114-120 | starts on the 1st of `now`'s month, ends on a 1st, and ends strictly after it starts |
| CmdDiff.DefaultToPeriodSpan | cmd/diff.go:114-120 | the default to is one calendar month iff `now`'s day exists in the next month |
| CmdDiff.DefaultToPeriodJanuary31 | cmd/diff.go:114-120 | on 31 January the current month runs to 1 March |
| CmdDiff.ParsePeriodsFixed | cmd/diff.go:94-136 | an accepted pair has from.Start strictly before to.Start |
| CmdDiff.DefaultPeriodsFixed | cmd/diff.go:99-120 | with defaults from the 1st of the month, they are always accepted: the previous and the current calendar month, back to back |
| CmdDiff.ParseGroupBy | cmd/diff.go:158-176 | accepted iff an exact selector, or "tag" with a key; each maps to its fixed group type; "tag" gives (TAG, key) |
| CmdDiff.ParseGroupByRejects | cmd/diff.go:168-174 | other letter case, the empty selector and "tag" without a key are errors |
| CmdDiff.FilterByThreshold | cmd/diff.go:178-194 | as written: periods and period totals copied, items with \|Diff\| ≥ threshold in order, total change and percentage 0 |
| CmdDiff.ThresholdZeroesTotals | cmd/diff.go:179-185 | whenever the totals differ, the filtered result no longer agrees with its own totals |
| CmdDiff.FilterByThresholdFixed | cmd/diff.go:178-194 | the same filter with the total change and percentage copied |
| CmdDiff.ThresholdKeepsTotals | cmd/diff.go:178-194 | the corrected filter keeps periods, all four totals and their agreement, and exactly the items reaching the threshold |
| CmdDiff.ApplySorting | cmd/diff.go:209-223 | a permutation in place; "diff-pct", "cost" and "diff" select their key, any other selector except "name" falls back to \|Diff\| |
| CmdDiff.KeptSorted | cmd/diff.go:78-83 | filtering a sorted sequence leaves it sorted |
| CmdDiff.FiltersCompose | cmd/diff.go:78-83 | the threshold step (skipped for a bound that is not positive) followed by the minimum-cost filter keeps exactly the items passing both filters that apply |
| CmdDiff.Limit | cmd/diff.go:86-88 | a prefix of exactly `n` items when there are more, and the whole sequence when it fits |
| CmdDiff.LimitKeepsLargest | cmd/diff.go:86-88 | cutting a list sorted by a key keeps its largest elements: anything dropped has a key no larger than any kept |
| CmdDiff.MinCostStep | cmd/diff.go:81-83 | only the items change: exactly those passing the minimum-cost filter (all of them for a bound that is not positive), in order, still sorted and complete |
| CmdDiff.MinCostAndLimit | cmd/diff.go:81-88 | only the items change: exactly the first `topN` of those passing the minimum-cost filter, in their order; with a sorted input, anything passing but cut has a key no larger than any kept, and fewer than `topN` means nothing that passes was dropped |
| CmdDiff.FilterAndLimit | cmd/diff.go:78-88 | periods and both period totals kept; with a positive threshold the total change and percentage become 0, otherwise they are kept; the items are exactly the first `topN` of those passing the filters that apply, in their order; with a sorted input, anything passing but cut has a key no larger than any kept |
| CmdDiff.FilterAndLimitFixed | cmd/diff.go:78-88 | the same steps with the corrected threshold filter: only the items change, and they are exactly the first `topN` passing items, with the same guarantees |
| CmdDiff.CompareSorted | cmd/diff.go:72-75 | compare, then sort: periods and totals consistent, the items are exactly the comparison's, sorted by the selected key unless sorting by name |
| CmdDiff.RunDiff | cmd/diff.go:72-88 | compare, sort, filter, limit: periods and period totals kept; the total change and percentage are consistent without a threshold and 0 with one; at most `topN` items drawn from the comparison, all passing, sorted by the selected key; unless sorting by name, any passing item not shown has a key no larger than every shown item; complete when fewer than `topN` |
| CmdDiff.RunDiffFixed | cmd/diff.go:72-88 | the pipeline with the corrected threshold filter: the same item guarantees as `RunDiff`, including the largest-first selection, and totals always consistent |
| CmdRoot.GetAWSMetric | cmd/root.go:128-133 | an exact, case-sensitive lookup in the metric table; any other name is the fixed error |
| CmdRoot.MetricTable | cmd/root.go:31-39 | each of the seven names selects its API metric |
| CmdRoot.MetricsDistinct | cmd/root.go:31-39 | different names select different API metrics |
| CmdRoot.ApiNamesRejected | cmd/root.go:129-132 | an API metric name is not itself an accepted name |
| CmdRoot.OtherNamesRejected | cmd/root.go:129-132 | the empty name and other letter case are rejected |
| CmdRoot.DefaultMetricAccepted | cmd/root.go:84 | the default of the metric flag is accepted |
| CmdRoot.SelectRenderer | cmd/diff.go:196-207 | exactly "table", "json" and "csv" select their renderer; any other format is the fixed error naming it |
| CmdRoot.DefaultFormatAccepted | cmd/root.go:73 | the default format is accepted; other letter case is not |
| AwsCosts.BuildGroupDefinition | internal/aws/costs.go:113-129 | exactly one definition, Tag iff the kind is "TAG", the key passed through |
| AwsCosts.GroupName | internal/aws/costs.go:132-145 | "Unknown" without keys, "Other" for an empty first key, else the first key; never empty |
| AwsCosts.ParseAmount | internal/aws/costs.go:148-159 | 0 for a missing or unparseable amount, else the parsed number |
| AwsCosts.AddGroupsKeys | internal/aws/costs.go:40-44 | folding groups adds a key for exactly the names that occur |
| AwsCosts.AddGroupsValues | internal/aws/costs.go:40-44 | each name gains the amounts of the groups with that name |
| AwsCosts.AddGroupsConserves | internal/aws/costs.go:40-44 | the map's sum gains the sum of all amounts |
| AwsCosts.CostsKeys | internal/aws/costs.go:37-45 | the costs map has a key for exactly the names that occur in any time slot |
| AwsCosts.CostsValues | internal/aws/costs.go:37-45 | each name's cost is the sum over every group with that name in every time slot |
| AwsCosts.CostsConserve | internal/aws/costs.go:37-45 | over all names the costs add up to the sum of all amounts |
| AwsCosts.GetCosts | internal/aws/costs.go:37-47 | the nested loop computes exactly the fold over all slots and groups |
| AwsCosts.GetDailyCosts | internal/aws/costs.go:66-89 | the loop computes the daily series: one entry per slot whose start parses, with its group sum or its total |
| AwsCosts.DailyPrefix | internal/aws/costs.go:68-87 | the series keeps response order: an earlier prefix of the slots gives a prefix of the series |
| AwsCosts.DailyLength | internal/aws/costs.go:69-72 | at most one entry per slot, and exactly one each when every start parses |
| AwsCosts.GetTotalCost | internal/aws/costs.go:177-182 | the sum of every slot's total |
| AwsCosts.DailyAddsUpToTotal | internal/aws/costs.go:74-81 | with no groups and every start parsing, the daily series adds up to the total cost |
| OutputColor.Sprint | internal/output/color.go:12-17 | the text is unchanged; it is coloured iff colour is on |
| OutputColor.ColorizeChange | internal/output/color.go:33-43 | the text is unchanged; plain iff colour is off or the change is 0; red iff positive; green iff negative |
| OutputColor.ColorizePercent | internal/output/color.go:46-49 | `ColorizeChange` applied to the percent text |
| OutputColor.ColorizeDiff | internal/output/color.go:52-55 | `ColorizeChange` applied to the change text |
| OutputColor.FormatDiffFull | internal/output/color.go:82-90 | new wins and gives "+$… (new)", then removed gives "-$… (removed)", else "change (percent)"; coloured by the sign of the change |
| OutputColor.FormatCurrency | internal/output/color.go:58-64 | the `%.2f` currency text; its sign and magnitude are stated by `CurrencyReadsBack` |
| OutputColor.CurrencyReadsBack | internal/output/color.go:58-63 | "-$" exactly for a negative amount, else "$", then digits that read back to the magnitude within half a cent |
| OutputColor.FormatChange | internal/output/color.go:74-80 | the signed change text; its sign and magnitude are stated by `ChangeReadsBack` |
| OutputColor.ChangeReadsBack | internal/output/color.go:74-79 | "+$" exactly when not negative, else "-$", then the magnitude within half a cent |
| OutputColor.FormatPercent | internal/output/color.go:66-72 | the signed percentage text; its sign, digits and "%" are stated by `PercentReadsBack` |
| OutputColor.PercentReadsBack | internal/output/color.go:66-71 | "+" exactly when not negative, else the value's own "-", one decimal within 0.05, then "%" |
| OutputColor.FixedNegative | internal/output/color.go:70 | `%.1f` of a negative value is "-" and the magnitude's text |
| OutputColor.Magnitude | internal/output/color.go:58-79 | `%.Nf` of a non-negative value has no sign and reads back within half of the last place |
| Decimal.FixedDigits | internal/output/color.go:60-62 | `%.Nf` starts with "-" exactly for a negative value, and its digits are the value rounded to the last place |
| Decimal.NatToStringRoundTrip | internal/output/csv.go:78 | `%d` reads back as the number |
| OutputColor.ItemChangeColourMatchesSign | internal/output/color.go:82-90 | for a compared item, red text starts with "+" and green text with "-" |
| OutputColor.CurrencyExample | internal/output/color.go:58-63 | −1234.56 is written "-$1234.56" |
| OutputTable.Truncate | internal/output/table.go:246-255 | never longer than `maxLen`; a string that fits is unchanged; otherwise the first `maxLen` runes when `maxLen` ≤ 3, else the first `maxLen`−3 runes and "..." |
| OutputTable.TruncateIdempotent | internal/output/table.go:246-255 | truncating twice equals truncating once |
| OutputTable.TruncateKeepsPrefix | internal/output/table.go:246-255 | what is kept before the ellipsis is a prefix of the name |
| OutputTable.TowardZero | internal/output/table.go:222 | Go's float→int conversion: the integer part, toward zero |
| OutputTable.BarWidth | internal/output/table.go:221-224 | the width as written is at least 1 exactly for a positive cost, and 0 for a cost of 0; `BarWidthBounds` and `BarWidthNegative` bound it |
| OutputTable.BarWidthBounds | internal/output/table.go:222-225 | for 0 ≤ cost ≤ peak the width is in [0, 40]; at least 1 iff the cost is positive; 40 at the peak |
| OutputTable.BarWidthNegative | internal/output/table.go:222-227 | the width as written is negative iff cost·40 ≤ −peak |
| OutputTable.NegativeCostPanics | internal/output/table.go:222-227 | a −$10 day against a $10 peak gets width −40 |
| OutputTable.BarWidthClamped | internal/output/table.go:221-226 | a non-negative width that equals the written one for any cost of at least 0, and is at least 1 exactly for a positive cost |
| OutputTable.BarWidthClampedBounds | internal/output/table.go:222-227 | the clamped width is in [0, 40] for any cost up to the peak, agrees with the written one for costs ≥ 0, and is at least 1 iff the cost is positive |
| OutputTable.Band | internal/output/table.go:230-236 | red exactly above 1.2 times the average, green exactly when not red and below 0.8 times it, cyan exactly in between |
| OutputTable.BandAroundAverage | internal/output/table.go:230-236 | for a non-negative average: red bars lie above the average, green ones below it, and a day at the average is cyan |
| OutputTable.BandNegativeAverage | internal/output/table.go:230-236 | for a negative average a day exactly at the average is red, and so is one below the average |
| OutputTable.PeakCost | internal/output/table.go:210-215 | the scan's result is ≥ 0, bounds every day, and is a day's cost or 0 |
| OutputTable.PeakZero | internal/output/table.go:217-219 | the peak is 0 iff no day has a positive cost |
| OutputTable.MaxCost | internal/output/table.go:210-215 | the scan computes the peak |
| OutputTable.RenderBarChart | internal/output/table.go:204-243 | nothing when no day is positive, otherwise one line per day in order with its clamped bar and band |
| OutputTable.DrawBars | internal/output/table.go:221-242 | one line per day, in order |
| OutputTable.ChartBars | internal/output/table.go:222-227 | every drawn bar has 0 to 40 blocks, at least one iff the cost is positive, and all 40 at the peak |
| OutputCsv.WriteRecords | internal/output/csv.go:23-54 | the header, then one record per element in order |
| OutputCsv.RenderCSV | internal/output/csv.go:18-57 | 1 + len(Items) records: the 9-column header, then each item's record in order |
| OutputCsv.RenderTopCSV | internal/output/csv.go:65-90 | the top header, then each item's record in order, ranked from 1 |
| OutputCsv.RenderWatchCSV | internal/output/csv.go:98-123 | the watch header, then each day's record in order |
| OutputCsv.DiffRow | internal/output/csv.go:40-50 | one cell per header column: the name first, then both period labels, and flag cells that read "true" exactly when the flag is set; the money cells are stated by `MoneyCell` |
| OutputCsv.BoolText | internal/output/csv.go:48-49 | `%t` reads "true" exactly for true, and "false" otherwise |
| OutputCsv.MoneyCell | internal/output/csv.go:44-47 | a money cell is "-" exactly for a negative amount, and its digits are the amount in cents, rounded |
| OutputCsv.MoneyExample | internal/output/csv.go:44 | 500 is written "500.00" |
| OutputCsv.TopRow | internal/output/csv.go:77-83 | one cell per header column, with the name and the period's label; the rank cell is stated by `TopRankCell` |
| OutputCsv.TopRankCell | internal/output/csv.go:78 | row i's rank cell reads back as i + 1 |
| OutputCsv.WatchRow | internal/output/csv.go:110-116 | one cell per header column; the date and weekday cells are stated by `WatchDateCell` |
| OutputCsv.WatchDateCell | internal/output/csv.go:111-112 | the date cell parses back to the day, and the weekday cell names its weekday |
| OutputCsv.WatchNewYear | internal/output/csv.go:112 | 2025-01-01 is written as "Wednesday" |
| Civil.AddDate | cmd/diff.go:101 | `AddDate` always gives a valid date (Go's normalisation) |
| Civil.AddDaysNumber | cmd/watch.go:43 | adding k days moves the day number by exactly k, across month and year ends |
| Civil.AddOneMonth | cmd/diff.go:116 | one month later is the same day of the next month when it exists, else it rolls over |
| Civil.SubOneMonth | cmd/diff.go:101 | one month earlier is the same day of the previous month when it exists, else it rolls into `now`'s month |
| Civil.DayNumberOrder | cmd/diff.go:130 | the day number orders dates as the calendar does, so `Before` is calendar order |
| Civil.ParseFormatISO | cmd/diff.go:140 | "2006-01-02" parses back what it prints, for years 0 to 9999 |
| Civil.ParseFormatYearMonth | cmd/diff.go:148 | "2006-01" parses back to the first of the printed month |
| Civil.NextWeekday | internal/output/csv.go:112 | consecutive days have consecutive weekdays |

## Left out

- Fetching: the SDK call, request construction, client set-up, context timeouts, spinners and logging are left out. The response is a plain datatype, and `strconv.ParseFloat` is the parameter `parseFloat`.
- `GetCostsByService`, `GetCostsByRegion`, `GetCostsByAccount` and `GetCostsByTag` are left out. They are one-line calls of `GetCosts` with a fixed group type.
- The service-filter argument is left out. `cmd/diff.go` passes it to `GetCosts`, but it is not defined in the files modelled here, and the `GetCosts` of `internal/aws/costs.go` takes no such parameter. The model follows `costs.go`.
- `handleAWSError` is left out, because it classifies foreign SDK error types.
- `aws.GroupByUsageType` is a parameter of `CmdDiff.ParseGroupBy`, because its value is not defined in the files modelled here.
- CmdDiff.ApplySorting: `diff.SortByName` is not defined in the files modelled here, so the "name" selector leaves the order as it is.
- CmdDiff.RunDiff and CmdDiff.RunDiffFixed: under `--sort name`, the contract does not say which items survive `--top`, since the name order itself is not modelled. Under the other sort keys, it says the largest are kept.
- Table layout (tablewriter), JSON encoding and CSV quoting are left out, because they are foreign libraries. The model stops at the values, records and coloured pieces handed to them.
- The printed text of each bar-chart line (the dimmed "Jan 2" date and currency around the bar, internal/output/table.go:238-241) and the table renderers' name widths (35 and 40 runes) are not modelled. The chart model stops at each line's date, bar and cost, and `Truncate` takes the width as a parameter.
- Colour is a tag on the text, not ANSI escape codes. Terminal and `NO_COLOR` detection is the parameter `noColor`.
- The `Header`, `Subheader`, `Muted`, `Success`, `Warning` and `Error` helpers are one-line `Sprint` calls, modelled only through `Sprint`.
- Only the format switch of the `output*Result` dispatchers is modelled (`CmdRoot.SelectRenderer`), not the writing to standard output.
- IEEE-754 doubles are not modelled; costs are exact reals.
  - Sums do not round.
  - `%.2f` rounds the exact value half to even.
  - Go prints the shortest binary approximation, so a value such as 0.005 may print differently there.
- CmdTop.RunTop, CmdTop.LimitStep, CmdDiff.RunDiff, CmdDiff.RunDiffFixed, CmdDiff.FilterAndLimit and CmdDiff.FilterAndLimitFixed require `topN >= 0`. For a negative `--top`, the source slices with a negative bound and panics.
- OutputTable.Truncate works on a sequence of runes. Go's conversion of invalid UTF-8 into U+FFFD is not modelled. It requires `maxLen >= 0`, because the source panics on a negative slice bound.
- Civil.ParseFormatISO and the JSON and CSV round trips are stated for years 0 to 9999. The "2006" layout reads back only four digits.
- Times of day and time zones are not modelled. Every date is a civil date at midnight UTC, and `now` is the current civil date.

## Findings

| source | as written | input that shows it | evidently intended | confidence | as-written member | corrected member |
|---|---|---|---|---|---|---|
| cmd/diff.go:178-194 | `filterByThreshold` builds a new result without copying `TotalDiff` and `TotalPct`, so both become 0 | any comparison whose totals differ, filtered with a positive threshold | the total change and its percentage survive the filter | high; not executed | CmdDiff.FilterByThreshold, CmdDiff.ThresholdZeroesTotals, CmdDiff.RunDiff | CmdDiff.FilterByThresholdFixed, CmdDiff.ThresholdKeepsTotals, CmdDiff.RunDiffFixed |
| cmd/diff.go:99-105,130-133 | the previous month is computed as `now.AddDate(0, -1, 0)`, which normalises past a short month | `now` = 31 March 2025: both defaults start on 1 March and `parsePeriods` rejects its own defaults | the previous and current calendar months on every date | high; not executed | CmdDiff.ParsePeriods, CmdDiff.DefaultPeriodsMarch31, CmdDiff.DefaultPeriodsAccepted | CmdDiff.ParsePeriodsFixed, CmdDiff.DefaultPeriodsFixed |
| cmd/top.go:93-99 (also cmd/diff.go:114-120) | the end of the current month is taken from `now.AddDate(0, 1, 0)` | `now` = 31 January 2025: the period runs from 1 January to 1 March | the calendar month holding `now` | high; not executed | CmdTop.ParseTopPeriod, CmdTop.TopPeriodDefault, CmdDiff.DefaultToPeriodJanuary31 | CmdTop.ParseTopPeriodFixed, CmdTop.TopPeriodDefaultFixed |
| internal/output/table.go:222-227 | the bar width of a negative-cost day is negative, and `strings.Repeat` panics on it | a day with cost −10 in a chart whose peak is 10 gives width −40 | a credit draws an empty bar | high; not executed | OutputTable.BarWidth, OutputTable.NegativeCostPanics, OutputTable.BarWidthNegative | OutputTable.BarWidthClamped, OutputTable.BarWidthClampedBounds, OutputTable.RenderBarChart |
