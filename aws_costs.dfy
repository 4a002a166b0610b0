/** Folding a Cost Explorer response into costs (internal/aws/costs.go), with
    the response as plain data and the SDK call itself left out. */
module AwsCosts {
  import opened Wrappers
  import opened Sums
  import opened Civil

  /** How to group costs: a kind ("DIMENSION" or "TAG") and a key. */
  datatype GroupType = GroupType(kind: string, key: string)

  const GroupByService := GroupType("DIMENSION", "SERVICE")
  const GroupByRegion := GroupType("DIMENSION", "REGION")
  const GroupByAccount := GroupType("DIMENSION", "LINKED_ACCOUNT")

  datatype DefinitionType = Dimension | Tag
  datatype GroupDefinition = GroupDefinition(definitionType: DefinitionType, key: string)

  /** A metric value; its amount text may be missing. */
  datatype MetricValue = MetricValue(amount: Option<string>)

  /** One group of one time slot: its keys and its metrics by name. */
  datatype Group = Group(keys: seq<string>, metrics: map<string, MetricValue>)

  /** One time slot of the response: its start text, its groups and its totals. */
  datatype ResultByTime = ResultByTime(start: string, groups: seq<Group>, total: map<string, MetricValue>)

  datatype DailyCost = DailyCost(date: Day, cost: real)

  /** The parser of decimal amount text, `strconv.ParseFloat`, outside this model. */
  type FloatParser = string -> Option<real>

  /** The request's single group definition: a tag for kind "TAG", a
      dimension for any other kind, with the key passed through. */
  function BuildGroupDefinition(g: GroupType): (r: seq<GroupDefinition>)
    ensures |r| == 1 && r[0].key == g.key
    ensures r[0].definitionType == Tag <==> g.kind == "TAG"
  {
    [GroupDefinition(if g.kind == "TAG" then Tag else Dimension, g.key)]
  }

  /** A group's readable name: "Unknown" without keys, "Other" for an empty
      first key, else the first key. */
  function GroupName(keys: seq<string>): (name: string)
    ensures |keys| == 0 ==> name == "Unknown"
    ensures |keys| > 0 && keys[0] == "" ==> name == "Other"
    ensures |keys| > 0 && keys[0] != "" ==> name == keys[0]
    ensures name != ""
  {
    if |keys| == 0 then "Unknown"
    else if keys[0] == "" then "Other"
    else keys[0]
  }

  /** A metric that the map lacks reads as the zero value, whose amount is missing. */
  function MetricOf(metrics: map<string, MetricValue>, metric: string): MetricValue
  {
    if metric in metrics then metrics[metric] else MetricValue(None)
  }

  /** The amount of a metric: 0 when missing or not a number, else the parsed number. */
  function ParseAmount(v: MetricValue, parseFloat: FloatParser): (r: real)
    ensures v.amount.None? ==> r == 0.0
    ensures v.amount.Some? && parseFloat(v.amount.value).None? ==> r == 0.0
    ensures v.amount.Some? && parseFloat(v.amount.value).Some? ==> r == parseFloat(v.amount.value).value
  {
    match v.amount
    case None => 0.0
    case Some(text) =>
      match parseFloat(text)
      case None => 0.0
      case Some(x) => x
  }

  function GroupAmount(g: Group, metric: string, parseFloat: FloatParser): real
  {
    ParseAmount(MetricOf(g.metrics, metric), parseFloat)
  }

  /** `costs[name] += amount` for one group. */
  function AddGroup(costs: map<string, real>, g: Group, metric: string, parseFloat: FloatParser): map<string, real>
  {
    var name := GroupName(g.keys);
    costs[name := Lookup(costs, name) + GroupAmount(g, metric, parseFloat)]
  }

  /** `costs[name] += amount` over the first `n` groups, in order, starting from `costs`. */
  function AddGroups(costs: map<string, real>, groups: seq<Group>, n: nat, metric: string, parseFloat: FloatParser): map<string, real>
    requires n <= |groups|
  {
    if n == 0 then costs
    else AddGroup(AddGroups(costs, groups, n - 1, metric, parseFloat), groups[n - 1], metric, parseFloat)
  }

  /** The sum of the amounts of the first `n` groups that are named `name`. */
  function NameSum(groups: seq<Group>, n: nat, name: string, metric: string, parseFloat: FloatParser): real
    requires n <= |groups|
  {
    if n == 0 then 0.0
    else NameSum(groups, n - 1, name, metric, parseFloat)
           + (if GroupName(groups[n - 1].keys) == name then GroupAmount(groups[n - 1], metric, parseFloat) else 0.0)
  }

  /** The sum of the amounts of the first `n` groups. */
  function AmountSum(groups: seq<Group>, n: nat, metric: string, parseFloat: FloatParser): real
    requires n <= |groups|
  {
    if n == 0 then 0.0
    else AmountSum(groups, n - 1, metric, parseFloat) + GroupAmount(groups[n - 1], metric, parseFloat)
  }

  /** One of the first `n` groups is named `name`. */
  predicate Named(groups: seq<Group>, n: nat, name: string)
    requires n <= |groups|
  {
    exists k :: 0 <= k < n && GroupName(groups[k].keys) == name
  }

  /** Folding groups adds a key for exactly the names that occur... */
  lemma {:induction false} AddGroupsKeys(costs: map<string, real>, groups: seq<Group>, n: nat, metric: string, parseFloat: FloatParser)
    requires n <= |groups|
    ensures forall name :: name in AddGroups(costs, groups, n, metric, parseFloat) <==> name in costs || Named(groups, n, name)
  {
    if n > 0 {
      AddGroupsKeys(costs, groups, n - 1, metric, parseFloat);
      forall other
        ensures other in AddGroups(costs, groups, n, metric, parseFloat) <==> other in costs || Named(groups, n, other)
      {
        if Named(groups, n, other) && !Named(groups, n - 1, other) {
          var k :| 0 <= k < n && GroupName(groups[k].keys) == other;
          assert k == n - 1;
        }
      }
    }
  }

  /** ...adds to each name the amounts of the groups with that name... */
  lemma {:induction false} AddGroupsValues(costs: map<string, real>, groups: seq<Group>, n: nat, metric: string, parseFloat: FloatParser)
    requires n <= |groups|
    ensures forall name :: Lookup(AddGroups(costs, groups, n, metric, parseFloat), name)
                           == Lookup(costs, name) + NameSum(groups, n, name, metric, parseFloat)
  {
    if n > 0 {
      AddGroupsValues(costs, groups, n - 1, metric, parseFloat);
    }
  }

  /** ...and so adds to the sum over names the sum of all amounts. */
  lemma {:induction false} AddGroupsConserves(costs: map<string, real>, groups: seq<Group>, n: nat, metric: string, parseFloat: FloatParser)
    requires n <= |groups|
    ensures MapSum(AddGroups(costs, groups, n, metric, parseFloat)) == MapSum(costs) + AmountSum(groups, n, metric, parseFloat)
  {
    if n > 0 {
      AddGroupsConserves(costs, groups, n - 1, metric, parseFloat);
      var acc := AddGroups(costs, groups, n - 1, metric, parseFloat);
      var g := groups[n - 1];
      AddGroupSum(acc, g, metric, parseFloat);
      AddGroupsUnfold(costs, groups, n, metric, parseFloat);
      var s1 := MapSum(AddGroups(costs, groups, n, metric, parseFloat));
      assert s1 == MapSum(AddGroup(acc, g, metric, parseFloat));
      assert s1 == MapSum(acc) + GroupAmount(g, metric, parseFloat);
      assert AmountSum(groups, n, metric, parseFloat) == AmountSum(groups, n - 1, metric, parseFloat) + GroupAmount(g, metric, parseFloat);
    } else {
      assert AddGroups(costs, groups, n, metric, parseFloat) == costs;
      assert AmountSum(groups, n, metric, parseFloat) == 0.0;
    }
  }

  lemma AddGroupSum(costs: map<string, real>, g: Group, metric: string, parseFloat: FloatParser)
    ensures MapSum(AddGroup(costs, g, metric, parseFloat)) == MapSum(costs) + GroupAmount(g, metric, parseFloat)
  {
    MapSumAdd(costs, GroupName(g.keys), GroupAmount(g, metric, parseFloat));
  }

  lemma AddGroupsUnfold(costs: map<string, real>, groups: seq<Group>, n: nat, metric: string, parseFloat: FloatParser)
    requires 0 < n <= |groups|
    ensures AddGroups(costs, groups, n, metric, parseFloat)
         == AddGroup(AddGroups(costs, groups, n - 1, metric, parseFloat), groups[n - 1], metric, parseFloat)
  {
  }

  /** The costs map after the first `i` time slots. */
  function CostsUpTo(results: seq<ResultByTime>, i: nat, metric: string, parseFloat: FloatParser): map<string, real>
    requires i <= |results|
  {
    if i == 0 then map[]
    else AddGroups(CostsUpTo(results, i - 1, metric, parseFloat), results[i - 1].groups, |results[i - 1].groups|, metric, parseFloat)
  }

  /** The costs map the whole response folds into. */
  function Costs(results: seq<ResultByTime>, metric: string, parseFloat: FloatParser): map<string, real>
  {
    CostsUpTo(results, |results|, metric, parseFloat)
  }

  /** The amounts of the groups named `name` in the first `i` time slots. */
  function NameTotal(results: seq<ResultByTime>, i: nat, name: string, metric: string, parseFloat: FloatParser): real
    requires i <= |results|
  {
    if i == 0 then 0.0
    else NameTotal(results, i - 1, name, metric, parseFloat)
           + NameSum(results[i - 1].groups, |results[i - 1].groups|, name, metric, parseFloat)
  }

  /** The amounts of all groups in the first `i` time slots. */
  function AmountTotal(results: seq<ResultByTime>, i: nat, metric: string, parseFloat: FloatParser): real
    requires i <= |results|
  {
    if i == 0 then 0.0
    else AmountTotal(results, i - 1, metric, parseFloat)
           + AmountSum(results[i - 1].groups, |results[i - 1].groups|, metric, parseFloat)
  }

  /** Some group of the first `i` time slots is named `name`. */
  predicate NamedIn(results: seq<ResultByTime>, i: nat, name: string)
    requires i <= |results|
  {
    exists k :: 0 <= k < i && Named(results[k].groups, |results[k].groups|, name)
  }

  /** What `GetCosts` returns has a key for exactly the names that occur in
      some slot... */
  lemma {:induction false} CostsKeys(results: seq<ResultByTime>, i: nat, metric: string, parseFloat: FloatParser)
    requires i <= |results|
    ensures forall name :: name in CostsUpTo(results, i, metric, parseFloat) <==> NamedIn(results, i, name)
  {
    if i > 0 {
      CostsKeys(results, i - 1, metric, parseFloat);
      var gs := results[i - 1].groups;
      AddGroupsKeys(CostsUpTo(results, i - 1, metric, parseFloat), gs, |gs|, metric, parseFloat);
      forall name
        ensures name in CostsUpTo(results, i, metric, parseFloat) <==> NamedIn(results, i, name)
      {
        if NamedIn(results, i, name) && !NamedIn(results, i - 1, name) {
          var k :| 0 <= k < i && Named(results[k].groups, |results[k].groups|, name);
          assert k == i - 1;
        }
      }
    }
  }

  /** ...each holding the sum over every group with that name in every slot... */
  lemma {:induction false} CostsValues(results: seq<ResultByTime>, i: nat, metric: string, parseFloat: FloatParser)
    requires i <= |results|
    ensures forall name :: Lookup(CostsUpTo(results, i, metric, parseFloat), name) == NameTotal(results, i, name, metric, parseFloat)
  {
    if i > 0 {
      CostsValues(results, i - 1, metric, parseFloat);
      var gs := results[i - 1].groups;
      AddGroupsValues(CostsUpTo(results, i - 1, metric, parseFloat), gs, |gs|, metric, parseFloat);
    }
  }

  /** ...and over all names the costs add up to the sum of all amounts. */
  lemma {:induction false} CostsConserve(results: seq<ResultByTime>, i: nat, metric: string, parseFloat: FloatParser)
    requires i <= |results|
    ensures MapSum(CostsUpTo(results, i, metric, parseFloat)) == AmountTotal(results, i, metric, parseFloat)
  {
    if i == 0 {
      var empty: map<string, real> := map[];
      assert MapSum(empty) == 0.0;
    } else {
      CostsConserve(results, i - 1, metric, parseFloat);
      var gs := results[i - 1].groups;
      AddGroupsConserves(CostsUpTo(results, i - 1, metric, parseFloat), gs, |gs|, metric, parseFloat);
    }
  }

  /** `GetCosts` once the response is in: `costs[name] += amount` over every
      group of every time slot. */
  method GetCosts(results: seq<ResultByTime>, metric: string, parseFloat: FloatParser)
    returns (costs: map<string, real>)
    ensures costs == Costs(results, metric, parseFloat)
  {
    costs := map[];
    for i := 0 to |results|
      invariant costs == CostsUpTo(results, i, metric, parseFloat)
    {
      ghost var before := costs;
      var groups := results[i].groups;
      for j := 0 to |groups|
        invariant costs == AddGroups(before, groups, j, metric, parseFloat)
      {
        var g := groups[j];
        var name := GroupName(g.keys);
        var amount := ParseAmount(MetricOf(g.metrics, metric), parseFloat);
        AddGroupsUnfold(before, groups, j + 1, metric, parseFloat);
        costs := costs[name := Lookup(costs, name) + amount];
      }
      assert CostsUpTo(results, i + 1, metric, parseFloat) == AddGroups(before, groups, |groups|, metric, parseFloat);
    }
  }

  /** A time slot's cost: the sum of its group amounts when it has groups,
      else its total. */
  function SlotCost(r: ResultByTime, metric: string, parseFloat: FloatParser): real
  {
    if |r.groups| > 0 then AmountSum(r.groups, |r.groups|, metric, parseFloat)
    else ParseAmount(MetricOf(r.total, metric), parseFloat)
  }

  /** The entry a slot yields: its date and cost when its start parses, else none. */
  function SlotEntry(r: ResultByTime, metric: string, parseFloat: FloatParser): seq<DailyCost>
  {
    match ParseISO(r.start)
    case Some(d) => [DailyCost(d, SlotCost(r, metric, parseFloat))]
    case None => []
  }

  /** One entry per slot among the first `i` whose start parses, in response order. */
  function Daily(results: seq<ResultByTime>, i: nat, metric: string, parseFloat: FloatParser): seq<DailyCost>
    requires i <= |results|
  {
    if i == 0 then []
    else Daily(results, i - 1, metric, parseFloat) + SlotEntry(results[i - 1], metric, parseFloat)
  }

  /** `GetDailyCosts` once the response is in: slots with an unparseable
      start are skipped, the others give their date and cost in order. */
  method GetDailyCosts(results: seq<ResultByTime>, metric: string, parseFloat: FloatParser)
    returns (daily: seq<DailyCost>)
    ensures daily == Daily(results, |results|, metric, parseFloat)
  {
    daily := [];
    for i := 0 to |results|
      invariant daily == Daily(results, i, metric, parseFloat)
    {
      var r := results[i];
      var date := ParseISO(r.start);
      if date.None? {
        continue;
      }
      var totalCost := 0.0;
      if |r.groups| > 0 {
        for j := 0 to |r.groups|
          invariant totalCost == AmountSum(r.groups, j, metric, parseFloat)
        {
          totalCost := totalCost + ParseAmount(MetricOf(r.groups[j].metrics, metric), parseFloat);
        }
      } else {
        totalCost := ParseAmount(MetricOf(r.total, metric), parseFloat);
      }
      daily := daily + [DailyCost(date.value, totalCost)];
    }
  }

  /** The daily series keeps response order: the series of the first `i`
      slots is a prefix of the series of the first `j`. */
  lemma {:induction false} DailyPrefix(results: seq<ResultByTime>, i: nat, j: nat, metric: string, parseFloat: FloatParser)
    requires i <= j <= |results|
    ensures Daily(results, i, metric, parseFloat) <= Daily(results, j, metric, parseFloat)
    decreases j
  {
    if i < j {
      DailyPrefix(results, i, j - 1, metric, parseFloat);
      var a, b := Daily(results, i, metric, parseFloat), Daily(results, j - 1, metric, parseFloat);
      PrefixSnoc(a, b, SlotEntry(results[j - 1], metric, parseFloat));
    }
  }

  lemma PrefixSnoc(a: seq<DailyCost>, b: seq<DailyCost>, c: seq<DailyCost>)
    requires a <= b
    ensures a <= b + c
  {
    assert (b + c)[..|a|] == b[..|a|];
  }

  /** A slot yields a day exactly when its start parses, so there is at most
      one day per slot, and one per slot when every start parses. */
  lemma {:induction false} DailyLength(results: seq<ResultByTime>, i: nat, metric: string, parseFloat: FloatParser)
    requires i <= |results|
    ensures |Daily(results, i, metric, parseFloat)| <= i
    ensures (forall k :: 0 <= k < i ==> ParseISO(results[k].start).Some?)
            ==> |Daily(results, i, metric, parseFloat)| == i
  {
    if i > 0 {
      DailyLength(results, i - 1, metric, parseFloat);
    }
  }

  /** The sum of the totals of the first `i` slots. */
  function TotalSum(results: seq<ResultByTime>, i: nat, metric: string, parseFloat: FloatParser): real
    requires i <= |results|
  {
    if i == 0 then 0.0
    else TotalSum(results, i - 1, metric, parseFloat) + ParseAmount(MetricOf(results[i - 1].total, metric), parseFloat)
  }

  /** `GetTotalCost` once the response is in: the sum of every slot's total. */
  method GetTotalCost(results: seq<ResultByTime>, metric: string, parseFloat: FloatParser) returns (total: real)
    ensures total == TotalSum(results, |results|, metric, parseFloat)
  {
    total := 0.0;
    for i := 0 to |results|
      invariant total == TotalSum(results, i, metric, parseFloat)
    {
      total := total + ParseAmount(MetricOf(results[i].total, metric), parseFloat);
    }
  }

  function DailySum(daily: seq<DailyCost>): real
  {
    if daily == [] then 0.0 else DailySum(daily[..|daily| - 1]) + daily[|daily| - 1].cost
  }

  lemma DailySumSnoc(d: seq<DailyCost>, x: DailyCost)
    ensures DailySum(d + [x]) == DailySum(d) + x.cost
  {
    assert (d + [x])[..|d|] == d;
  }

  /** When no slot is grouped and every start parses, the daily series adds
      up to the total cost of the period. */
  lemma {:induction false} DailyAddsUpToTotal(results: seq<ResultByTime>, i: nat, metric: string, parseFloat: FloatParser)
    requires i <= |results|
    requires forall k :: 0 <= k < i ==> ParseISO(results[k].start).Some? && results[k].groups == []
    ensures DailySum(Daily(results, i, metric, parseFloat)) == TotalSum(results, i, metric, parseFloat)
  {
    if i > 0 {
      DailyAddsUpToTotal(results, i - 1, metric, parseFloat);
      var r := results[i - 1];
      var x := DailyCost(ParseISO(r.start).value, SlotCost(r, metric, parseFloat));
      assert SlotEntry(r, metric, parseFloat) == [x];
      DailySumSnoc(Daily(results, i - 1, metric, parseFloat), x);
    }
  }
}
