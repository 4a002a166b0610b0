/** The comparator, its sorters and its filters (internal/diff/compare.go). */
module DiffCompare {
  import Wrappers
  import opened Sums
  import opened DiffTypes

  function Abs(x: real): (r: real)
    ensures r >= 0.0 && (r == x || r == -x)
  {
    if x < 0.0 then -x else x
  }

  /** `part` as a percentage of `whole`, as the source computes it. */
  function PercentOf(part: real, whole: real): real
    requires whole != 0.0
  {
    part / whole * 100.0
  }

  /** The item for one group: Diff is the change; a group that appears is
      new (+100%), one that disappears is removed (-100%); otherwise the
      percentage is relative to the earlier cost, or 0 when that is not
      positive. */
  function BuildItem(name: string, fromCost: real, toCost: real): (it: Item)
    ensures it.name == name && it.fromCost == fromCost && it.toCost == toCost
    ensures it.diff == toCost - fromCost
    ensures it.isNew <==> fromCost == 0.0 && toCost > 0.0
    ensures it.isRemoved <==> fromCost > 0.0 && toCost == 0.0
    ensures !(it.isNew && it.isRemoved)
    ensures it.isNew ==> it.diffPct == 100.0
    ensures it.isRemoved ==> it.diffPct == -100.0
    ensures fromCost > 0.0 ==> it.diffPct == PercentOf(it.diff, fromCost)
    ensures fromCost <= 0.0 && !it.isNew ==> it.diffPct == 0.0
  {
    var base := Item(name, fromCost, toCost, toCost - fromCost, 0.0, false, false);
    if fromCost == 0.0 && toCost > 0.0 then base.(isNew := true, diffPct := 100.0)
    else if fromCost > 0.0 && toCost == 0.0 then
      assert PercentOf(-fromCost, fromCost) == -100.0;
      base.(isRemoved := true, diffPct := -100.0)
    else if fromCost > 0.0 then base.(diffPct := PercentOf(toCost - fromCost, fromCost))
    else base
  }

  /** The item Compare builds for `name`; a name missing from a map costs 0 there. */
  function ItemFor(name: string, fromCosts: map<string, real>, toCosts: map<string, real>): Item
  {
    BuildItem(name, Wrappers.Lookup(fromCosts, name), Wrappers.Lookup(toCosts, name))
  }

  /** The items for the names in `names`, one each. */
  ghost function ItemsOver(names: set<string>, fromCosts: map<string, real>, toCosts: map<string, real>): set<Item>
  {
    set n | n in names :: ItemFor(n, fromCosts, toCosts)
  }

  /** The items Compare must produce: one per name in either map. */
  ghost function ExpectedItems(fromCosts: map<string, real>, toCosts: map<string, real>): multiset<Item>
  {
    multiset(ItemsOver(fromCosts.Keys + toCosts.Keys, fromCosts, toCosts))
  }

  lemma ItemsOverStep(names: set<string>, n: string, fromCosts: map<string, real>, toCosts: map<string, real>)
    requires n !in names
    ensures multiset(ItemsOver(names + {n}, fromCosts, toCosts))
         == multiset(ItemsOver(names, fromCosts, toCosts)) + multiset{ItemFor(n, fromCosts, toCosts)}
  {
    var it := ItemFor(n, fromCosts, toCosts);
    var before := ItemsOver(names, fromCosts, toCosts);
    assert ItemsOver(names + {n}, fromCosts, toCosts) == before + {it};
    assert it !in before;
  }

  function AbsDiff(it: Item): real { Abs(it.diff) }

  function AbsDiffPct(it: Item): real { Abs(it.diffPct) }

  function ToCost(it: Item): real { it.toCost }

  /** `key` does not increase along `s`. */
  ghost predicate SortedDesc<T>(s: seq<T>, key: T -> real) {
    forall i, j :: 0 <= i < j < |s| ==> key(s[i]) >= key(s[j])
  }

  /** The position of a largest key in a[from..]. */
  method MaxFrom<T>(a: array<T>, from: int, key: T -> real) returns (m: int)
    requires 0 <= from < a.Length
    ensures from <= m < a.Length
    ensures forall q :: from <= q < a.Length ==> key(a[m]) >= key(a[q])
  {
    m := from;
    for j := from + 1 to a.Length
      invariant from <= m < a.Length
      invariant forall q :: from <= q < j ==> key(a[m]) >= key(a[q])
    {
      if key(a[j]) > key(a[m]) {
        m := j;
      }
    }
  }

  /** s[..n] is sorted by `key` and no later element has a larger key than one in it. */
  ghost predicate SortedPrefix<T>(s: seq<T>, n: int, key: T -> real)
    requires 0 <= n <= |s|
  {
    && (forall p, q :: 0 <= p < q < n ==> key(s[p]) >= key(s[q]))
    && (forall p, q :: 0 <= p < n <= q < |s| ==> key(s[p]) >= key(s[q]))
  }

  /** Swapping a largest remaining element into position i extends the sorted prefix. */
  lemma SelectStep<T>(s: seq<T>, i: int, m: int, key: T -> real)
    requires 0 <= i <= m < |s| && SortedPrefix(s, i, key)
    requires forall q :: i <= q < |s| ==> key(s[m]) >= key(s[q])
    ensures SortedPrefix(s[i := s[m]][m := s[i]], i + 1, key)
  {
  }

  lemma SwapPermutes<T>(s: seq<T>, i: int, j: int)
    requires 0 <= i < |s| && 0 <= j < |s|
    ensures multiset(s[i := s[j]][j := s[i]]) == multiset(s)
  {
  }

  /** Reorders `a` in place so that `key` does not increase; one of the
      orders Go's unstable `sort.Slice` may produce with the comparison
      `key(a[i]) > key(a[j])`. */
  method SortDescending<T>(a: array<T>, key: T -> real)
    modifies a
    ensures SortedDesc(a[..], key)
    ensures multiset(a[..]) == old(multiset(a[..]))
  {
    var i := 0;
    while i < a.Length
      invariant 0 <= i <= a.Length
      invariant SortedPrefix(a[..], i, key)
      invariant multiset(a[..]) == old(multiset(a[..]))
    {
      var m := MaxFrom(a, i, key);
      ghost var s := a[..];
      SelectStep(s, i, m, key);
      SwapPermutes(s, i, m);
      a[i], a[m] := a[m], a[i];
      assert a[..] == s[i := s[m]][m := s[i]];
      i := i + 1;
    }
  }

  /** `SortByToCost`: current-period cost, largest first. */
  method SortByToCost(a: array<Item>)
    modifies a
    ensures SortedDesc(a[..], ToCost)
    ensures multiset(a[..]) == old(multiset(a[..]))
  {
    SortDescending(a, ToCost);
  }

  /** `SortByDiff`: absolute change, largest first. */
  method SortByDiff(a: array<Item>)
    modifies a
    ensures SortedDesc(a[..], AbsDiff)
    ensures multiset(a[..]) == old(multiset(a[..]))
  {
    SortDescending(a, AbsDiff);
  }

  /** `SortByDiffPercent`: absolute percentage change, largest first. */
  method SortByDiffPercent(a: array<Item>)
    modifies a
    ensures SortedDesc(a[..], AbsDiffPct)
    ensures multiset(a[..]) == old(multiset(a[..]))
  {
    SortDescending(a, AbsDiffPct);
  }

  /** Copies `items` into a fresh array, sorts it by |Diff| and returns its contents. */
  method SortedByAbsDiff(items: seq<Item>) returns (r: seq<Item>)
    ensures SortedDesc(r, AbsDiff)
    ensures multiset(r) == multiset(items)
  {
    var a := new Item[|items|](i requires 0 <= i < |items| => items[i]);
    assert a[..] == items;
    SortByDiff(a);
    r := a[..];
  }

  /** What `BuildItems` holds once the names in `done` are handled: one item
      per such name and the partial sums of both periods over them. */
  ghost predicate BuiltOver(done: set<string>, items: seq<Item>, fromTotal: real, toTotal: real,
                            fromCosts: map<string, real>, toCosts: map<string, real>)
  {
    && multiset(items) == multiset(ItemsOver(done, fromCosts, toCosts))
    && fromTotal == MapSum(Restrict(fromCosts, done))
    && toTotal == MapSum(Restrict(toCosts, done))
  }

  lemma BuildStep(done: set<string>, items: seq<Item>, fromTotal: real, toTotal: real, n: string,
                  fromCosts: map<string, real>, toCosts: map<string, real>)
    requires n !in done && BuiltOver(done, items, fromTotal, toTotal, fromCosts, toCosts)
    ensures BuiltOver(done + {n}, items + [ItemFor(n, fromCosts, toCosts)],
                      fromTotal + Wrappers.Lookup(fromCosts, n), toTotal + Wrappers.Lookup(toCosts, n),
                      fromCosts, toCosts)
  {
    ItemsOverStep(done, n, fromCosts, toCosts);
    RestrictStep(fromCosts, done, n);
    RestrictStep(toCosts, done, n);
  }

  lemma BuiltAll(items: seq<Item>, fromTotal: real, toTotal: real,
                 fromCosts: map<string, real>, toCosts: map<string, real>)
    requires BuiltOver(fromCosts.Keys + toCosts.Keys, items, fromTotal, toTotal, fromCosts, toCosts)
    ensures multiset(items) == ExpectedItems(fromCosts, toCosts)
    ensures fromTotal == MapSum(fromCosts) && toTotal == MapSum(toCosts)
  {
    RestrictAll(fromCosts, fromCosts.Keys + toCosts.Keys);
    RestrictAll(toCosts, fromCosts.Keys + toCosts.Keys);
  }

  /** Builds one item per name in either map, in whatever order the names
      come, and sums both periods' costs as it goes. */
  method BuildItems(fromCosts: map<string, real>, toCosts: map<string, real>)
    returns (items: seq<Item>, fromTotal: real, toTotal: real)
    ensures multiset(items) == ExpectedItems(fromCosts, toCosts)
    ensures fromTotal == MapSum(fromCosts) && toTotal == MapSum(toCosts)
  {
    var names := fromCosts.Keys + toCosts.Keys;
    var remaining := names;
    items, fromTotal, toTotal := [], 0.0, 0.0;
    while remaining != {}
      invariant remaining <= names
      invariant BuiltOver(names - remaining, items, fromTotal, toTotal, fromCosts, toCosts)
      decreases remaining
    {
      var name :| name in remaining;
      BuildStep(names - remaining, items, fromTotal, toTotal, name, fromCosts, toCosts);
      assert (names - remaining) + {name} == names - (remaining - {name});
      items := items + [ItemFor(name, fromCosts, toCosts)];
      fromTotal := fromTotal + Wrappers.Lookup(fromCosts, name);
      toTotal := toTotal + Wrappers.Lookup(toCosts, name);
      remaining := remaining - {name};
    }
    assert names - remaining == names;
    BuiltAll(items, fromTotal, toTotal, fromCosts, toCosts);
  }

  /** `Compare`: both periods copied, one item per name (see `ItemsCharacterised`),
      totals that are the sums of the two maps whatever the iteration order,
      and items ordered by |Diff|, largest first. */
  method Compare(fromCosts: map<string, real>, toCosts: map<string, real>, fromPeriod: Period, toPeriod: Period)
    returns (r: Result)
    ensures r.fromPeriod == fromPeriod && r.toPeriod == toPeriod
    ensures multiset(r.items) == ExpectedItems(fromCosts, toCosts)
    ensures SortedDesc(r.items, AbsDiff)
    ensures r.fromTotal == MapSum(fromCosts) && r.toTotal == MapSum(toCosts)
    ensures r.totalDiff == r.toTotal - r.fromTotal
    ensures r.totalPct == if r.fromTotal > 0.0 then PercentOf(r.totalDiff, r.fromTotal) else 0.0
  {
    var items, fromTotal, toTotal := BuildItems(fromCosts, toCosts);
    var totalPct := 0.0;
    if fromTotal > 0.0 {
      totalPct := PercentOf(toTotal - fromTotal, fromTotal);
    }
    items := SortedByAbsDiff(items);
    r := Result(fromPeriod, toPeriod, fromTotal, toTotal, toTotal - fromTotal, totalPct, items);
  }

  /** `CompareSimple`: the items of `Compare` without the periods and totals. */
  method CompareSimple(fromCosts: map<string, real>, toCosts: map<string, real>) returns (items: seq<Item>)
    ensures multiset(items) == ExpectedItems(fromCosts, toCosts)
    ensures SortedDesc(items, AbsDiff)
  {
    var built, _, _ := BuildItems(fromCosts, toCosts);
    items := SortedByAbsDiff(built);
  }

  /** What the multiset of `Compare`'s items means: every name of either map
      has exactly one item, built from its two costs (0 where absent), and
      there is no other item. */
  lemma ItemsCharacterised(items: seq<Item>, fromCosts: map<string, real>, toCosts: map<string, real>)
    requires multiset(items) == ExpectedItems(fromCosts, toCosts)
    ensures forall i :: 0 <= i < |items| ==> items[i] == ItemFor(items[i].name, fromCosts, toCosts)
    ensures forall i :: 0 <= i < |items| ==> items[i].name in fromCosts || items[i].name in toCosts
    ensures forall n :: n in fromCosts || n in toCosts ==> exists i :: 0 <= i < |items| && items[i].name == n
    ensures forall i, j :: 0 <= i < j < |items| ==> items[i].name != items[j].name
    ensures |items| == |fromCosts.Keys + toCosts.Keys|
  {
    var names := fromCosts.Keys + toCosts.Keys;
    var s := ItemsOver(names, fromCosts, toCosts);
    forall i | 0 <= i < |items|
      ensures items[i] == ItemFor(items[i].name, fromCosts, toCosts) && items[i].name in names
    {
      assert items[i] in multiset(items);
    }
    forall n | n in names
      ensures exists i :: 0 <= i < |items| && items[i].name == n
    {
      assert ItemFor(n, fromCosts, toCosts) in multiset(items);
    }
    forall i, j | 0 <= i < j < |items|
      ensures items[i].name != items[j].name
    {
      if items[i].name == items[j].name {
        assert items[i] == items[j];
        assert multiset(items)[items[i]] >= 2 by {
          MultiplicityOfTwo(items, i, j);
        }
      }
    }
    ItemsOverSize(names, fromCosts, toCosts);
    assert |multiset(items)| == |items|;
  }

  lemma {:induction false} MultiplicityOfTwo<T>(s: seq<T>, i: int, j: int)
    requires 0 <= i < j < |s| && s[i] == s[j]
    ensures multiset(s)[s[i]] >= 2
  {
    assert s == s[..i] + [s[i]] + s[i + 1..j] + [s[j]] + s[j + 1..];
  }

  /** Distinct names give distinct items. */
  lemma ItemsOverSize(names: set<string>, fromCosts: map<string, real>, toCosts: map<string, real>)
    ensures |ItemsOver(names, fromCosts, toCosts)| == |names|
    decreases |names|
  {
    if names != {} {
      var n :| n in names;
      ItemsOverSize(names - {n}, fromCosts, toCosts);
      var rest := ItemsOver(names - {n}, fromCosts, toCosts);
      assert ItemsOver(names, fromCosts, toCosts) == rest + {ItemFor(n, fromCosts, toCosts)};
      assert ItemFor(n, fromCosts, toCosts) !in rest;
    } else {
      assert ItemsOver(names, fromCosts, toCosts) == {};
    }
  }

  /** `CompareSimple` returns the same items as `Compare`, in an order with
      the same |Diff| sequence. */
  lemma CompareSimpleAgrees(simple: seq<Item>, full: Result, fromCosts: map<string, real>, toCosts: map<string, real>)
    requires multiset(simple) == ExpectedItems(fromCosts, toCosts) && SortedDesc(simple, AbsDiff)
    requires multiset(full.items) == ExpectedItems(fromCosts, toCosts) && SortedDesc(full.items, AbsDiff)
    ensures multiset(simple) == multiset(full.items)
    ensures |simple| == |full.items|
    ensures forall i :: 0 <= i < |simple| ==> AbsDiff(simple[i]) == AbsDiff(full.items[i])
  {
    assert |simple| == |multiset(simple)| == |multiset(full.items)| == |full.items|;
    SortedKeysEqual(simple, full.items, AbsDiff);
  }

  /** `s` without its element at `j`. */
  function RemoveAt<T>(s: seq<T>, j: int): (r: seq<T>)
    requires 0 <= j < |s|
    ensures |r| == |s| - 1
    ensures forall i :: 0 <= i < |r| ==> r[i] == if i < j then s[i] else s[i + 1]
    ensures multiset(r) == multiset(s) - multiset{s[j]}
  {
    assert s == s[..j] + [s[j]] + s[j + 1..];
    s[..j] + s[j + 1..]
  }

  /** Two orderings of one multiset that are both sorted by `key` have the
      same key at every position (ties may sit in either order). */
  lemma {:induction false} SortedKeysEqual<T>(a: seq<T>, b: seq<T>, key: T -> real)
    requires multiset(a) == multiset(b)
    requires SortedDesc(a, key) && SortedDesc(b, key)
    ensures |a| == |b|
    ensures forall i :: 0 <= i < |a| ==> key(a[i]) == key(b[i])
    decreases |a|
  {
    assert |a| == |multiset(a)| == |multiset(b)| == |b|;
    if |a| > 0 {
      var j := SameHead(a, b, key);
      var b' := RemoveAt(b, j);
      assert a == [a[0]] + a[1..];
      assert multiset(a[1..]) == multiset(b');
      SortedRemove(b, j, key);
      SortedKeysEqual(a[1..], b', key);
      ShiftKeys(a, b, j, key);
    }
  }

  /** The last step of `SortedKeysEqual`: keys agree at the head and, past it,
      with `b` less its element `j`, whose key is the head's. */
  lemma ShiftKeys<T>(a: seq<T>, b: seq<T>, j: int, key: T -> real)
    requires 0 <= j < |b| == |a| && SortedDesc(b, key)
    requires key(a[0]) == key(b[0]) == key(b[j])
    requires forall i :: 0 <= i < |a| - 1 ==> key(a[1..][i]) == key(RemoveAt(b, j)[i])
    ensures forall i :: 0 <= i < |a| ==> key(a[i]) == key(b[i])
  {
    forall i | 0 < i < |a|
      ensures key(a[i]) == key(b[i])
    {
      assert key(a[1..][i - 1]) == key(RemoveAt(b, j)[i - 1]);
      if i <= j {
        // b[i-1] and b[i] sit between b[0] and b[j], which both carry key(a[0]).
        assert key(b[0]) >= key(b[i - 1]) >= key(b[i]) >= key(b[j]);
      }
    }
  }

  /** The head of `a` occurs in `b` at some `j`, and carries the largest key,
      the same as `b`'s head. */
  lemma SameHead<T>(a: seq<T>, b: seq<T>, key: T -> real) returns (j: int)
    requires |a| > 0 && multiset(a) == multiset(b)
    requires SortedDesc(a, key) && SortedDesc(b, key)
    ensures 0 <= j < |b| && b[j] == a[0] && key(a[0]) == key(b[0])
  {
    assert a[0] in multiset(b);
    j :| 0 <= j < |b| && b[j] == a[0];
    assert b[0] in multiset(a);
    var k :| 0 <= k < |a| && a[k] == b[0];
  }

  lemma SortedRemove<T>(s: seq<T>, j: int, key: T -> real)
    requires 0 <= j < |s| && SortedDesc(s, key)
    ensures SortedDesc(RemoveAt(s, j), key)
  {
  }

  // Filters: each keeps the items that pass, in their original order.

  /** The elements of `s` that satisfy `keep`, in order. */
  function Kept<T>(s: seq<T>, keep: T -> bool): seq<T>
  {
    if s == [] then []
    else Kept(s[..|s| - 1], keep) + (if keep(s[|s| - 1]) then [s[|s| - 1]] else [])
  }

  /** An append loop over `s`, as each of the source's filters is written. */
  method KeepWhere<T>(s: seq<T>, keep: T -> bool) returns (r: seq<T>)
    ensures r == Kept(s, keep)
  {
    r := [];
    for i := 0 to |s|
      invariant r == Kept(s[..i], keep)
    {
      assert s[..i + 1][..i] == s[..i];
      if keep(s[i]) {
        r := r + [s[i]];
      }
    }
    assert s[..|s|] == s;
  }

  /** Keeping distributes over concatenation: the kept elements stay in their
      original relative order. */
  lemma {:induction false} KeptAppend<T>(a: seq<T>, b: seq<T>, keep: T -> bool)
    ensures Kept(a + b, keep) == Kept(a, keep) + Kept(b, keep)
    decreases |b|
  {
    if b == [] {
      assert a + b == a;
    } else {
      assert (a + b)[..|a + b| - 1] == a + b[..|b| - 1];
      KeptAppend(a, b[..|b| - 1], keep);
    }
  }

  /** Keeping preserves distinctness under any projection `f`: what differed
      in `s` still differs among the kept elements. */
  lemma {:induction false} KeptDistinct<T, U>(s: seq<T>, keep: T -> bool, f: T -> U)
    requires forall i, j :: 0 <= i < j < |s| ==> f(s[i]) != f(s[j])
    ensures forall i, j :: 0 <= i < j < |Kept(s, keep)| ==> f(Kept(s, keep)[i]) != f(Kept(s, keep)[j])
    decreases |s|
  {
    if s != [] {
      var init := s[..|s| - 1];
      var last := s[|s| - 1];
      KeptDistinct(init, keep, f);
      KeptFrom(init, keep);
      var k := Kept(init, keep);
      if keep(last) {
        forall i | 0 <= i < |k|
          ensures f(k[i]) != f(last)
        {
          assert k[i] in k;
          var j :| 0 <= j < |init| && init[j] == k[i];
          assert s[j] == k[i];
        }
        var r := k + [last];
        forall i, j | 0 <= i < j < |r|
          ensures f(r[i]) != f(r[j])
        {
          if j == |k| {
            assert r[i] == k[i] && r[j] == last;
          } else {
            assert r[i] == k[i] && r[j] == k[j];
          }
        }
      }
    }
  }

  /** Every kept element comes from `s`. */
  lemma {:induction false} KeptFrom<T>(s: seq<T>, keep: T -> bool)
    ensures forall x :: x in Kept(s, keep) ==> x in s
    decreases |s|
  {
    if s != [] {
      var init := s[..|s| - 1];
      KeptFrom(init, keep);
      assert s == init + [s[|s| - 1]];
    }
  }

  /** Keeping with two predicates in turn is keeping with their
      conjunction; `both` is any predicate that agrees with it. */
  lemma {:induction false} KeptTwice<T>(s: seq<T>, first: T -> bool, second: T -> bool, both: T -> bool)
    requires forall x :: both(x) <==> first(x) && second(x)
    ensures Kept(Kept(s, first), second) == Kept(s, both)
    decreases |s|
  {
    if s != [] {
      var init := s[..|s| - 1];
      var last := s[|s| - 1];
      KeptTwice(init, first, second, both);
      assert Kept(s, both) == Kept(init, both) + (if both(last) then [last] else []);
      if first(last) {
        assert Kept(s, first) == Kept(init, first) + [last];
        KeptAppend(Kept(init, first), [last], second);
        assert [last][..0] == [];
        assert Kept([last], second) == (if second(last) then [last] else []);
      } else {
        assert Kept(s, first) == Kept(init, first) + [];
        assert Kept(init, first) + [] == Kept(init, first);
      }
    }
  }

  /** Keeping with predicates that agree on every element gives the same
      result; keeping with one that every element passes changes nothing. */
  lemma {:induction false} KeptAgrees<T>(s: seq<T>, p: T -> bool, q: T -> bool)
    requires forall i :: 0 <= i < |s| ==> p(s[i]) == q(s[i])
    ensures Kept(s, p) == Kept(s, q)
    ensures (forall i :: 0 <= i < |s| ==> p(s[i])) ==> Kept(s, p) == s
    decreases |s|
  {
    if s != [] {
      var init := s[..|s| - 1];
      KeptAgrees(init, p, q);
      assert init + [s[|s| - 1]] == s;
    }
  }

  /** An element is kept exactly when it occurs and passes; nothing is
      duplicated or lost, so the kept multiset is the passing part. */
  lemma KeptMembers<T>(s: seq<T>, keep: T -> bool)
    ensures forall x :: x in Kept(s, keep) <==> x in s && keep(x)
    ensures forall x :: multiset(Kept(s, keep))[x] == if keep(x) then multiset(s)[x] else 0
    ensures |Kept(s, keep)| <= |s|
  {
    KeptMultiset(s, keep);
    forall x
      ensures x in Kept(s, keep) <==> x in s && keep(x)
    {
      assert x in Kept(s, keep) <==> x in multiset(Kept(s, keep));
      assert x in s <==> x in multiset(s);
    }
    KeptLength(s, keep);
  }

  lemma {:induction false} KeptMultiset<T>(s: seq<T>, keep: T -> bool)
    ensures forall x :: multiset(Kept(s, keep))[x] == if keep(x) then multiset(s)[x] else 0
  {
    if s != [] {
      var init, last := s[..|s| - 1], s[|s| - 1];
      KeptMultiset(init, keep);
      assert s == init + [last];
      assert multiset(s) == multiset(init) + multiset{last};
    }
  }

  lemma {:induction false} KeptLength<T>(s: seq<T>, keep: T -> bool)
    ensures |Kept(s, keep)| <= |s|
  {
    if s != [] {
      KeptLength(s[..|s| - 1], keep);
    }
  }

  function PassesMinDiff(minDiff: real): Item -> bool {
    (it: Item) => Abs(it.diff) >= minDiff
  }

  function PassesMinCost(minCost: real): Item -> bool {
    (it: Item) => it.fromCost >= minCost || it.toCost >= minCost
  }

  /** `FilterByMinDiff`: the items whose |Diff| reaches `minDiff`, in order. */
  method FilterByMinDiff(items: seq<Item>, minDiff: real) returns (r: seq<Item>)
    ensures r == Kept(items, PassesMinDiff(minDiff))
    ensures forall i :: 0 <= i < |r| ==> Abs(r[i].diff) >= minDiff
  {
    r := KeepWhere(items, PassesMinDiff(minDiff));
    KeptMembers(items, PassesMinDiff(minDiff));
    assert forall i :: 0 <= i < |r| ==> r[i] in r;
  }

  /** `FilterByMinCost`: the items with either cost reaching `minCost`, in order. */
  method FilterByMinCost(items: seq<Item>, minCost: real) returns (r: seq<Item>)
    ensures r == Kept(items, PassesMinCost(minCost))
    ensures forall i :: 0 <= i < |r| ==> r[i].fromCost >= minCost || r[i].toCost >= minCost
  {
    r := KeepWhere(items, PassesMinCost(minCost));
    KeptMembers(items, PassesMinCost(minCost));
    assert forall i :: 0 <= i < |r| ==> r[i] in r;
  }
}
