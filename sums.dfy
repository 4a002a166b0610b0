/** Sums of costs over maps and sequences, independent of iteration order. */
module Sums {
  import Wrappers

  /** The sum of the values of `m`. It picks keys in no particular order;
      `MapSumPick` shows that every order gives the same sum. */
  ghost function MapSum<K>(m: map<K, real>): real
    decreases |m|
  {
    if m == map[] then 0.0
    else
      var k := Pick(m);
      assert (m - {k}).Keys == m.Keys - {k};
      m[k] + MapSum(m - {k})
  }

  ghost function Pick<K>(m: map<K, real>): (k: K)
    requires m != map[]
    ensures k in m
  {
    var k :| k in m; k
  }

  /** Summing may start from any key. */
  lemma {:induction false} MapSumPick<K>(m: map<K, real>, k: K)
    requires k in m
    ensures MapSum(m) == m[k] + MapSum(m - {k})
    decreases |m|
  {
    var j := Pick(m);
    if j != k {
      var mj, mk := m - {j}, m - {k};
      assert mj.Keys == m.Keys - {j} && mk.Keys == m.Keys - {k};
      MapSumPick(mj, k);
      MapSumPick(mk, j);
      assert mj - {k} == mk - {j};
    }
  }

  /** Adding a fresh key adds its value. */
  lemma MapSumInsert<K>(m: map<K, real>, k: K, v: real)
    requires k !in m
    ensures MapSum(m[k := v]) == v + MapSum(m)
  {
    MapSumPick(m[k := v], k);
    assert m[k := v] - {k} == m;
  }

  /** Replacing a value changes the sum by the difference. */
  lemma MapSumUpdate<K>(m: map<K, real>, k: K, v: real)
    requires k in m
    ensures MapSum(m[k := v]) == MapSum(m) - m[k] + v
  {
    MapSumPick(m, k);
    MapSumPick(m[k := v], k);
    assert m[k := v] - {k} == m - {k};
  }

  /** `m[k] += a`, where a missing key counts as 0, adds `a` to the sum. */
  lemma MapSumAdd<K>(m: map<K, real>, k: K, a: real)
    ensures MapSum(m[k := Wrappers.Lookup(m, k) + a]) == MapSum(m) + a
  {
    if k in m {
      MapSumUpdate(m, k, m[k] + a);
    } else {
      MapSumInsert(m, k, a);
    }
  }

  /** The entries of `m` whose keys are in `keys`. */
  function Restrict<K>(m: map<K, real>, keys: set<K>): (r: map<K, real>)
    ensures r.Keys == m.Keys * keys
    ensures forall k :: k in r ==> r[k] == m[k]
  {
    map k | k in m && k in keys :: m[k]
  }

  /** Growing the key set by one name adds that name's value, or nothing when
      `m` has no entry for it. */
  lemma RestrictStep<K>(m: map<K, real>, keys: set<K>, k: K)
    requires k !in keys
    ensures MapSum(Restrict(m, keys + {k})) == MapSum(Restrict(m, keys)) + (if k in m then m[k] else 0.0)
  {
    if k in m {
      assert Restrict(m, keys + {k}) == Restrict(m, keys)[k := m[k]];
      MapSumInsert(Restrict(m, keys), k, m[k]);
    } else {
      assert Restrict(m, keys + {k}) == Restrict(m, keys);
    }
  }

  lemma RestrictAll<K>(m: map<K, real>, keys: set<K>)
    requires m.Keys <= keys
    ensures Restrict(m, keys) == m
  {
  }

  /** The sum of `f` over the elements of `s`, in order. */
  function SumOf<T>(s: seq<T>, f: T -> real): real
  {
    if s == [] then 0.0 else SumOf(s[..|s| - 1], f) + f(s[|s| - 1])
  }

  lemma {:induction false} SumOfAppend<T>(a: seq<T>, b: seq<T>, f: T -> real)
    ensures SumOf(a + b, f) == SumOf(a, f) + SumOf(b, f)
    decreases |b|
  {
    if b == [] {
      assert a + b == a;
    } else {
      assert (a + b)[..|a + b| - 1] == a + b[..|b| - 1];
      SumOfAppend(a, b[..|b| - 1], f);
    }
  }

  lemma SumOfCons<T>(x: T, s: seq<T>, f: T -> real)
    ensures SumOf([x] + s, f) == f(x) + SumOf(s, f)
  {
    SumOfAppend([x], s, f);
    assert [x][..0] == [];
  }

  /** Reordering does not change a sum. */
  lemma {:induction false} SumOfPermutation<T>(a: seq<T>, b: seq<T>, f: T -> real)
    requires multiset(a) == multiset(b)
    ensures SumOf(a, f) == SumOf(b, f)
    decreases |a|
  {
    if a != [] {
      var x := a[0];
      assert x in multiset(b);
      var j :| 0 <= j < |b| && b[j] == x;
      var b' := b[..j] + b[j + 1..];
      assert b == b[..j] + [x] + b[j + 1..];
      assert a == [x] + a[1..];
      assert multiset(b) == multiset(b[..j]) + multiset{x} + multiset(b[j + 1..]);
      assert multiset(a) == multiset{x} + multiset(a[1..]);
      assert multiset(b') == multiset(b[..j]) + multiset(b[j + 1..]);
      assert multiset(a[1..]) == multiset(a) - multiset{x};
      assert multiset(b') == multiset(b) - multiset{x};
      SumOfPermutation(a[1..], b', f);
      SumOfCons(x, a[1..], f);
      SumOfAppend(b[..j] + [x], b[j + 1..], f);
      SumOfAppend(b[..j], [x], f);
      SumOfAppend(b[..j], b[j + 1..], f);
      assert [x][..0] == [];
    } else {
      assert b == [];
    }
  }
}
