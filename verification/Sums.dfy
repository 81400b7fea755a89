/** Sums over sequences and finite maps. */
module Sums {

  function SumBy<T(!new)>(f: T -> int, xs: seq<T>): int {
    if |xs| == 0 then 0 else SumBy(f, xs[..|xs| - 1]) + f(xs[|xs| - 1])
  }

  lemma SumSnoc<T(!new)>(f: T -> int, xs: seq<T>, x: T)
    ensures SumBy(f, xs + [x]) == SumBy(f, xs) + f(x)
  {
    assert (xs + [x])[..|xs|] == xs;
  }

  lemma {:induction false} SumConcat<T(!new)>(f: T -> int, xs: seq<T>, ys: seq<T>)
    ensures SumBy(f, xs + ys) == SumBy(f, xs) + SumBy(f, ys)
  {
    if |ys| == 0 {
      assert xs + ys == xs;
    } else {
      var front := ys[..|ys| - 1];
      SumConcat(f, xs, front);
      assert (xs + ys)[..|xs + ys| - 1] == xs + front;
    }
  }

  /** The list without its entry at position i. */
  function Without<T>(xs: seq<T>, i: nat): (rest: seq<T>)
    requires i < |xs|
    ensures |rest| == |xs| - 1
    ensures forall k :: 0 <= k < |rest| ==> rest[k] == if k < i then xs[k] else xs[k + 1]
  {
    xs[..i] + xs[i + 1..]
  }

  lemma WithoutOne<T>(xs: seq<T>, i: nat)
    requires i < |xs|
    ensures multiset(xs) == multiset(Without(xs, i)) + multiset{xs[i]}
  {
    assert xs == xs[..i] + [xs[i]] + xs[i + 1..];
  }

  lemma SumRemove<T(!new)>(f: T -> int, xs: seq<T>, i: nat)
    requires i < |xs|
    ensures SumBy(f, xs) == SumBy(f, Without(xs, i)) + f(xs[i])
  {
    SumSplit(f, xs, i);
    SumConcat(f, xs[..i], xs[i + 1..]);
  }

  lemma SumSplit<T(!new)>(f: T -> int, xs: seq<T>, i: nat)
    requires i < |xs|
    ensures SumBy(f, xs) == SumBy(f, xs[..i]) + f(xs[i]) + SumBy(f, xs[i + 1..])
  {
    var upTo := xs[..i + 1];
    assert upTo[..i] == xs[..i];
    assert xs == upTo + xs[i + 1..];
    SumConcat(f, upTo, xs[i + 1..]);
  }

  lemma SumUpdate<T(!new)>(f: T -> int, xs: seq<T>, i: nat, x: T)
    requires i < |xs|
    ensures SumBy(f, xs[i := x]) == SumBy(f, xs) - f(xs[i]) + f(x)
  {
    SumSplit(f, xs, i);
    SumSplit(f, xs[i := x], i);
    assert xs[i := x][..i] == xs[..i] && xs[i := x][i + 1..] == xs[i + 1..];
  }

  /** A sum does not depend on the order of its terms. */
  lemma {:induction false} SumPermutation<T(!new)>(f: T -> int, xs: seq<T>, ys: seq<T>)
    requires multiset(xs) == multiset(ys)
    ensures SumBy(f, xs) == SumBy(f, ys)
    decreases |xs|
  {
    if |xs| == 0 {
      assert |multiset(ys)| == 0;
    } else {
      hide SumBy;
      var n := |xs| - 1;
      assert xs[n] in multiset(ys);
      var i :| 0 <= i < |ys| && ys[i] == xs[n];
      WithoutOne(xs, n);
      WithoutOne(ys, i);
      assert multiset(Without(xs, n)) == multiset(xs) - multiset{xs[n]} == multiset(Without(ys, i));
      SumPermutation(f, Without(xs, n), Without(ys, i));
      SumRemove(f, xs, n);
      SumRemove(f, ys, i);
    }
  }

  lemma {:induction false} SumExt<T(!new)>(f: T -> int, g: T -> int, xs: seq<T>)
    requires forall i :: 0 <= i < |xs| ==> f(xs[i]) == g(xs[i])
    ensures SumBy(f, xs) == SumBy(g, xs)
  {
    if |xs| == 0 {
    } else {
      SumExt(f, g, xs[..|xs| - 1]);
    }
  }

  lemma {:induction false} SumNonNegative<T(!new)>(f: T -> int, xs: seq<T>)
    requires forall i :: 0 <= i < |xs| ==> f(xs[i]) >= 0
    ensures SumBy(f, xs) >= 0
  {
    if |xs| == 0 {
    } else {
      SumNonNegative(f, xs[..|xs| - 1]);
    }
  }

  /** In a sum of non-negative terms every pair of distinct positions is covered. */
  lemma SumCovers<T(!new)>(f: T -> int, xs: seq<T>, i: nat)
    requires forall k :: 0 <= k < |xs| ==> f(xs[k]) >= 0
    requires i < |xs|
    ensures SumBy(f, xs) >= f(xs[i])
    ensures forall j :: 0 <= j < |xs| && j != i ==> SumBy(f, xs) >= f(xs[i]) + f(xs[j])
  {
    hide SumBy;
    var rest := Without(xs, i);
    SumRemove(f, xs, i);
    SumNonNegative(f, rest);
    forall j | 0 <= j < |xs| && j != i
      ensures SumBy(f, xs) >= f(xs[i]) + f(xs[j])
    {
      var k := if j < i then j else j - 1;
      assert rest[k] == xs[j];
      SumRemove(f, rest, k);
      SumNonNegative(f, Without(rest, k));
    }
  }

  ghost function Pick<V(!new)>(m: map<string, V>): (k: string)
    requires |m| != 0
    ensures k in m
  {
    var k :| k in m; k
  }

  ghost function MapSum<V(!new)>(f: V -> int, m: map<string, V>): int
    decreases |m.Keys|
  {
    if |m| == 0 then 0 else
      var k := Pick(m);
      assert (m - {k}).Keys == m.Keys - {k};
      f(m[k]) + MapSum(f, m - {k})
  }

  lemma {:induction false} MapSumRemove<V(!new)>(f: V -> int, m: map<string, V>, k: string)
    requires k in m
    ensures MapSum(f, m) == f(m[k]) + MapSum(f, m - {k})
    decreases |m.Keys|
  {
    var first := Pick(m);
    if first != k {
      var rest := m - {first};
      var without := m - {k};
      assert rest.Keys == m.Keys - {first} && without.Keys == m.Keys - {k};
      assert first in without;
      MapSumRemove(f, rest, k);
      MapSumRemove(f, without, first);
      assert rest - {k} == without - {first};
    }
  }

  /** Writing one key replaces that key's term and nothing else. */
  lemma MapSumUpdate<V(!new)>(f: V -> int, m: map<string, V>, k: string, v: V)
    ensures MapSum(f, m[k := v]) == MapSum(f, m) - (if k in m then f(m[k]) else 0) + f(v)
  {
    var updated := m[k := v];
    MapSumRemove(f, updated, k);
    assert updated - {k} == m - {k};
    if k in m {
      MapSumRemove(f, m, k);
    } else {
      assert m - {k} == m;
    }
  }

  lemma {:induction false} MapSumNonNegative<V(!new)>(f: V -> int, m: map<string, V>)
    requires forall k :: k in m ==> f(m[k]) >= 0
    ensures MapSum(f, m) >= 0
    ensures forall k :: k in m ==> f(m[k]) <= MapSum(f, m)
    decreases |m.Keys|
  {
    forall k | k in m
      ensures f(m[k]) <= MapSum(f, m)
    {
      MapSumRemove(f, m, k);
      assert (m - {k}).Keys == m.Keys - {k};
      MapSumNonNegative(f, m - {k});
    }
    if |m| != 0 {
      var k :| k in m;
      assert f(m[k]) <= MapSum(f, m);
    }
  }
}
