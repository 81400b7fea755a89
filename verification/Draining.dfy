/** A mempool is drained in no particular order; the order does not reach the state. */
module Draining {
  import opened Wrappers
  import opened Sums
  import opened Transactions
  import opened Ledger
  import opened LedgerLaws
  import opened Consensus
  import opened OrderIndependence

  lemma {:induction false} DistinctCount(ids: seq<string>)
    requires forall i, j :: 0 <= i < j < |ids| ==> ids[i] != ids[j]
    ensures |set i | 0 <= i < |ids| :: ids[i]| == |ids|
  {
    if |ids| == 0 {
    } else {
      var n := |ids| - 1;
      DistinctCount(ids[..n]);
      assert (set i | 0 <= i < |ids| :: ids[i]) == (set i | 0 <= i < n :: ids[..n][i]) + {ids[n]};
    }
  }

  lemma {:induction false} SubsetSize(x: set<string>, y: set<string>)
    requires x <= y
    ensures |x| <= |y|
  {
    if x == {} {
    } else {
      var k :| k in x;
      SubsetSize(x - {k}, y - {k});
    }
  }

  /** As many distinct IDs as there are entries are all the entries. */
  lemma DrawnCovers(pool: Mempool, ids: seq<string>, txs: seq<Tx>, k: string) returns (j: nat)
    requires Drawn(pool, ids, txs) && |ids| == |pool| && k in pool
    ensures j < |ids| && ids[j] == k
  {
    var drawn := set i | 0 <= i < |ids| :: ids[i];
    DistinctCount(ids);
    if k !in drawn {
      SubsetSize(drawn, pool.Keys - {k});
      assert false;
    }
    j :| 0 <= j < |ids| && ids[j] == k;
  }

  lemma DrawnWithout(pool: Mempool, ids: seq<string>, txs: seq<Tx>, j: nat)
    requires Drawn(pool, ids, txs) && j < |ids|
    ensures Drawn(pool - {ids[j]}, Without(ids, j), Without(txs, j))
    ensures |pool - {ids[j]}| == |pool| - 1
  {
    assert (pool - {ids[j]}).Keys == pool.Keys - {ids[j]};
    assert |(pool - {ids[j]}).Keys| == |pool - {ids[j]}| && |pool.Keys| == |pool|;
  }

  lemma {:induction false} DrainsAreShuffles(pool: Mempool, xi: seq<string>, xs: seq<Tx>, yi: seq<string>, ys: seq<Tx>)
    requires Drawn(pool, xi, xs) && Drawn(pool, yi, ys) && |xs| == |ys| == |pool|
    ensures multiset(xs) == multiset(ys)
    decreases |xs|
  {
    if |xs| == 0 {
    } else {
      var j := DrawnCovers(pool, yi, ys, xi[0]);
      DrawnWithout(pool, xi, xs, 0);
      DrawnWithout(pool, yi, ys, j);
      assert xs[0] == ys[j];
      hide Without, Drawn;
      DrainsAreShuffles(pool - {xi[0]}, Without(xi, 0), Without(xs, 0), Without(yi, j), Without(ys, j));
      WithoutOne(xs, 0);
      WithoutOne(ys, j);
    }
  }

  /** A mempool that fits in one block: whichever way it is drained, an accepted block ends in the same state. */
  lemma DrainOrderDoesNotMatter(c: Crypto, s: State, pool: Mempool, xs: seq<Tx>, ys: seq<Tx>)
    requires |pool| <= MAX_TXS_PER_BLOCK
    requires IsPending(pool, MAX_TXS_PER_BLOCK, xs) && IsPending(pool, MAX_TXS_PER_BLOCK, ys)
    requires WellFormed(s) && Run(c, s, xs).Some? && Run(c, s, ys).Some?
    ensures Run(c, s, xs) == Run(c, s, ys)
  {
    hide Drawn, Run, WellFormed;
    var xi :| Drawn(pool, xi, xs);
    var yi :| Drawn(pool, yi, ys);
    DrainsAreShuffles(pool, xi, xs, yi, ys);
    OrderDoesNotMatter(c, s, xs, ys);
  }
}
