/** The mempool object: a map of pending transactions, drained in no particular order. */
module Mempool {
  import opened Wrappers
  import opened Transactions
  import C = Consensus

  class Mempool {
    var txs: C.Mempool

    constructor ()
      ensures txs == map[]
    {
      txs := map[];
    }

    /** False, and no change, when the ID is already pending. */
    method Add(t: Tx) returns (added: bool)
      modifies this
      ensures added == (t.id !in old(txs))
      ensures txs == if added then old(txs)[t.id := t] else old(txs)
    {
      if t.id in txs {
        return false;
      }
      txs := txs[t.id := t];
      added := true;
    }

    method Has(id: string) returns (exists_: bool)
      ensures exists_ == (id in txs)
    {
      exists_ := id in txs;
    }

    method RemoveBatch(batch: seq<Tx>)
      modifies this
      ensures forall id :: id in txs <==> id in old(txs) && forall i :: 0 <= i < |batch| ==> batch[i].id != id
      ensures forall id :: id in txs ==> txs[id] == old(txs)[id]
      ensures txs == C.WithoutBatch(old(txs), batch)
    {
      for i := 0 to |batch|
        invariant forall id :: id in txs <==> id in old(txs) && forall k :: 0 <= k < i ==> batch[k].id != id
        invariant forall id :: id in txs ==> txs[id] == old(txs)[id]
      {
        txs := txs - {batch[i].id};
      }
    }

    /** Up to `maxCount` of the pending transactions, each once, in an order the caller cannot rely on. */
    method Pending(maxCount: nat) returns (result: seq<Tx>)
      ensures C.IsPending(txs, maxCount, result)
    {
      result := [];
      var keys := txs.Keys;
      ghost var ids: seq<string> := [];
      while keys != {} && |result| < maxCount
        invariant keys <= txs.Keys
        invariant |ids| == |result| <= maxCount && |keys| + |result| == |txs.Keys|
        invariant forall i :: 0 <= i < |ids| ==> ids[i] in txs && ids[i] !in keys && txs[ids[i]] == result[i]
        invariant forall i, j :: 0 <= i < j < |ids| ==> ids[i] != ids[j]
        decreases |keys|
      {
        var k :| k in keys;
        result := result + [txs[k]];
        ids := ids + [k];
        keys := keys - {k};
      }
      assert C.Drawn(txs, ids, result);
      assert |txs.Keys| == |txs|;
      assert keys == {} ==> |keys| == 0;
      assert keys != {} ==> |keys| > 0;
    }
  }
}
