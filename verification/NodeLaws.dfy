/** What a node's steps do to its mempool, and when they succeed. */
module NodeLaws {
  import opened Wrappers
  import opened Integers
  import opened Transactions
  import opened Ledger
  import opened LedgerLaws
  import opened Blocks
  import opened Consensus
  import opened Draining
  import opened Replication

  // ----- What leaves the mempool -----

  /** Every entry sits under its own ID. */
  predicate OwnIds(pool: Mempool) {
    forall id :: id in pool ==> pool[id].id == id
  }

  /** Acceptance takes out of the mempool the IDs that the block's transactions bear, and nothing else. */
  lemma AcceptedLeavesRest(c: Crypto, vs: ValidatorSet, e: EngineState, b: Block, e': EngineState)
    requires |e.chain.blocks| > 0 && AcceptBlock(c, vs, e, b) == Ok(e')
    ensures forall id :: id in e'.mempool <==> id in e.mempool && forall i :: 0 <= i < |b.txs| ==> b.txs[i].id != id
    ensures forall id :: id in e'.mempool ==> e'.mempool[id] == e.mempool[id]
  {
  }

  /** All of a node's steps keep entries under their own IDs. */
  lemma OwnIdsStay(c: Crypto, vs: ValidatorSet, e: EngineState, b: Block, t: Tx)
    requires |e.chain.blocks| > 0 && OwnIds(e.mempool)
    ensures OwnIds(ReceiveBlock(c, vs, e, b).0.mempool) && OwnIds(ReceiveTx(c, e, t).0.mempool)
  {
  }

  lemma DrawnAreGone(pool: Mempool, ids: seq<string>, txs: seq<Tx>)
    requires OwnIds(pool) && Drawn(pool, ids, txs)
    ensures forall id :: id in WithoutBatch(pool, txs) <==> id in pool && id !in ids
    ensures |WithoutBatch(pool, txs)| == |pool| - |txs|
  {
    assert forall i :: 0 <= i < |txs| ==> txs[i].id == ids[i];
    KeysLeft(pool, WithoutBatch(pool, txs), ids);
  }

  lemma KeysLeft(pool: Mempool, rest: Mempool, ids: seq<string>)
    requires forall id :: id in rest <==> id in pool && id !in ids
    requires forall i :: 0 <= i < |ids| ==> ids[i] in pool
    requires forall i, j :: 0 <= i < j < |ids| ==> ids[i] != ids[j]
    ensures |rest| == |pool| - |ids|
  {
    var drawn := set i | 0 <= i < |ids| :: ids[i];
    DistinctCount(ids);
    assert rest.Keys == pool.Keys - drawn && drawn <= pool.Keys;
    assert |rest.Keys| == |rest| && |pool.Keys| == |pool|;
  }

  /**
   * A tick that hands out a block leaves exactly the entries it has not drained, as they were; so a mempool that fits in
   * one block, 200 transactions, is empty afterwards.
   */
  lemma TickLeavesUndrained(c: Crypto, vs: ValidatorSet, localId: string, privateKey: string, e: EngineState,
                            pending: seq<Tx>, timestamp: int)
    requires |e.chain.blocks| > 0 && OwnIds(e.mempool) && IsPending(e.mempool, MAX_TXS_PER_BLOCK, pending)
    requires Produce(c, vs, localId, privateKey, e, pending, timestamp).1.Some?
    ensures var e' := Produce(c, vs, localId, privateKey, e, pending, timestamp).0;
            && (forall id :: id in e'.mempool <==> id in e.mempool && e.mempool[id] !in pending)
            && (forall id :: id in e'.mempool ==> e'.mempool[id] == e.mempool[id])
            && |e'.mempool| == |e.mempool| - |pending|
            && |pending| == (if |e.mempool| < 200 then |e.mempool| else 200)
            && (|e.mempool| <= 200 ==> e'.mempool == map[])
  {
    hide Produce, WithoutBatch, Drawn;
    var ids :| Drawn(e.mempool, ids, pending);
    DrawnAreGone(e.mempool, ids, pending);
    ProducedLeaves(c, vs, localId, privateKey, e, pending, timestamp);
    DrawnIff(e.mempool, ids, pending);
  }

  lemma ProducedLeaves(c: Crypto, vs: ValidatorSet, localId: string, privateKey: string, e: EngineState,
                       pending: seq<Tx>, timestamp: int)
    requires |e.chain.blocks| > 0 && Produce(c, vs, localId, privateKey, e, pending, timestamp).1.Some?
    ensures Produce(c, vs, localId, privateKey, e, pending, timestamp).0.mempool == WithoutBatch(e.mempool, pending)
    ensures forall id :: id in WithoutBatch(e.mempool, pending) ==> WithoutBatch(e.mempool, pending)[id] == e.mempool[id]
  {
    hide AddBlock, MerkleRoot, BlockHash;
  }

  lemma DrawnIff(pool: Mempool, ids: seq<string>, txs: seq<Tx>)
    requires OwnIds(pool) && Drawn(pool, ids, txs)
    ensures forall id :: id in pool ==> (pool[id] in txs <==> id in ids)
  {
    forall id | id in pool
      ensures pool[id] in txs <==> id in ids
    {
      if k :| 0 <= k < |ids| && ids[k] == id {
        assert txs[k] == pool[id];
      }
      if k :| 0 <= k < |txs| && txs[k] == pool[id] {
        assert ids[k] == txs[k].id == id;
      }
    }
  }

  // ----- When a step succeeds -----

  /** In its turn, with its own key, a node hands out a block exactly when what is pending runs; and this is the block. */
  lemma ProducesIff(c: Crypto, vs: ValidatorSet, localId: string, i: nat, privateKey: string, e: EngineState,
                    pending: seq<Tx>, timestamp: int)
    requires |e.chain.blocks| > 0 && Tip(e.chain).index >= 0
    requires IsFirst(vs, localId, i) && KeyPair(c, privateKey, vs[i].publicKey)
    ensures var (e', out) := Produce(c, vs, localId, privateKey, e, pending, timestamp);
            && (out.Some? <==> vs[(Tip(e.chain).index + 1) % |vs|].id == localId && Run(c, e.chain.state, pending).Some?)
            && (out.None? ==> e' == e)
            && (out.Some? ==>
                  && out.value.txs == pending && out.value.timestamp == timestamp && out.value.validatorId == localId
                  && e'.chain == Chain(e.chain.blocks + [out.value], Run(c, e.chain.state, pending).value))
  {
    ProposerIs(vs, Tip(e.chain).index + 1);
    var r := ProposeBlock(c, vs, localId, privateKey, e, pending, timestamp);
    if vs[(Tip(e.chain).index + 1) % |vs|].id == localId {
      ProposedIsAcceptedIff(c, vs, localId, i, privateKey, e, pending, timestamp);
      AddBlockRuns(c, e.chain, r.value, PublicKeyFor(vs, localId).value);
    }
  }

  /** Another node with the same chain accepts what was handed out, ends with the same chain, and ignores it from then on. */
  lemma BroadcastIsAccepted(c: Crypto, vs: ValidatorSet, localId: string, privateKey: string, e: EngineState,
                            pending: seq<Tx>, timestamp: int, other: EngineState)
    requires |e.chain.blocks| > 0 && other.chain == e.chain
    requires Produce(c, vs, localId, privateKey, e, pending, timestamp).1.Some?
    ensures var (e', out) := Produce(c, vs, localId, privateKey, e, pending, timestamp);
            var (after, reply) := ReceiveBlock(c, vs, other, out.value);
            && reply == Accepted && after.chain == e'.chain
            && after.mempool == WithoutBatch(other.mempool, pending)
            && ReceiveBlock(c, vs, after, out.value) == (after, Ignored)
  {
    hide MerkleRoot, BlockHash;
    var b := Produce(c, vs, localId, privateKey, e, pending, timestamp).1.value;
    AddBlockRuns(c, e.chain, b, PublicKeyFor(vs, b.validatorId).value);
  }

  /** Old blocks are ignored and later ones refused as out of order, whatever is in them. */
  lemma OnlyTheNextBlockCounts(c: Crypto, vs: ValidatorSet, e: EngineState, b: Block)
    requires |e.chain.blocks| > 0
    ensures ReceiveBlock(c, vs, e, b).1 == Ignored <==> b.index <= Tip(e.chain).index
    ensures ReceiveBlock(c, vs, e, b).1 == OutOfOrder <==> b.index > Tip(e.chain).index + 1
    ensures ReceiveBlock(c, vs, e, b).0 != e ==> b.index == Tip(e.chain).index + 1 && AcceptBlock(c, vs, e, b).Ok?
  {
  }

  /** A valid transaction that reaches an idle proposer is in the block of its next turn, and has its effect. */
  lemma SubmittedIsCommitted(c: Crypto, vs: ValidatorSet, localId: string, i: nat, privateKey: string, e: EngineState,
                             t: Tx, pending: seq<Tx>, timestamp: int)
    requires |e.chain.blocks| > 0 && Tip(e.chain).index >= 0 && e.mempool == map[]
    requires IsFirst(vs, localId, i) && KeyPair(c, privateKey, vs[i].publicKey)
    requires vs[(Tip(e.chain).index + 1) % |vs|].id == localId
    requires ValidateTransaction(c, t, e.chain.state).Pass?
    requires IsPending(ReceiveTx(c, e, t).0.mempool, MAX_TXS_PER_BLOCK, pending)
    ensures var (e', out) := Produce(c, vs, localId, privateKey, ReceiveTx(c, e, t).0, pending, timestamp);
            out.Some? && out.value.txs == [t] && e'.chain.state == Effect(t, e.chain.state)
  {
    hide Effect, Produce, IsPending, SignatureValid, CheckRules;
    var admitted := ReceiveTx(c, e, t).0;
    OnlyPending(t, pending);
    OneTxRuns(c, e.chain.state, t);
    ProducesIff(c, vs, localId, i, privateKey, admitted, pending, timestamp);
  }

  lemma OnlyPending(t: Tx, pending: seq<Tx>)
    requires IsPending(map[t.id := t], MAX_TXS_PER_BLOCK, pending)
    ensures pending == [t]
  {
    var ids :| Drawn(map[t.id := t], ids, pending);
    assert |map[t.id := t]| == 1;
    assert ids[0] == t.id;
  }

  lemma OneTxRuns(c: Crypto, s: State, t: Tx)
    ensures Run(c, s, [t]) == Step(c, s, t)
  {
    RunSnoc(c, s, [], t);
    assert [] + [t] == [t];
  }
}
