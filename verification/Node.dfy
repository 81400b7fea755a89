/** A network participant: gossip handlers and the production loop's body, as single atomic steps. */
module Node {
  import opened Wrappers
  import opened Transactions
  import opened Blocks
  import opened Blockchain
  import opened Mempool
  import opened Engine
  import L = Ledger
  import C = Consensus
  import R = Replication
  import K = Storage
  import O = WorldState
  import opened Store

  class Node {
    const chain: Blockchain
    const mempool: Mempool
    const consensus: Engine
    const store: Store?

    constructor (chain: Blockchain, mempool: Mempool, consensus: Engine, store: Store?)
      requires consensus.chain == chain && consensus.mempool == mempool && chain.Valid()
      ensures this.chain == chain && this.mempool == mempool && this.consensus == consensus && this.store == store
      ensures Valid()
    {
      this.chain, this.mempool, this.consensus, this.store := chain, mempool, consensus, store;
    }

    /** The node and its engine share one chain and one mempool. */
    ghost predicate Valid()
      reads chain, chain.state, consensus.chain, consensus.chain.state
    {
      consensus.chain == chain && consensus.mempool == mempool && consensus.Valid()
    }

    ghost function Footprint(): set<object>
      reads consensus.chain, consensus.chain.state
    {
      consensus.Footprint() + (if store == null then {} else {store})
    }

    ghost function Value(): C.EngineState
      reads consensus.chain, consensus.chain.state, consensus.chain.state.locked.Values, consensus.mempool
    {
      consensus.Value()
    }

    /** The entries of the store; of no interest when there is none. */
    ghost function Db(): K.KeyValues
      reads store
    {
      if store == null then map[] else store.db
    }

    /** What committing a block leaves in the store: both saves done, in order. */
    ghost predicate Persisted(before: K.KeyValues, block: Block)
      reads store, consensus.chain, consensus.chain.state, consensus.chain.state.locked.Values, consensus.mempool
    {
      store == null || K.IsSaved(store.codec, K.SaveBlock(store.codec, before, block), Value().chain.state, Db())
    }

    method Persist(block: Block)
      requires Valid()
      modifies if store == null then {} else {store}
      ensures Persisted(old(Db()), block)
    {
      if store != null {
        store.SaveBlock(block);
        store.SaveState(chain.state);
      }
    }

    /** Offer a block to the engine and, once it is committed, persist it. */
    method Commit(block: Block) returns (error: Option<C.AcceptError>)
      requires Valid()
      modifies Footprint()
      ensures Valid() && fresh(Footprint() - old(Footprint()))
      ensures match C.AcceptBlock(consensus.crypto, consensus.validators, old(Value()), block)
              case Ok(e) => error == None && Value() == e && Persisted(old(Db()), block)
              case Err(e) => error == Some(e) && Value() == old(Value()) && Db() == old(Db())
    {
      hide C.AcceptBlock, O.State.Value;
      error := consensus.AcceptBlock(block);
      if error.None? {
        Persist(block);
      }
    }

    /** A gossiped block: ignored, refused without a trace, or committed, persisted and passed on. */
    method HandleReceiveBlock(block: Block) returns (reply: R.BlockReply, broadcast: Option<Block>)
      requires Valid()
      modifies Footprint()
      ensures Valid() && fresh(Footprint() - old(Footprint()))
      ensures (Value(), reply) == R.ReceiveBlock(consensus.crypto, consensus.validators, old(Value()), block)
      ensures broadcast == if reply.Accepted? then Some(block) else None
      ensures if reply.Accepted? then Persisted(old(Db()), block) else Db() == old(Db())
    {
      hide C.AcceptBlock, O.State.Value;
      broadcast := None;
      var latest := chain.LatestBlock();
      if block.index <= latest.index {
        return R.Ignored, None;
      }
      if block.index != latest.index + 1 {
        return R.OutOfOrder, None;
      }
      var failure := Commit(block);
      if failure.Some? {
        return R.Refused(failure.value), None;
      }
      reply, broadcast := R.Accepted, Some(block);
    }

    /** A gossiped transaction enters the mempool if it is new and valid now. */
    method HandleReceiveTx(t: Tx) returns (reply: R.TxReply)
      requires Valid()
      modifies mempool
      ensures Valid()
      ensures (Value(), reply) == R.ReceiveTx(consensus.crypto, old(Value()), t)
    {
      hide O.State.Value, L.ValidateTransaction;
      var pending := mempool.Has(t.id);
      if pending {
        return R.AlreadyPending;
      }
      var verdict := L.ValidateTransaction(consensus.crypto, t, chain.state.Value());
      if verdict.Fail? {
        return R.TxRefused(verdict.error);
      }
      var added := mempool.Add(t);
      assert added;
      reply := R.Admitted;
    }

    /** The second half of a tick: self-accept, persist, and only then hand the block out. */
    method SelfAccept(proposal: Result<Block, C.ProposeError>) returns (broadcast: Option<Block>)
      requires Valid()
      modifies Footprint()
      ensures Valid() && fresh(Footprint() - old(Footprint()))
      ensures (Value(), broadcast) == R.SelfAccept(consensus.crypto, consensus.validators, old(Value()), proposal)
      ensures if broadcast.Some? then Persisted(old(Db()), broadcast.value) else Db() == old(Db())
    {
      hide C.AcceptBlock, O.State.Value;
      if proposal.Err? {
        return None;
      }
      var failure := Commit(proposal.value);
      if failure.Some? {
        return None;
      }
      broadcast := Some(proposal.value);
    }

    /** One tick of RunProductionLoop. A block leaves the node only after the node's own chain holds it. */
    method ProductionTick(timestamp: int) returns (broadcast: Option<Block>, ghost pending: seq<Tx>)
      requires Valid()
      modifies Footprint()
      ensures Valid() && fresh(Footprint() - old(Footprint()))
      ensures (Value(), broadcast) ==
              R.Produce(consensus.crypto, consensus.validators, consensus.localId, consensus.localPriv,
                        old(Value()), pending, timestamp)
      ensures broadcast.Some? ==> C.IsPending(old(mempool.txs), C.MAX_TXS_PER_BLOCK, pending)
      ensures if broadcast.Some? then Persisted(old(Db()), broadcast.value) else Db() == old(Db())
    {
      hide C.ProposeBlock, C.IsPending, C.Drawn, R.SelfAccept, O.State.Value;
      var latest := chain.LatestBlock();
      pending := [];
      if !C.IsMyTurn(consensus.validators, consensus.localId, latest.index + 1) {
        NoTurn(consensus.crypto, consensus.validators, consensus.localId, consensus.localPriv, Value(), pending, timestamp);
        return None, pending;
      }
      var proposal := consensus.ProposeBlock(timestamp);
      pending :| C.ProposedFrom(consensus.crypto, consensus.validators, consensus.localId, consensus.localPriv,
                                Value(), pending, timestamp, proposal);
      broadcast := SelfAccept(proposal);
      NotMyTurnIsNone(consensus.crypto, consensus.validators, old(Value()));
    }
  }

  lemma NoTurn(c: Crypto, vs: C.ValidatorSet, localId: string, privateKey: string,
               e: C.EngineState, pending: seq<Tx>, timestamp: int)
    requires |e.chain.blocks| > 0 && !C.IsMyTurn(vs, localId, Tip(e.chain).index + 1)
    ensures R.Produce(c, vs, localId, privateKey, e, pending, timestamp) == (e, None)
  {
  }

  lemma NotMyTurnIsNone(c: Crypto, vs: C.ValidatorSet, e: C.EngineState)
    requires |e.chain.blocks| > 0
    ensures R.SelfAccept(c, vs, e, Err(C.NotMyTurn)).1 == None
  {
  }
}
