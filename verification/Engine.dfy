/** The consensus engine object: one local validator over its chain and mempool. */
module Engine {
  import opened Wrappers
  import opened Transactions
  import opened Blocks
  import opened Blockchain
  import opened Mempool
  import C = Consensus
  import O = WorldState

  class Engine {
    const crypto: Crypto
    const validators: C.ValidatorSet
    const localId: string
    const localPriv: string
    const chain: Blockchain
    const mempool: Mempool

    constructor (crypto: Crypto, validators: C.ValidatorSet, localId: string, localPriv: string,
                 chain: Blockchain, mempool: Mempool)
      ensures this.crypto == crypto && this.validators == validators && this.localId == localId
      ensures this.localPriv == localPriv && this.chain == chain && this.mempool == mempool
    {
      this.crypto, this.validators, this.localId, this.localPriv := crypto, validators, localId, localPriv;
      this.chain, this.mempool := chain, mempool;
    }

    ghost predicate Valid()
      reads chain, chain.state
    {
      chain.Valid()
    }

    ghost function Footprint(): set<object>
      reads chain, chain.state
    {
      chain.Footprint() + {mempool}
    }

    ghost function Value(): C.EngineState
      reads chain, chain.state, chain.state.locked.Values, mempool
    {
      C.EngineState(chain.Value(), mempool.txs)
    }

    /** Builds and signs the next block from whatever the mempool hands over; touches nothing. */
    method ProposeBlock(timestamp: int) returns (r: Result<Block, C.ProposeError>)
      requires Valid()
      ensures exists pending :: C.ProposedFrom(crypto, validators, localId, localPriv, Value(), pending, timestamp, r)
    {
      var latest := chain.LatestBlock();
      var nextHeight := latest.index + 1;
      if !C.IsMyTurn(validators, localId, nextHeight) {
        assert C.ProposedFrom(crypto, validators, localId, localPriv, Value(), [], timestamp, Err(C.NotMyTurn));
        return Err(C.NotMyTurn);
      }
      var pending := mempool.Pending(C.MAX_TXS_PER_BLOCK);
      var block := NewBlock(crypto, nextHeight, timestamp, latest.hash, pending, localId);
      var signed := SignBlock(crypto, block, localPriv);
      r := if signed.None? then Err(C.SigningFailed) else Ok(signed.value);
      assert C.ProposedFrom(crypto, validators, localId, localPriv, Value(), pending, timestamp, r);
    }

    /** Checks the proposer, commits, and only then drops the block's transactions from the mempool. */
    method AcceptBlock(block: Block) returns (error: Option<C.AcceptError>)
      requires Valid()
      modifies Footprint()
      ensures Valid() && fresh(Footprint() - old(Footprint()))
      ensures match C.AcceptBlock(crypto, validators, old(Value()), block)
              case Ok(e) => error == None && Value() == e
              case Err(e) => error == Some(e) && Value() == old(Value())
    {
      hide O.State.Value, AddBlock;
      var check := C.ProposerCheck(validators, block);
      if check.Fail? {
        return Some(check.error);
      }
      var pubKey := C.PublicKeyFor(validators, block.validatorId).value;
      var failure := chain.AddBlock(crypto, block, pubKey);
      if failure.Some? {
        return Some(C.Rejected(failure.value));
      }
      mempool.RemoveBatch(block.txs);
      error := None;
    }
  }
}
