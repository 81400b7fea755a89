/** The chain object: blocks appended, state mutated one transaction at a time and restored on failure. */
module Blockchain {
  import opened Wrappers
  import opened Integers
  import opened Transactions
  import opened Blocks
  import opened WorldState
  import L = Ledger
  import Laws = LedgerLaws

  class Blockchain {
    var blocks: seq<Block>
    var state: State

    ghost predicate Valid()
      reads this, state
    {
      |blocks| > 0 && state.Valid()
    }

    ghost function Footprint(): set<object>
      reads this, state
    {
      {this} + state.Footprint()
    }

    /** The abstract chain. */
    ghost function Value(): Chain
      reads this, state, state.locked.Values
    {
      Chain(blocks, state.Value())
    }

    /** A chain with a genesis block and the initial allocations as balances. */
    constructor (c: Crypto, initialAllocations: map<string, int64>, timestamp: int)
      ensures Valid() && fresh(Footprint())
      ensures Value() == NewChain(c, initialAllocations, timestamp)
    {
      var s := new State();
      s.balances := CopyMap(initialAllocations);
      blocks := [GenesisBlock(c, timestamp)];
      state := s;
    }

    /** A chain rebuilt from storage. */
    constructor Restored(blocks: seq<Block>, state: State)
      requires |blocks| > 0 && state.Valid()
      ensures Valid() && this.blocks == blocks && this.state == state
    {
      this.blocks := blocks;
      this.state := state;
    }

    method LatestBlock() returns (b: Block)
      requires Valid()
      ensures b == Tip(Value())
    {
      b := blocks[|blocks| - 1];
    }

    method BlockAt(index: int) returns (b: Option<Block>)
      requires Valid()
      ensures b == if 0 <= index < |blocks| then Some(blocks[index]) else None
    {
      if index < 0 || index >= |blocks| {
        return None;
      }
      b := Some(blocks[index]);
    }

    /**
     * All or nothing: either the block is appended and the state is the fold of its transactions, or the blocks and
     * the state value are exactly what they were, although the state has been mutated on the way.
     */
    method AddBlock(c: Crypto, block: Block, validatorPubKey: string) returns (error: Option<AddError>)
      requires Valid()
      modifies Footprint()
      ensures Valid() && fresh(Footprint() - old(Footprint()))
      ensures match Blocks.AddBlock(c, old(Value()), block, validatorPubKey)
              case Ok(chain) => error == None && Value() == chain
              case Err(e) => error == Some(e) && Value() == old(Value())
    {
      hide Blocks.AddBlock, ValidateBlock, Ran, State.Value;
      ghost var before := Value();
      var latest := blocks[|blocks| - 1];
      var check := ValidateBlock(c, block, latest, validatorPubKey);
      if check.Fail? {
        BlockRefused(c, before, block, validatorPubKey);
        return Some(InvalidBlock(check.error));
      }
      var snapshot := state.Clone();
      assert snapshot.Footprint() !! state.Footprint();
      label running:
      var failure := RunTransactions(c, block.txs);
      BlockRan(c, before, block, validatorPubKey, failure, state.Value());
      if failure.Some? {
        assert unchanged@running(snapshot) && forall k :: k in snapshot.locked ==> unchanged@running(snapshot.locked[k]);
        assert snapshot.Value() == before.state;
        state := snapshot;
        return failure;
      }
      blocks := blocks + [block];
      error := None;
    }

    /** The validate-then-apply loop on the live state; it stops at the first failure, with the state half-way. */
    method RunTransactions(c: Crypto, txs: seq<Tx>) returns (failure: Option<AddError>)
      requires Valid()
      modifies state.Footprint()
      ensures Valid() && fresh(Footprint() - old(Footprint()))
      ensures Ran(c, old(state.Value()), txs, failure, state.Value())
    {
      hide State.Value, L.ValidateTransaction, L.Effect, L.LockPresent;
      ghost var s := state.Value();
      for i := 0 to |txs|
        invariant Valid() && fresh(Footprint() - old(Footprint()))
        invariant L.Run(c, s, txs[..i]) == Some(state.Value())
      {
        var t := txs[i];
        assert txs[..i + 1] == txs[..i] + [t];
        L.RunSnoc(c, s, txs[..i], t);
        var verdict := L.ValidateTransaction(c, t, state.Value());
        if verdict.Fail? {
          StopsHere(c, s, txs, i);
          return Some(InvalidTx(i, verdict.error));
        }
        ValidIsApplicable(c, t, state.Value());
        var known := state.ApplyTransaction(t);
        assert known;
      }
      assert txs[..|txs|] == txs;
      RunsThrough(c, s, txs);
      failure := None;
    }

    /** The startup walk over the hash links. */
    method ValidateChain(c: Crypto) returns (valid: bool)
      requires Valid()
      ensures valid == ChainValid(c, blocks)
    {
      for i := 1 to |blocks|
        invariant forall k :: 1 <= k < i ==>
                    blocks[k].prevHash == blocks[k - 1].hash && BlockHash(c, HeaderOf(blocks[k])) == blocks[k].hash
      {
        if blocks[i].prevHash != blocks[i - 1].hash {
          return false;
        }
        if BlockHash(c, HeaderOf(blocks[i])) != blocks[i].hash {
          return false;
        }
      }
      valid := true;
    }
  }

  /** How the loop ends: at the first failure, or with the fold of all the transactions. */
  ghost predicate Ran(c: Crypto, s: L.State, txs: seq<Tx>, failure: Option<AddError>, after: L.State) {
    var n := FirstFailure(c, s, txs);
    if failure.None? then n == |txs| && L.Run(c, s, txs) == Some(after)
    else n < |txs| && failure == Some(InvalidTx(n, L.ValidateTransaction(c, txs[n], L.Run(c, s, txs[..n]).value).error))
  }

  lemma BlockRefused(c: Crypto, ch: Chain, b: Block, publicKey: string)
    requires |ch.blocks| > 0 && ValidateBlock(c, b, Tip(ch), publicKey).Fail?
    ensures Blocks.AddBlock(c, ch, b, publicKey) == Err(InvalidBlock(ValidateBlock(c, b, Tip(ch), publicKey).error))
  {
  }

  lemma BlockRan(c: Crypto, ch: Chain, b: Block, publicKey: string, failure: Option<AddError>, after: L.State)
    requires |ch.blocks| > 0 && ValidateBlock(c, b, Tip(ch), publicKey).Pass?
    requires Ran(c, ch.state, b.txs, failure, after)
    ensures Blocks.AddBlock(c, ch, b, publicKey) ==
            if failure.None? then Ok(Chain(ch.blocks + [b], after)) else Err(failure.value)
  {
    AddBlockRuns(c, ch, b, publicKey);
  }

  lemma ValidIsApplicable(c: Crypto, t: Tx, s: L.State)
    requires L.ValidateTransaction(c, t, s).Pass?
    ensures L.LockPresent(t, s) && !t.kind.Unknown?
  {
  }

  lemma RunsThrough(c: Crypto, s: L.State, txs: seq<Tx>)
    requires L.Run(c, s, txs).Some?
    ensures FirstFailure(c, s, txs) == |txs|
  {
    var n := FirstFailure(c, s, txs);
    if n < |txs| {
      Laws.RunPrefix(c, s, txs, n);
      assert false;
    }
  }

  /** The loop's first refusal is the pure loop's first failure. */
  lemma StopsHere(c: Crypto, s: L.State, txs: seq<Tx>, i: nat)
    requires i < |txs| && L.Run(c, s, txs[..i]).Some?
    requires L.Step(c, L.Run(c, s, txs[..i]).value, txs[i]).None?
    ensures FirstFailure(c, s, txs) == i
  {
    var n := FirstFailure(c, s, txs);
    if n < i {
      assert txs[..i][..n] == txs[..n] && txs[..i][n] == txs[n];
      Laws.RunPrefix(c, s, txs[..i], n);
      assert false;
    } else if n > i {
      assert txs[..n][..i] == txs[..i] && txs[..n][i] == txs[i];
      Laws.RunPrefix(c, s, txs[..n], i);
      assert false;
    }
  }
}
