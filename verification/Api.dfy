/** The escrow handlers of the API server: what each does to a contract object, the mempool and the store, in order. */
module Api {
  import opened Wrappers
  import opened Integers
  import opened Transactions
  import opened Blockchain
  import opened Mempool
  import opened Contracts
  import opened Store
  import L = Ledger
  import K = Storage
  import O = WorldState
  import E = Escrow
  import W = Workflow
  import EL = EscrowLaws
  import R = ContractRecords

  /** Every contract is filed under its own ID, and no two share a milestone object. */
  ghost predicate Registered(contracts: map<string, Contract>) {
    && (forall k :: k in contracts ==> contracts[k].Valid() && contracts[k].id == k)
    && (forall k1, k2 :: k1 in contracts && k2 in contracts && k1 != k2 ==>
          contracts[k1].Footprint() !! contracts[k2].Footprint())
  }

  lemma Filed(contracts: map<string, Contract>, c: Contract)
    requires Registered(contracts) && c.Valid() && c.id !in contracts
    requires forall k :: k in contracts ==> contracts[k].Footprint() !! c.Footprint()
    ensures Registered(contracts[c.id := c])
  {
  }

  class Server {
    const authority: W.Authority
    const chain: Blockchain
    const mempool: Mempool
    const store: Store
    const encode: E.Contract -> string
    var contracts: map<string, Contract>
    var opCounter: int64

    constructor (authority: W.Authority, chain: Blockchain, mempool: Mempool, store: Store, encode: E.Contract -> string)
      requires chain.Valid()
      ensures Valid() && contracts == map[] && opCounter == 0
      ensures this.authority == authority && this.chain == chain && this.mempool == mempool
      ensures this.store == store && this.encode == encode
    {
      this.authority, this.chain, this.mempool, this.store, this.encode := authority, chain, mempool, store, encode;
      contracts, opCounter := map[], 0;
    }

    ghost predicate Valid()
      reads this, chain, chain.state
    {
      chain.Valid() && Registered(contracts)
    }

    /** What a request for this ID may change beside the server itself. */
    ghost function Reach(id: string): set<object>
      reads this
    {
      {this, mempool, store} + if id in contracts then contracts[id].Footprint() else {}
    }

    /** A handler ends with the contract written to the store, or leaves the store alone. */
    ghost predicate SavedIf(done: bool, id: string, before: K.KeyValues)
      requires id in contracts
      reads this, store, contracts[id], contracts[id].milestones
    {
      store.db == if done then before[K.CONTRACT + id := encode(contracts[id].Value())] else before
    }

    /** The stored record is the contract in memory. */
    ghost predicate InStep(id: string)
      requires id in contracts
      reads this, store, contracts[id], contracts[id].milestones
    {
      K.Lookup(store.db, K.CONTRACT + id) == Some(encode(contracts[id].Value()))
    }

    method Save(c: Contract)
      modifies this`contracts, store
      ensures contracts == old(contracts)[c.id := c]
      ensures store.db == old(store.db)[K.CONTRACT + c.id := encode(c.Value())]
    {
      contracts := contracts[c.id := c];
      store.SaveContract(c.id, encode(c.Value()));
    }

    method NextOpNonce() returns (nonce: int64)
      modifies this`opCounter
      ensures nonce == opCounter == Add(old(opCounter), 1)
    {
      opCounter := Add(opCounter, 1);
      nonce := opCounter;
    }

    /** Validates against the current state, then adds to the mempool; an ID already pending is not replaced. */
    method SubmitTx(t: Tx) returns (verdict: Outcome<L.TxError>)
      requires chain.Valid()
      modifies mempool
      ensures verdict == L.ValidateTransaction(authority.k, t, chain.state.Value())
      ensures mempool.txs == if verdict.Pass? && t.id !in old(mempool.txs) then old(mempool.txs)[t.id := t] else old(mempool.txs)
    {
      verdict := L.ValidateTransaction(authority.k, t, chain.state.Value());
      if verdict.Pass? {
        var _ := mempool.Add(t);
      }
    }

    method SignAndSubmit(built: Result<Tx, E.EscrowError>) returns (reply: W.Reply)
      requires chain.Valid()
      modifies mempool
      ensures (mempool.txs, reply) == W.SignAndSubmit(authority, chain.state.Value(), old(mempool.txs), built)
    {
      if built.Err? {
        return W.BuildFailed(built.error);
      }
      var signed := SignTx(authority.k, built.value, authority.privateKey, authority.publicKey);
      if signed.None? {
        return W.SigningFailed;
      }
      var verdict := SubmitTx(signed.value);
      reply := match verdict case Fail(e) => W.TxRejected(e) case Pass => W.Done;
    }

    method NewMilestones(id: string, wanted: seq<W.MilestoneRequest>) returns (milestones: seq<Milestone>)
      ensures fresh(milestones) && Distinct(milestones) && Values(milestones) == W.Requested(id, wanted)
    {
      hide Values;
      milestones := [];
      for i := 0 to |wanted|
        invariant |milestones| == i && fresh(milestones) && Distinct(milestones)
        invariant forall j :: 0 <= j < i ==> milestones[j].Value() == W.Requested(id, wanted)[j]
      {
        var m := new Milestone(wanted[i].id, id, wanted[i].title, wanted[i].amount);
        milestones := milestones + [m];
      }
    }

    /** A new contract over new milestones, or null when their total is not positive. */
    method Draft(id: string, investor: string, founder: string, wanted: seq<W.MilestoneRequest>, now: int)
      returns (c: Contract?)
      ensures c == null <==> E.NewContract(id, investor, founder, W.Requested(id, wanted), now).Err?
      ensures c != null ==> c.Valid() && c.id == id && fresh(c.Footprint())
      ensures c != null ==> E.NewContract(id, investor, founder, W.Requested(id, wanted), now) == Ok(c.Value())
    {
      hide Values, E.NewContract, W.Requested;
      var milestones := NewMilestones(id, wanted);
      c := NewContract(id, investor, founder, milestones, now);
    }

    /** Refused when a field is missing, when the ID is taken, or when the total is not positive. */
    method HandleCreateContract(id: string, investor: string, founder: string, wanted: seq<W.MilestoneRequest>, now: int)
      returns (created: bool)
      requires Valid()
      modifies this`contracts, store
      ensures Valid()
      ensures created <==>
              && id != "" && investor != "" && founder != "" && |wanted| > 0 && id !in old(contracts)
              && E.NewContract(id, investor, founder, W.Requested(id, wanted), now).Ok?
      ensures !created ==> contracts == old(contracts) && store.db == old(store.db)
      ensures created ==> id in contracts && contracts == old(contracts)[id := contracts[id]] && fresh(contracts[id].Footprint())
      ensures created ==> Ok(contracts[id].Value()) == E.NewContract(id, investor, founder, W.Requested(id, wanted), now)
      ensures created ==> SavedIf(true, id, old(store.db)) && InStep(id)
    {
      hide Contract.Value, Registered, E.NewContract, W.Requested;
      if id == "" || investor == "" || founder == "" || |wanted| == 0 || id in contracts {
        return false;
      }
      var c := Draft(id, investor, founder, wanted, now);
      if c == null {
        return false;
      }
      Filed(contracts, c);
      Save(c);
      created := true;
    }

    // ----- What a handler does once it has found the contract -----

    /** Two transitions in a row once the lock is on chain. */
    method ConfirmFunded(contract: Contract, now: int) returns (reply: W.Reply)
      requires chain.Valid()
      modifies contract
      ensures (contract.Value(), reply) == W.ConfirmFunded(old(contract.Value()), old(chain.state.Value()), now)
    {
      hide Values, E.Transition;
      var s := chain.state;
      if contract.id !in s.locked {
        return W.NoLockYet;
      }
      if s.locked[contract.id].amount != contract.totalAmount {
        return W.AmountMismatch;
      }
      var error := contract.Advance(E.StateFunded, now);
      if error.Some? {
        return W.UpdateFailed(error.value);
      }
      error := contract.Advance(E.StateInProgress, now);
      reply := W.Ended(error);
    }

    /** The release is submitted first and the milestone approved second, with no way back in between. */
    method Release(contract: Contract, milestoneId: string, now: int) returns (reply: W.Reply)
      requires chain.Valid() && contract.Valid()
      modifies this`opCounter, mempool, contract.Footprint()
      ensures opCounter == Add(old(opCounter), 1)
      ensures (contract.Value(), mempool.txs, reply) ==
              W.ReleaseHandler(authority, old(contract.Value()), old(chain.state.Value()), old(mempool.txs), milestoneId, opCounter, now)
    {
      hide W.SignAndSubmit, E.ApproveMilestone, E.BuildMilestoneReleaseTx, Contract.Value, O.State.Value;
      var nonce := NextOpNonce();
      var tx := contract.BuildMilestoneReleaseTx(authority.k, milestoneId, authority.address, nonce, now);
      reply := SignAndSubmit(tx);
      if reply == W.Done {
        var error := contract.ApproveMilestone(milestoneId, now);
        reply := W.Ended(error);
      }
    }

    method Arbitrate(contract: Contract, milestoneId: string, awardTo: string, amount: int64, terminate: bool, now: int)
      returns (reply: W.Reply)
      requires chain.Valid() && contract.Valid()
      modifies this`opCounter, mempool, contract.Footprint()
      ensures opCounter == Add(old(opCounter), 1)
      ensures (contract.Value(), mempool.txs, reply) ==
              W.ArbitrateHandler(authority, old(contract.Value()), old(chain.state.Value()), old(mempool.txs),
                                 milestoneId, awardTo, amount, terminate, opCounter, now)
    {
      hide W.SignAndSubmit, E.ResolveArbitration, E.BuildArbitrationTx, Contract.Value, O.State.Value;
      var nonce := NextOpNonce();
      var tx := contract.BuildArbitrationTx(authority.k, milestoneId, authority.address, awardTo, amount, nonce, now);
      reply := SignAndSubmit(tx);
      if reply == W.Done {
        var error := contract.ResolveArbitration(milestoneId, terminate, now);
        reply := W.Ended(error);
      }
    }

    method Refund(contract: Contract, now: int) returns (reply: W.Reply)
      requires chain.Valid()
      modifies this`opCounter, mempool, contract
      ensures opCounter == Add(old(opCounter), 1)
      ensures (contract.Value(), mempool.txs, reply) ==
              W.RefundHandler(authority, old(contract.Value()), old(chain.state.Value()), old(mempool.txs), opCounter, now)
    {
      hide W.SignAndSubmit, E.BuildRefundTx, E.Advance, Contract.Value, O.State.Value;
      var nonce := NextOpNonce();
      var tx := contract.BuildRefundTx(authority.k, authority.address, nonce, now);
      reply := SignAndSubmit(tx);
      if reply == W.Done {
        var error := contract.Advance(E.StateTerminated, now);
        reply := W.Ended(error);
      }
    }

    // ----- The handlers: None for an unknown contract; saved only when every step went through -----

    method HandleConfirmFunded(id: string, now: int) returns (reply: Option<W.Reply>)
      requires Valid()
      modifies Reach(id)
      ensures Valid() && contracts == old(contracts) && mempool.txs == old(mempool.txs) && opCounter == old(opCounter)
      ensures reply.None? <==> id !in contracts
      ensures reply.None? ==> store.db == old(store.db)
      ensures reply.Some? ==>
                && (contracts[id].Value(), reply.value) ==
                   W.ConfirmFunded(old(contracts[id].Value()), old(chain.state.Value()), now)
                && SavedIf(reply.value.Done?, id, old(store.db))
      ensures reply.Some? && old(InStep(id)) ==> InStep(id)
    {
      hide W.ConfirmFunded, Contract.Value, O.State.Value;
      if id !in contracts {
        return None;
      }
      var contract := contracts[id];
      assert contract.Valid() && contract.id == id;
      hide Registered;
      var ended := ConfirmFunded(contract, now);
      if ended == W.Done {
        Save(contract);
      }
      R.ConfirmationIsSaved(old(contracts[id].Value()), old(chain.state.Value()), now);
      reply := Some(ended);
    }

    method HandleReleaseMilestone(id: string, milestoneId: string, now: int) returns (reply: Option<W.Reply>)
      requires Valid()
      modifies Reach(id)
      ensures Valid() && contracts == old(contracts)
      ensures reply.None? <==> id !in contracts
      ensures reply.None? ==> opCounter == old(opCounter) && mempool.txs == old(mempool.txs) && store.db == old(store.db)
      ensures reply.Some? ==>
                && opCounter == Add(old(opCounter), 1)
                && (contracts[id].Value(), mempool.txs, reply.value) ==
                   W.ReleaseHandler(authority, old(contracts[id].Value()), old(chain.state.Value()), old(mempool.txs),
                                    milestoneId, opCounter, now)
                && SavedIf(reply.value.Done?, id, old(store.db))
      ensures reply.Some? && old(InStep(id)) && EL.Consistent(old(contracts[id].Value())) ==> InStep(id)
    {
      hide EL.Consistent, W.ReleaseHandler, Contract.Value, O.State.Value;
      if id !in contracts {
        return None;
      }
      var contract := contracts[id];
      assert contract.Valid() && contract.id == id;
      hide Registered;
      var ended := Release(contract, milestoneId, now);
      if ended == W.Done {
        Save(contract);
      }
      if EL.Consistent(old(contract.Value())) {
        R.ReleaseIsSaved(authority, old(contracts[id].Value()), old(chain.state.Value()), old(mempool.txs), milestoneId, opCounter, now);
      }
      reply := Some(ended);
    }

    method HandleArbitrate(id: string, milestoneId: string, awardTo: string, amount: int64, terminate: bool, now: int) returns (reply: Option<W.Reply>)
      requires Valid()
      modifies Reach(id)
      ensures Valid() && contracts == old(contracts)
      ensures reply.None? <==> id !in contracts
      ensures reply.None? ==> opCounter == old(opCounter) && mempool.txs == old(mempool.txs) && store.db == old(store.db)
      ensures reply.Some? ==>
                && opCounter == Add(old(opCounter), 1)
                && (contracts[id].Value(), mempool.txs, reply.value) ==
                   W.ArbitrateHandler(authority, old(contracts[id].Value()), old(chain.state.Value()), old(mempool.txs),
                                      milestoneId, awardTo, amount, terminate, opCounter, now)
                && SavedIf(reply.value.Done?, id, old(store.db))
      ensures reply.Some? && old(InStep(id)) ==>
                (InStep(id) <==> reply.value.Done? || encode(contracts[id].Value()) == encode(old(contracts[id].Value())))
    {
      hide W.ArbitrateHandler, Contract.Value, O.State.Value;
      if id !in contracts {
        return None;
      }
      var contract := contracts[id];
      assert contract.Valid() && contract.id == id;
      hide Registered;
      var ended := Arbitrate(contract, milestoneId, awardTo, amount, terminate, now);
      if ended == W.Done {
        Save(contract);
      }
      reply := Some(ended);
    }

    method HandleRefund(id: string, now: int) returns (reply: Option<W.Reply>)
      requires Valid()
      modifies Reach(id)
      ensures Valid() && contracts == old(contracts)
      ensures reply.None? <==> id !in contracts
      ensures reply.None? ==> opCounter == old(opCounter) && mempool.txs == old(mempool.txs) && store.db == old(store.db)
      ensures reply.Some? ==>
                && opCounter == Add(old(opCounter), 1)
                && (contracts[id].Value(), mempool.txs, reply.value) ==
                   W.RefundHandler(authority, old(contracts[id].Value()), old(chain.state.Value()), old(mempool.txs),
                                   opCounter, now)
                && SavedIf(reply.value.Done?, id, old(store.db))
      ensures reply.Some? && old(InStep(id)) ==> InStep(id)
    {
      hide W.RefundHandler, Contract.Value, O.State.Value;
      if id !in contracts {
        return None;
      }
      var contract := contracts[id];
      assert contract.Valid() && contract.id == id;
      hide Registered;
      var ended := Refund(contract, now);
      if ended == W.Done {
        Save(contract);
      }
      R.RefundIsSaved(authority, old(contracts[id].Value()), old(chain.state.Value()), old(mempool.txs), opCounter, now);
      reply := Some(ended);
    }
  }
}
