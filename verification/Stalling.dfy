/** One transaction that can never be valid again keeps a proposer from producing any block. */
module Stalling {
  import opened Wrappers
  import opened Integers
  import opened Transactions
  import opened Ledger
  import opened LedgerLaws
  import opened Blocks
  import opened Consensus
  import opened Draining
  import opened Replication
  import K = Coupling
  import W = Workflow

  /** Whatever up to `n` transactions run first, this one is then refused. */
  ghost predicate DeadFor(c: Crypto, t: Tx, s: State, n: nat) {
    forall txs :: |txs| <= n && Run(c, s, txs).Some? ==> ValidateTransaction(c, t, Run(c, s, txs).value).Fail?
  }

  /**
   * A mempool that fits in one block and holds such a transaction stalls its node: every drain contains it, so every
   * proposal fails the node's own acceptance, nothing is handed out, and nothing changes for the next turn.
   */
  lemma DeadStalls(c: Crypto, vs: ValidatorSet, localId: string, privateKey: string, e: EngineState, id: string,
                   pending: seq<Tx>, timestamp: int)
    requires |e.chain.blocks| > 0 && |e.mempool| <= MAX_TXS_PER_BLOCK && id in e.mempool
    requires DeadFor(c, e.mempool[id], e.chain.state, MAX_TXS_PER_BLOCK)
    requires IsPending(e.mempool, MAX_TXS_PER_BLOCK, pending)
    ensures Produce(c, vs, localId, privateKey, e, pending, timestamp) == (e, None)
  {
    DeadNeverRuns(c, e, id, pending);
    var proposal := ProposeBlock(c, vs, localId, privateKey, e, pending, timestamp);
    if proposal.Ok? && ProposerCheck(vs, proposal.value).Pass? {
      AddBlockRuns(c, e.chain, proposal.value, PublicKeyFor(vs, proposal.value.validatorId).value);
    }
  }

  lemma DeadNeverRuns(c: Crypto, e: EngineState, id: string, pending: seq<Tx>)
    requires |e.mempool| <= MAX_TXS_PER_BLOCK && id in e.mempool
    requires DeadFor(c, e.mempool[id], e.chain.state, MAX_TXS_PER_BLOCK)
    requires IsPending(e.mempool, MAX_TXS_PER_BLOCK, pending)
    ensures Run(c, e.chain.state, pending).None?
  {
    var ids :| Drawn(e.mempool, ids, pending);
    var j := DrawnCovers(e.mempool, ids, pending, id);
    if Run(c, e.chain.state, pending).Some? {
      RunPrefix(c, e.chain.state, pending, j);
      assert false;
    }
  }

  /** A TRANSFER or LOCK that the chain already holds is dead. */
  lemma StaleIsDead(c: Crypto, allocations: map<string, int64>, ch: Chain, i: nat, again: Tx, n: nat)
    requires Derived(c, allocations, ch) && i < |AllTxs(ch.blocks)| && |AllTxs(ch.blocks)| + n <= MAX
    requires Canon(again) == Canon(AllTxs(ch.blocks)[i]) && (again.kind.Transfer? || again.kind.Lock?)
    ensures DeadFor(c, again, ch.state, n)
  {
    var done := AllTxs(ch.blocks);
    assert again.kind == Canon(again).kind;
    forall txs | |txs| <= n && Run(c, ch.state, txs).Some?
      ensures ValidateTransaction(c, again, Run(c, ch.state, txs).value).Fail?
    {
      RunConcat(c, Initial(allocations), done, txs);
      assert (done + txs)[i] == done[i];
      CommittedIsNeverValidAgain(c, Initial(allocations), done + txs, i, again);
    }
  }

  /** So is a release or award, signed or not, that a refund committed first has stranded. */
  lemma StrandedIsDead(c: Crypto, w: W.World, i: nat, j: nat, signed: Tx, n: nat)
    requires K.Coupled(w) && i < |w.pool| && j < |w.pool| && Canon(signed) == Canon(w.pool[i])
    requires w.pool[j].kind.Refund? && !w.pool[i].kind.Refund? && CheckRules(w.pool[j], w.ledger).Pass?
    ensures DeadFor(c, signed, Effect(w.pool[j], w.ledger), n)
  {
    var refunded := Effect(w.pool[j], w.ledger);
    K.RefundedLock(w.ledger, w.pool[j]);
    forall txs | |txs| <= n && Run(c, refunded, txs).Some?
      ensures ValidateTransaction(c, signed, Run(c, refunded, txs).value).Fail?
    {
      var later := Run(c, refunded, txs).value;
      RunKeeps(c, refunded, txs);
      K.RefundStrandsReleases(w, i, j, later);
      SameRules(signed, w.pool[i], later);
    }
  }

  /** Together: a node whose mempool still holds a stranded release after the refund produces nothing any more. */
  lemma StrandedReleaseStalls(c: Crypto, vs: ValidatorSet, localId: string, privateKey: string, e: EngineState,
                              w: W.World, i: nat, j: nat, id: string, pending: seq<Tx>, timestamp: int)
    requires K.Coupled(w) && i < |w.pool| && j < |w.pool|
    requires w.pool[j].kind.Refund? && !w.pool[i].kind.Refund? && CheckRules(w.pool[j], w.ledger).Pass?
    requires |e.chain.blocks| > 0 && e.chain.state == Effect(w.pool[j], w.ledger)
    requires |e.mempool| <= MAX_TXS_PER_BLOCK && id in e.mempool && Canon(e.mempool[id]) == Canon(w.pool[i])
    requires IsPending(e.mempool, MAX_TXS_PER_BLOCK, pending)
    ensures Produce(c, vs, localId, privateKey, e, pending, timestamp) == (e, None)
  {
    StrandedIsDead(c, w, i, j, e.mempool[id], MAX_TXS_PER_BLOCK);
    DeadStalls(c, vs, localId, privateKey, e, id, pending, timestamp);
  }
}
