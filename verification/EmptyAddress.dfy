/** What a restart from the store can cost a node: a balance under the empty address, which no rule ever reads. */
module EmptyAddress {
  import opened Wrappers
  import opened Integers
  import opened Transactions
  import opened Ledger
  import opened LedgerLaws
  import opened Blocks
  import opened Consensus

  /** Equal, except perhaps for a balance under the empty address. */
  predicate SameBut(x: State, y: State) {
    x.nonces == y.nonces && x.locked == y.locked && x.balances - {""} == y.balances - {""}
  }

  /** What LoadState makes of a saved state (Storage.StateReadBackIff). */
  function Reloaded(s: State): State {
    s.(balances := s.balances - {""})
  }

  lemma ReloadedIsSame(s: State)
    ensures SameBut(s, Reloaded(s))
    ensures Reloaded(s) == s <==> "" !in s.balances
  {
    if "" in s.balances {
      assert "" !in Reloaded(s).balances;
    } else {
      assert s.balances - {""} == s.balances;
    }
  }

  lemma SameElsewhere(x: State, y: State, a: string)
    requires SameBut(x, y) && a != ""
    ensures a in x.balances <==> a in y.balances
    ensures Get(x.balances, a) == Get(y.balances, a)
  {
    assert a in x.balances <==> a in x.balances - {""};
    assert a in y.balances <==> a in y.balances - {""};
    assert a in x.balances ==> x.balances[a] == (x.balances - {""})[a] == (y.balances - {""})[a];
  }

  /** No rule reads the balance of the empty address. */
  lemma RulesAreBlind(t: Tx, x: State, y: State)
    requires SameBut(x, y)
    ensures CheckRules(t, x) == CheckRules(t, y)
  {
    if t.from != "" {
      SameElsewhere(x, y, t.from);
    }
  }

  lemma CreditsAreSame(m: map<string, int64>, n: map<string, int64>, k: string, v: int64, w: int64)
    requires m - {""} == n - {""} && (k != "" ==> v == w)
    ensures m[k := v] - {""} == n[k := w] - {""}
  {
    var l, r := m[k := v] - {""}, n[k := w] - {""};
    forall a
      ensures a in l <==> a in r
      ensures a in l ==> l[a] == r[a]
    {
      if a != "" {
        assert a in m - {""} <==> a in m;
        assert a in n - {""} <==> a in n;
        assert a in m ==> m[a] == (m - {""})[a] == (n - {""})[a] == n[a];
      }
    }
  }

  lemma EffectsAreSame(t: Tx, x: State, y: State)
    requires SameBut(x, y) && CheckRules(t, x).Pass? && CheckRules(t, y).Pass?
    ensures SameBut(Effect(t, x), Effect(t, y))
  {
    var m, n := x.balances, y.balances;
    if t.kind.Transfer? || t.kind.Lock? {
      SameElsewhere(x, y, t.from);
      var debited := Sub(Get(m, t.from), t.amount);
      CreditsAreSame(m, n, t.from, debited, debited);
      m, n := m[t.from := debited], n[t.from := debited];
    }
    if t.to != "" {
      SameElsewhere(State(m, x.locked, x.nonces), State(n, y.locked, y.nonces), t.to);
    }
    var paid := if t.kind.Refund? then x.locked[t.contractId].amount else t.amount;
    CreditsAreSame(m, n, t.to, Add(Get(m, t.to), paid), Add(Get(n, t.to), paid));
  }

  lemma {:induction false} RunsAreSame(c: Crypto, x: State, y: State, txs: seq<Tx>)
    requires SameBut(x, y)
    ensures Run(c, x, txs).Some? <==> Run(c, y, txs).Some?
    ensures Run(c, x, txs).Some? ==> SameBut(Run(c, x, txs).value, Run(c, y, txs).value)
  {
    if |txs| == 0 {
    } else {
      var front, t := txs[..|txs| - 1], txs[|txs| - 1];
      RunsAreSame(c, x, y, front);
      if Run(c, x, front).Some? {
        var mx, my := Run(c, x, front).value, Run(c, y, front).value;
        RulesAreBlind(t, mx, my);
        if CheckRules(t, mx).Pass? {
          EffectsAreSame(t, mx, my);
        }
      }
    }
  }

  /** A chain that has lost such a balance takes the same blocks, and stays the same otherwise. */
  lemma AddsAlike(c: Crypto, ch: Chain, full: State, b: Block, key: string)
    requires |ch.blocks| > 0 && SameBut(full, ch.state)
    ensures var whole := Chain(ch.blocks, full);
            && (AddBlock(c, ch, b, key).Ok? <==> AddBlock(c, whole, b, key).Ok?)
            && (AddBlock(c, ch, b, key).Ok? ==>
                  && AddBlock(c, ch, b, key).value.blocks == AddBlock(c, whole, b, key).value.blocks == ch.blocks + [b]
                  && SameBut(AddBlock(c, whole, b, key).value.state, AddBlock(c, ch, b, key).value.state))
  {
    hide ValidateBlock, AddBlock, Run, SameBut, FirstFailure;
    RunsAreSame(c, full, ch.state, b.txs);
    AddBlockRuns(c, ch, b, key);
    AddBlockRuns(c, Chain(ch.blocks, full), b, key);
  }

  /** A node that has lost such a balance accepts the same blocks. */
  lemma AcceptsAlike(c: Crypto, vs: ValidatorSet, e: EngineState, full: State, b: Block)
    requires |e.chain.blocks| > 0 && SameBut(full, e.chain.state)
    ensures var f := EngineState(Chain(e.chain.blocks, full), e.mempool);
            && (AcceptBlock(c, vs, e, b).Ok? <==> AcceptBlock(c, vs, f, b).Ok?)
            && (AcceptBlock(c, vs, e, b).Ok? ==>
                  && AcceptBlock(c, vs, e, b).value.chain.blocks == AcceptBlock(c, vs, f, b).value.chain.blocks
                  && SameBut(AcceptBlock(c, vs, f, b).value.chain.state, AcceptBlock(c, vs, e, b).value.chain.state))
  {
    hide AddBlock, SameBut;
    if ProposerCheck(vs, b).Pass? {
      AddsAlike(c, e.chain, full, b, PublicKeyFor(vs, b.validatorId).value);
    }
  }

  // ----- Chains that have been through restarts -----

  /** The state is the fold of all transactions, except perhaps for a balance under the empty address. */
  predicate DerivedBut(c: Crypto, allocations: map<string, int64>, ch: Chain) {
    && Linked(c, ch.blocks)
    && Run(c, Initial(allocations), AllTxs(ch.blocks)).Some?
    && SameBut(Run(c, Initial(allocations), AllTxs(ch.blocks)).value, ch.state)
  }

  function Whole(c: Crypto, allocations: map<string, int64>, ch: Chain): Chain
    requires DerivedBut(c, allocations, ch)
  {
    Chain(ch.blocks, Run(c, Initial(allocations), AllTxs(ch.blocks)).value)
  }

  lemma DerivedButWellFormed(c: Crypto, allocations: map<string, int64>, ch: Chain)
    requires DerivedBut(c, allocations, ch)
    ensures WellFormed(ch.state) && ChainValid(c, ch.blocks)
    ensures forall i :: 0 <= i < |ch.blocks| ==> ch.blocks[i].index == i
  {
    hide ChainValid;
    DerivedWellFormed(c, allocations, Whole(c, allocations, ch));
    DerivedChainIsValid(c, allocations, Whole(c, allocations, ch));
  }

  lemma AddBlockDerivedBut(c: Crypto, allocations: map<string, int64>, ch: Chain, b: Block, key: string)
    requires DerivedBut(c, allocations, ch) && AddBlock(c, ch, b, key).Ok?
    ensures DerivedBut(c, allocations, AddBlock(c, ch, b, key).value)
  {
    hide AddBlock, SameBut, Linked;
    var whole := Whole(c, allocations, ch);
    assert |ch.blocks| > 0 by { LinkedHasBlocks(c, ch.blocks); }
    AddsAlike(c, ch, whole.state, b, key);
    AddBlockDerived(c, allocations, whole, b, key);
  }

  lemma LinkedHasBlocks(c: Crypto, blocks: seq<Block>)
    requires Linked(c, blocks)
    ensures |blocks| > 0
  {
  }

  lemma ReloadedDerivedBut(c: Crypto, allocations: map<string, int64>, ch: Chain)
    requires DerivedBut(c, allocations, ch)
    ensures DerivedBut(c, allocations, Chain(ch.blocks, Reloaded(ch.state)))
  {
    ReloadedIsSame(ch.state);
  }
}
