/** Nobody's money is spent without a signature of the owner of the address. */
module Ownership {
  import opened Wrappers
  import opened Integers
  import opened Sums
  import opened Transactions
  import opened Ledger
  import opened LedgerLaws
  import opened Conservation
  import opened Rules

  /** What `a` has spent by a transaction that the owner of `a` has signed. */
  function Spent(c: Crypto, a: string): Tx -> int {
    (t: Tx) => if (t.kind.Transfer? || t.kind.Lock?) && t.from == a && OwnerSigned(c, t) then t.amount else 0
  }

  lemma StepSpends(c: Crypto, s: State, t: Tx, a: string)
    requires WellFormed(s) && NonNegative(s) && Step(c, s, t).Some? && Total(s) + Minted()(t) <= MAX
    ensures Get(Effect(t, s).balances, a) >= Get(s.balances, a) - Spent(c, a)(t)
    ensures Spent(c, a)(t) >= 0
  {
    ValidationIs(c, t, s);
    RoomUnderTheBound(t, s);
    BalancesAre(t, s);
    DebitsFit(t, s);
    hide CheckRules, Effect, WellFormed, Total;
    var before := BeforeCredit(t, s);
    assert Get(before, a) >= Get(s.balances, a) - Spent(c, a)(t);
  }

  /** Over a run that does not wrap, a balance goes down by no more than its owner has signed for. */
  lemma {:induction false} OnlyOwnersSpend(c: Crypto, s: State, txs: seq<Tx>, a: string)
    requires WellFormed(s) && NonNegative(s) && Run(c, s, txs).Some? && Total(s) + SumBy(Minted(), txs) <= MAX
    ensures Get(Run(c, s, txs).value.balances, a) >= Get(s.balances, a) - SumBy(Spent(c, a), txs)
  {
    if |txs| == 0 {
    } else {
      var front, t := txs[..|txs| - 1], txs[|txs| - 1];
      var mid := Run(c, s, front).value;
      MintedIsPositive(t, mid);
      OnlyOwnersSpend(c, s, front, a);
      RunKeeps(c, s, front);
      RunConserves(c, s, front);
      StepSpends(c, mid, t, a);
    }
  }

  /** So if it went down, there is a TRANSFER or LOCK signed with a key of that address. */
  lemma TheftNeedsTheKey(c: Crypto, s: State, txs: seq<Tx>, a: string) returns (i: nat)
    requires WellFormed(s) && NonNegative(s) && Run(c, s, txs).Some? && Total(s) + SumBy(Minted(), txs) <= MAX
    requires Get(Run(c, s, txs).value.balances, a) < Get(s.balances, a)
    ensures i < |txs| && (txs[i].kind.Transfer? || txs[i].kind.Lock?) && txs[i].from == a
    ensures c.Address(txs[i].publicKey) == a
    ensures c.Verify(txs[i].publicKey, c.Sha(c.TxBytes(Canon(txs[i]))), txs[i].signature)
  {
    OnlyOwnersSpend(c, s, txs, a);
    i := SomeSpend(c, a, txs);
  }

  lemma {:induction false} SomeSpend(c: Crypto, a: string, txs: seq<Tx>) returns (i: nat)
    requires SumBy(Spent(c, a), txs) > 0
    ensures i < |txs| && Spent(c, a)(txs[i]) > 0
  {
    var n := |txs| - 1;
    if Spent(c, a)(txs[n]) > 0 {
      i := n;
    } else {
      i := SomeSpend(c, a, txs[..n]);
    }
  }
}
