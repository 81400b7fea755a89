/** Money is neither created nor lost, except by MINT and by the turn of an int64. */
module Conservation {
  import opened Wrappers
  import opened Integers
  import opened Sums
  import opened Transactions
  import opened Ledger
  import opened LedgerLaws

  function Value(x: int64): int {
    x
  }

  function Held(l: EscrowLock): int {
    l.amount
  }

  /** All balances plus everything in escrow. */
  ghost function Total(s: State): int {
    MapSum(Value, s.balances) + MapSum(Held, s.locked)
  }

  ghost predicate NonNegative(s: State) {
    forall a :: a in s.balances ==> s.balances[a] >= 0
  }

  /** What a transaction adds to the balance of its recipient. */
  function Credited(t: Tx, s: State): int64
    requires LockPresent(t, s)
  {
    match t.kind
    case Refund => s.locked[t.contractId].amount
    case Lock => 0
    case FreezeDispute => 0
    case Unknown(_) => 0
    case _ => t.amount
  }

  /** The balances at the moment the recipient is credited. */
  function BeforeCredit(t: Tx, s: State): map<string, int64> {
    if t.kind.Transfer? || t.kind.Lock? then Debit(s.balances, t.from, t.amount) else s.balances
  }

  /** A test a caller can make before the call: the recipient's balance has room for the credit. */
  predicate HasRoom(t: Tx, s: State)
    requires LockPresent(t, s)
  {
    Get(BeforeCredit(t, s), t.to) + Credited(t, s) <= MAX
  }

  /** What leaves the sender's balance. */
  function Debited(t: Tx): int {
    if t.kind.Transfer? || t.kind.Lock? then t.amount else 0
  }

  lemma DebitKeeps(t: Tx, s: State)
    requires NonNegative(s) && CheckRules(t, s).Pass?
    ensures MapSum(Value, BeforeCredit(t, s)) == MapSum(Value, s.balances) - Debited(t)
    ensures forall a :: a in BeforeCredit(t, s) ==> BeforeCredit(t, s)[a] >= 0
    ensures forall a :: 0 <= Get(BeforeCredit(t, s), a) <= MapSum(Value, BeforeCredit(t, s))
  {
    if t.kind.Transfer? || t.kind.Lock? {
      MapSumUpdate(Value, s.balances, t.from, Sub(Get(s.balances, t.from), t.amount));
    }
    MapSumNonNegative(Value, BeforeCredit(t, s));
  }

  lemma BalancesAre(t: Tx, s: State)
    requires WellFormed(s) && CheckRules(t, s).Pass?
    ensures Effect(t, s).balances ==
            if Credited(t, s) == 0 then BeforeCredit(t, s) else Credit(BeforeCredit(t, s), t.to, Credited(t, s))
    ensures Credited(t, s) >= 0
  {
    if t.kind.Refund? {
      assert LockOk(t.contractId, s.locked[t.contractId]);
    }
  }

  lemma CreditSum(m: map<string, int64>, k: string, x: int64)
    requires 0 < x && forall a :: a in m ==> m[a] >= 0
    ensures MapSum(Value, Credit(m, k, x)) == MapSum(Value, m) + x - (if Get(m, k) + x > MAX then TWO64 else 0)
    ensures (forall a :: a in Credit(m, k, x) ==> Credit(m, k, x)[a] >= 0) <==> Get(m, k) + x <= MAX
  {
    var after := Add(Get(m, k), x);
    MapSumUpdate(Value, m, k, after);
    assert Credit(m, k, x)[k] == after;
  }

  lemma EscrowKeeps(s: State)
    requires WellFormed(s)
    ensures MapSum(Held, s.locked) >= 0
    ensures forall c :: c in s.locked ==> 0 <= s.locked[c].amount <= MapSum(Held, s.locked)
  {
    forall c | c in s.locked
      ensures Held(s.locked[c]) >= 0
    {
      assert LockOk(c, s.locked[c]);
    }
    MapSumNonNegative(Held, s.locked);
    assert forall c :: c in s.locked ==> Held(s.locked[c]) == s.locked[c].amount;
  }

  /** A transaction rewrites at most the entry of its own contract. */
  lemma EntryAfter(t: Tx, s: State)
    requires WellFormed(s) && CheckRules(t, s).Pass? && !t.kind.Mint? && !t.kind.Transfer?
    ensures t.contractId in Effect(t, s).locked
    ensures Effect(t, s).locked == s.locked[t.contractId := Effect(t, s).locked[t.contractId]]
    ensures Effect(t, s).locked[t.contractId].amount ==
            (if t.contractId in s.locked then s.locked[t.contractId].amount else 0) + Debited(t) - Credited(t, s)
  {
    if t.contractId in s.locked {
      assert LockOk(t.contractId, s.locked[t.contractId]);
    }
  }

  lemma EscrowAfter(t: Tx, s: State)
    requires WellFormed(s) && CheckRules(t, s).Pass?
    ensures MapSum(Held, Effect(t, s).locked) ==
            MapSum(Held, s.locked) + Minted()(t) + Debited(t) - Credited(t, s)
  {
    if !t.kind.Mint? && !t.kind.Transfer? {
      hide CheckRules, Effect, WellFormed, Credited;
      EntryAfter(t, s);
      MapSumUpdate(Held, s.locked, t.contractId, Effect(t, s).locked[t.contractId]);
    }
  }

  /**
   * One valid transaction conserves money exactly when its recipient has room; otherwise a whole turn of the
   * int64 vanishes and a balance goes negative.
   */
  lemma StepConservesIff(t: Tx, s: State)
    requires WellFormed(s) && NonNegative(s) && CheckRules(t, s).Pass?
    ensures Total(Effect(t, s)) == Total(s) + Minted()(t) <==> HasRoom(t, s)
    ensures NonNegative(Effect(t, s)) <==> HasRoom(t, s)
    ensures !HasRoom(t, s) ==> Total(Effect(t, s)) == Total(s) + Minted()(t) - TWO64
  {
    var s' := Effect(t, s);
    var before, x := BeforeCredit(t, s), Credited(t, s);
    assert MapSum(Held, s'.locked) == MapSum(Held, s.locked) + Minted()(t) + Debited(t) - x by {
      EscrowAfter(t, s);
    }
    DebitKeeps(t, s);
    assert x >= 0 && s'.balances == if x == 0 then before else Credit(before, t.to, x) by {
      BalancesAre(t, s);
    }
    if x != 0 {
      CreditSum(before, t.to, x);
    } else {
      assert Get(before, t.to) <= MAX;
    }
  }

  /** Every addition and subtraction of an amount in ApplyTransaction stays within an int64. */
  predicate AmountsFit(t: Tx, s: State)
    requires LockPresent(t, s)
  {
    && (t.kind.Transfer? || t.kind.Lock? ==> Fits(Get(s.balances, t.from) - t.amount))
    && (t.kind.ReleaseMilestone? || t.kind.Arbitrate? ==> Fits(s.locked[t.contractId].amount - t.amount))
    && Fits(Get(BeforeCredit(t, s), t.to) + Credited(t, s))
  }

  lemma CreditBound(t: Tx, s: State)
    requires WellFormed(s) && CheckRules(t, s).Pass?
    ensures 0 <= Credited(t, s) <= Minted()(t) + Debited(t) + MapSum(Held, s.locked)
  {
    EscrowKeeps(s);
    if t.contractId in s.locked {
      assert LockOk(t.contractId, s.locked[t.contractId]);
    }
  }

  lemma RoomUnderTheBound(t: Tx, s: State)
    requires WellFormed(s) && NonNegative(s) && CheckRules(t, s).Pass?
    requires Total(s) + Minted()(t) <= MAX
    ensures HasRoom(t, s) && AmountsFit(t, s)
  {
    DebitsFit(t, s);
    hide CheckRules, WellFormed, BeforeCredit, Credited;
    CreditBound(t, s);
    DebitKeeps(t, s);
    assert 0 <= Get(BeforeCredit(t, s), t.to) <= MapSum(Value, BeforeCredit(t, s));
  }

  lemma DebitsFit(t: Tx, s: State)
    requires WellFormed(s) && CheckRules(t, s).Pass?
    ensures t.kind.Transfer? || t.kind.Lock? ==> Fits(Get(s.balances, t.from) - t.amount)
    ensures t.kind.ReleaseMilestone? || t.kind.Arbitrate? ==> Fits(s.locked[t.contractId].amount - t.amount)
  {
  }

  lemma ConservingStep(t: Tx, s: State)
    requires WellFormed(s) && NonNegative(s) && CheckRules(t, s).Pass?
    requires Total(s) + Minted()(t) <= MAX
    ensures AmountsFit(t, s)
    ensures NonNegative(Effect(t, s)) && Total(Effect(t, s)) == Total(s) + Minted()(t)
  {
    RoomUnderTheBound(t, s);
    StepConservesIff(t, s);
  }

  lemma MintedIsPositive(t: Tx, s: State)
    requires CheckRules(t, s).Pass?
    ensures Minted()(t) >= 0
  {
  }

  /** Transaction i runs in its place without a wrap. */
  predicate ExactAt(c: Crypto, s: State, txs: seq<Tx>, i: nat)
    requires i < |txs|
  {
    && Run(c, s, txs[..i]).Some?
    && CheckRules(txs[i], Run(c, s, txs[..i]).value).Pass?
    && AmountsFit(txs[i], Run(c, s, txs[..i]).value)
  }

  /** Genesis plus minted fits in an int64: then no balance is negative and the total is exact. */
  lemma {:induction false} RunConserves(c: Crypto, s: State, txs: seq<Tx>)
    requires WellFormed(s) && NonNegative(s) && Run(c, s, txs).Some?
    requires Total(s) + SumBy(Minted(), txs) <= MAX
    ensures NonNegative(Run(c, s, txs).value)
    ensures Total(Run(c, s, txs).value) == Total(s) + SumBy(Minted(), txs)
  {
    if |txs| == 0 {
    } else {
      var front, t := txs[..|txs| - 1], txs[|txs| - 1];
      var mid := Run(c, s, front).value;
      assert CheckRules(t, mid).Pass? && Run(c, s, txs).value == Effect(t, mid);
      MintedIsPositive(t, mid);
      RunConserves(c, s, front);
      RunKeeps(c, s, front);
      ConservingStep(t, mid);
    }
  }

  lemma MintedSoFar(c: Crypto, s: State, txs: seq<Tx>, i: nat)
    requires Run(c, s, txs).Some? && i < |txs|
    ensures SumBy(Minted(), txs[..i]) + Minted()(txs[i]) <= SumBy(Minted(), txs)
  {
    SumSplit(Minted(), txs, i);
    forall j | 0 <= j < |txs|
      ensures Minted()(txs[j]) >= 0
    {
      RunPrefix(c, s, txs, j);
      MintedIsPositive(txs[j], Run(c, s, txs[..j]).value);
    }
    SumNonNegative(Minted(), txs[i + 1..]);
  }

  /** And no transaction of the run wraps an amount. */
  lemma RunNeverWraps(c: Crypto, s: State, txs: seq<Tx>, i: nat)
    requires WellFormed(s) && NonNegative(s) && Run(c, s, txs).Some? && i < |txs|
    requires Total(s) + SumBy(Minted(), txs) <= MAX
    ensures ExactAt(c, s, txs, i)
  {
    RunPrefix(c, s, txs, i);
    MintedSoFar(c, s, txs, i);
    var mid := Run(c, s, txs[..i]).value;
    MintedIsPositive(txs[i], mid);
    RunConserves(c, s, txs[..i]);
    RunKeeps(c, s, txs[..i]);
    ConservingStep(txs[i], mid);
  }

  /** Nonces, which value does not bound, stay within an int64 for the first 2^63 - 1 transactions of a chain. */
  lemma RunNoncesFit(c: Crypto, s: State, txs: seq<Tx>, i: nat)
    requires s.nonces == map[] && Run(c, s, txs).Some? && i < |txs| <= MAX
    ensures Run(c, s, txs[..i]).Some?
    ensures Fits(Get(Run(c, s, txs[..i]).value.nonces, txs[i].from) + 1)
  {
    RunPrefix(c, s, txs, i);
    NonceIs(c, s, txs[..i], txs[i].from);
    SentBounded(txs[..i], txs[i].from);
  }

  /** Without the bound it fails: two mints that fit on their own leave a negative balance. */
  lemma MintCanOverflow(c: Crypto, t: Tx)
    requires t.kind.Mint? && t.to != "" && t.amount == MAX
    ensures Run(c, Initial(map[]), [t, t]).Some?
    ensures Run(c, Initial(map[]), [t, t]).value.balances[t.to] == -2
  {
    var s := Initial(map[]);
    RunSnoc(c, s, [], t);
    RunSnoc(c, s, [t], t);
    assert [] + [t] == [t] && [t] + [t] == [t, t];
  }
}
