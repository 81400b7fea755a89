/** Two accepted orderings of the same transactions end in the same state. */
module OrderIndependence {
  import opened Wrappers
  import opened Integers
  import opened Sums
  import opened Transactions
  import opened Ledger
  import opened LedgerLaws

  /** The change of `a`'s balance that a transaction states by itself; a REFUND states none. */
  function Stated(a: string): Tx -> int {
    (t: Tx) =>
      match t.kind
      case Transfer => (if t.to == a then t.amount else 0) - (if t.from == a then t.amount else 0)
      case Lock => 0 - (if t.from == a then t.amount else 0)
      case Mint => if t.to == a then t.amount else 0
      case ReleaseMilestone => if t.to == a then t.amount else 0
      case Arbitrate => if t.to == a then t.amount else 0
      case _ => 0
  }

  /** What a REFUND pays `a` when contract `cid` still holds `left(cid)`. */
  function Refunded(a: string, left: string -> int): Tx -> int {
    (t: Tx) => if t.kind.Refund? && t.to == a then left(t.contractId) else 0
  }

  function Touches(a: string): Tx -> int {
    (t: Tx) =>
      OneIf(match t.kind
        case Transfer => a == t.from || a == t.to
        case Lock => a == t.from
        case FreezeDispute => false
        case Unknown(_) => false
        case _ => a == t.to)
  }

  /** What is left in each contract after all deposits and stated payouts of the run. */
  function Left(s: State, txs: seq<Tx>): string -> int {
    (cid: string) =>
      (if cid in s.locked then s.locked[cid].amount else 0)
      + SumBy(LockAmount(cid), txs) - SumBy(PaidOut(cid), txs)
  }

  function BalanceAccount(s: State, txs: seq<Tx>, a: string): int {
    Get(s.balances, a) + SumBy(Stated(a), txs) + SumBy(Refunded(a, Left(s, txs)), txs)
  }

  lemma StepTouches(s: State, t: Tx, a: string)
    requires CheckRules(t, s).Pass?
    ensures a in Effect(t, s).balances <==> a in s.balances || Touches(a)(t) > 0
  {
  }

  lemma StepBalance(s: State, t: Tx, a: string, n: int)
    requires CheckRules(t, s).Pass? && Congruent(Get(s.balances, a), n)
    ensures Congruent(Get(Effect(t, s).balances, a),
                      n + Stated(a)(t) + (if t.kind.Refund? && t.to == a then s.locked[t.contractId].amount else 0))
  {
    hide Congruent;
    var b := s.balances;
    match t.kind
    case Transfer =>
      var d := Debit(b, t.from, t.amount);
      var n' := if a == t.from then n - t.amount else n;
      assert Congruent(Get(d, a), n') by {
        if a == t.from {
          SubCongruent(Get(b, a), t.amount, n);
        }
      }
      if a == t.to {
        AddCongruent(Get(d, a), t.amount, n');
      }
    case Lock =>
      if a == t.from {
        SubCongruent(Get(b, a), t.amount, n);
      }
    case Refund =>
      if a == t.to {
        AddCongruent(Get(b, a), s.locked[t.contractId].amount, n);
      }
    case _ =>
      if a == t.to {
        AddCongruent(Get(b, a), t.amount, n);
      }
  }

  /** A contract refunded earlier in the run is not moved by a later transaction. */
  lemma RefundedIsFinal(c: Crypto, s: State, front: seq<Tx>, t: Tx, i: nat)
    requires WellFormed(s) && Run(c, s, front).Some? && CheckRules(t, Run(c, s, front).value).Pass?
    requires i < |front| && front[i].kind.Refund?
    ensures LockAmount(front[i].contractId)(t) == 0 && PaidOut(front[i].contractId)(t) == 0
  {
    var cid := front[i].contractId;
    RunLockAccount(c, s, front, cid);
    SumCovers(RefundCount(cid), front, i);
    assert RefundCount(cid)(front[i]) == 1;
  }

  lemma LeftSnoc(s: State, front: seq<Tx>, t: Tx, cid: string)
    ensures Left(s, front + [t])(cid) == Left(s, front)(cid) + LockAmount(cid)(t) - PaidOut(cid)(t)
  {
    SumSnoc(LockAmount(cid), front, t);
    SumSnoc(PaidOut(cid), front, t);
  }

  /** So the refunded amounts stay what they were. */
  lemma RefundsSettled(c: Crypto, s: State, front: seq<Tx>, t: Tx, a: string)
    requires WellFormed(s) && Run(c, s, front).Some? && CheckRules(t, Run(c, s, front).value).Pass?
    ensures SumBy(Refunded(a, Left(s, front + [t])), front) == SumBy(Refunded(a, Left(s, front)), front)
  {
    var before, after := Refunded(a, Left(s, front)), Refunded(a, Left(s, front + [t]));
    forall i | 0 <= i < |front|
      ensures after(front[i]) == before(front[i])
    {
      if front[i].kind.Refund? {
        RefundedIsFinal(c, s, front, t, i);
        LeftSnoc(s, front, t, front[i].contractId);
      }
    }
    SumExt(after, before, front);
  }

  /** A REFUND pays what the counters say is left. */
  lemma RefundPaysLeft(c: Crypto, s: State, front: seq<Tx>, t: Tx)
    requires WellFormed(s) && Run(c, s, front).Some? && CheckRules(t, Run(c, s, front).value).Pass?
    requires t.kind.Refund?
    ensures Run(c, s, front).value.locked[t.contractId].amount == Left(s, front + [t])(t.contractId)
  {
    RunLockAccount(c, s, front, t.contractId);
    LeftSnoc(s, front, t, t.contractId);
  }

  lemma BalanceAccountSnoc(c: Crypto, s: State, front: seq<Tx>, t: Tx, a: string)
    requires WellFormed(s) && Run(c, s, front).Some? && CheckRules(t, Run(c, s, front).value).Pass?
    ensures BalanceAccount(s, front + [t], a) ==
            BalanceAccount(s, front, a) + Stated(a)(t)
            + (if t.kind.Refund? && t.to == a then Run(c, s, front).value.locked[t.contractId].amount else 0)
  {
    SumSnoc(Stated(a), front, t);
    SumSnoc(Refunded(a, Left(s, front + [t])), front, t);
    RefundsSettled(c, s, front, t, a);
    if t.kind.Refund? {
      RefundPaysLeft(c, s, front, t);
    }
  }

  lemma RunBalanceStep(c: Crypto, s: State, front: seq<Tx>, t: Tx, a: string)
    requires WellFormed(s) && Run(c, s, front).Some? && CheckRules(t, Run(c, s, front).value).Pass?
    requires Congruent(Get(Run(c, s, front).value.balances, a), BalanceAccount(s, front, a))
    ensures Congruent(Get(Effect(t, Run(c, s, front).value).balances, a), BalanceAccount(s, front + [t], a))
  {
    var mid, n := Run(c, s, front).value, BalanceAccount(s, front, a);
    assert BalanceAccount(s, front + [t], a) ==
           n + Stated(a)(t) + (if t.kind.Refund? && t.to == a then mid.locked[t.contractId].amount else 0)
    by { BalanceAccountSnoc(c, s, front, t, a); }
    StepBalance(mid, t, a, n);
  }

  lemma {:induction false} RunBalance(c: Crypto, s: State, txs: seq<Tx>, a: string)
    requires WellFormed(s) && Run(c, s, txs).Some?
    ensures Congruent(Get(Run(c, s, txs).value.balances, a), BalanceAccount(s, txs, a))
  {
    if |txs| == 0 {
      assert BalanceAccount(s, txs, a) == Get(s.balances, a);
      CongruentRefl(Get(s.balances, a));
    } else {
      var front, t := txs[..|txs| - 1], txs[|txs| - 1];
      assert front + [t] == txs;
      RunBalance(c, s, front, a);
      RunBalanceStep(c, s, front, t, a);
    }
  }

  lemma {:induction false} RunTouches(c: Crypto, s: State, txs: seq<Tx>, a: string)
    requires Run(c, s, txs).Some?
    ensures a in Run(c, s, txs).value.balances <==> a in s.balances || SumBy(Touches(a), txs) > 0
    ensures SumBy(Touches(a), txs) >= 0
  {
    if |txs| == 0 {
    } else {
      var front, t := txs[..|txs| - 1], txs[|txs| - 1];
      RunTouches(c, s, front, a);
      StepTouches(Run(c, s, front).value, t, a);
    }
  }

  // ----- Each part of the final state is determined by the multiset -----

  lemma SameTally(xs: seq<Tx>, ys: seq<Tx>, cid: string)
    requires multiset(xs) == multiset(ys)
    ensures TallyOf(xs, cid) == TallyOf(ys, cid)
  {
    SumPermutation(LockAmount(cid), xs, ys);
    SumPermutation(LockCount(cid), xs, ys);
    SumPermutation(PaidOut(cid), xs, ys);
    SumPermutation(RefundCount(cid), xs, ys);
    SumPermutation(FreezeCount(cid), xs, ys);
    SumPermutation(ArbitrateCount(cid), xs, ys);
  }

  /** The only LOCK of a contract is the same transaction in both orderings. */
  lemma {:induction false} SameLock(xs: seq<Tx>, ys: seq<Tx>, cid: string, i: nat, j: nat)
    requires multiset(xs) == multiset(ys) && SumBy(LockCount(cid), xs) <= 1
    requires i < |xs| && xs[i].kind.Lock? && xs[i].contractId == cid
    requires j < |ys| && ys[j].kind.Lock? && ys[j].contractId == cid
    ensures xs[i] == ys[j]
  {
    assert ys[j] in multiset(xs);
    var k :| 0 <= k < |xs| && xs[k] == ys[j];
    SumCovers(LockCount(cid), xs, i);
  }

  lemma LockDetermined(before: Option<EscrowLock>, n: Tally, x: EscrowLock, y: EscrowLock, cid: string)
    requires Accounted(before, n, Some(x)) && Accounted(before, n, Some(y))
    requires LockOk(cid, x) && LockOk(cid, y)
    requires x.investor == y.investor && x.founder == y.founder
    ensures x == y
  {
  }

  lemma SameLocks(c: Crypto, s: State, xs: seq<Tx>, ys: seq<Tx>, cid: string)
    requires WellFormed(s) && Run(c, s, xs).Some? && Run(c, s, ys).Some? && multiset(xs) == multiset(ys)
    ensures LockAt(Run(c, s, xs).value, cid) == LockAt(Run(c, s, ys).value, cid)
  {
    var x, y := Run(c, s, xs).value, Run(c, s, ys).value;
    RunKeeps(c, s, xs);
    RunKeeps(c, s, ys);
    RunLockAccount(c, s, xs, cid);
    RunLockAccount(c, s, ys, cid);
    SameTally(xs, ys, cid);
    if cid in x.locked {
      if cid in s.locked {
        assert LockEvolves(s.locked[cid], x.locked[cid]) && LockEvolves(s.locked[cid], y.locked[cid]);
      } else {
        var i := RunLockParties(c, s, xs, cid);
        var j := RunLockParties(c, s, ys, cid);
        SameLock(xs, ys, cid, i, j);
      }
      LockDetermined(LockAt(s, cid), TallyOf(xs, cid), x.locked[cid], y.locked[cid], cid);
    }
  }

  lemma SameRefunds(s: State, xs: seq<Tx>, ys: seq<Tx>, a: string)
    requires multiset(xs) == multiset(ys)
    ensures SumBy(Refunded(a, Left(s, xs)), xs) == SumBy(Refunded(a, Left(s, ys)), ys)
  {
    var f, g := Refunded(a, Left(s, xs)), Refunded(a, Left(s, ys));
    forall i | 0 <= i < |xs|
      ensures f(xs[i]) == g(xs[i])
    {
      SumPermutation(LockAmount(xs[i].contractId), xs, ys);
      SumPermutation(PaidOut(xs[i].contractId), xs, ys);
    }
    SumExt(f, g, xs);
    SumPermutation(g, xs, ys);
  }

  lemma SameBalanceAccount(s: State, xs: seq<Tx>, ys: seq<Tx>, a: string)
    requires multiset(xs) == multiset(ys)
    ensures BalanceAccount(s, xs, a) == BalanceAccount(s, ys, a)
  {
    SumPermutation(Stated(a), xs, ys);
    SameRefunds(s, xs, ys, a);
  }

  lemma SameBalance(c: Crypto, s: State, xs: seq<Tx>, ys: seq<Tx>, a: string)
    requires WellFormed(s) && Run(c, s, xs).Some? && Run(c, s, ys).Some? && multiset(xs) == multiset(ys)
    ensures Get(Run(c, s, xs).value.balances, a) == Get(Run(c, s, ys).value.balances, a)
  {
    RunBalance(c, s, xs, a);
    RunBalance(c, s, ys, a);
    SameBalanceAccount(s, xs, ys, a);
    CongruentUnique(Get(Run(c, s, xs).value.balances, a), Get(Run(c, s, ys).value.balances, a), BalanceAccount(s, xs, a));
  }

  lemma SameBalanceKeys(c: Crypto, s: State, xs: seq<Tx>, ys: seq<Tx>, a: string)
    requires Run(c, s, xs).Some? && Run(c, s, ys).Some? && multiset(xs) == multiset(ys)
    ensures a in Run(c, s, xs).value.balances <==> a in Run(c, s, ys).value.balances
  {
    RunTouches(c, s, xs, a);
    RunTouches(c, s, ys, a);
    SumPermutation(Touches(a), xs, ys);
  }

  lemma SameNonce(c: Crypto, s: State, xs: seq<Tx>, ys: seq<Tx>, a: string)
    requires Run(c, s, xs).Some? && Run(c, s, ys).Some? && multiset(xs) == multiset(ys)
    ensures a in Run(c, s, xs).value.nonces <==> a in Run(c, s, ys).value.nonces
    ensures Get(Run(c, s, xs).value.nonces, a) == Get(Run(c, s, ys).value.nonces, a)
  {
    RunNonces(c, s, xs, a);
    RunNonces(c, s, ys, a);
    SumPermutation(SentCount(a), xs, ys);
    CongruentUnique(Get(Run(c, s, xs).value.nonces, a), Get(Run(c, s, ys).value.nonces, a),
                    Get(s.nonces, a) + SumBy(SentCount(a), xs));
  }

  lemma MapsEqual(m: map<string, int64>, n: map<string, int64>)
    requires forall a :: a in m <==> a in n
    requires forall a :: Get(m, a) == Get(n, a)
    ensures m == n
  {
    assert forall a :: a in m ==> m[a] == Get(m, a) && n[a] == Get(n, a);
  }

  /**
   * The order in which a proposer drains its mempool cannot change the outcome: any two orderings of the same
   * transactions that both pass the validate-then-apply loop leave the same balances, nonces and locks.
   */
  lemma OrderDoesNotMatter(c: Crypto, s: State, xs: seq<Tx>, ys: seq<Tx>)
    requires WellFormed(s) && Run(c, s, xs).Some? && Run(c, s, ys).Some?
    requires multiset(xs) == multiset(ys)
    ensures Run(c, s, xs) == Run(c, s, ys)
  {
    var x, y := Run(c, s, xs).value, Run(c, s, ys).value;
    forall a
      ensures a in x.balances <==> a in y.balances
      ensures Get(x.balances, a) == Get(y.balances, a)
    {
      SameBalance(c, s, xs, ys, a);
      SameBalanceKeys(c, s, xs, ys, a);
    }
    MapsEqual(x.balances, y.balances);
    forall a
      ensures a in x.nonces <==> a in y.nonces
      ensures Get(x.nonces, a) == Get(y.nonces, a)
    {
      SameNonce(c, s, xs, ys, a);
    }
    MapsEqual(x.nonces, y.nonces);
    forall cid
      ensures LockAt(x, cid) == LockAt(y, cid)
    {
      SameLocks(c, s, xs, ys, cid);
    }
    LocksEqual(x, y);
  }

  lemma LocksEqual(x: State, y: State)
    requires forall cid :: LockAt(x, cid) == LockAt(y, cid)
    ensures x.locked == y.locked
  {
    forall cid
      ensures cid in x.locked <==> cid in y.locked
      ensures cid in x.locked ==> x.locked[cid] == y.locked[cid]
    {
      assert LockAt(x, cid) == LockAt(y, cid);
    }
  }
}
