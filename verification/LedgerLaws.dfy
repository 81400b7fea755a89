/** What every transaction, and so every run of transactions, keeps: the lock machine, nonces and escrow accounting. */
module LedgerLaws {
  import opened Wrappers
  import opened Integers
  import opened Sums
  import opened Transactions
  import opened Ledger

  /** A lock holds money exactly while it is LOCKED or FROZEN, and is stored under its own ID. */
  predicate LockOk(cid: string, lock: EscrowLock) {
    && lock.contractId == cid
    && cid != ""
    && lock.amount >= 0
    && (lock.amount > 0 <==> lock.status in {LOCKED, FROZEN})
    && (lock.amount == 0 <==> lock.status in {RELEASED, REFUNDED})
  }

  ghost predicate WellFormed(s: State) {
    && (forall c :: c in s.locked ==> LockOk(c, s.locked[c]))
    && "" !in s.nonces
  }

  /** What may happen to a lock from one state to a later one. */
  predicate LockEvolves(before: EscrowLock, after: EscrowLock) {
    && after.contractId == before.contractId
    && after.investor == before.investor
    && after.founder == before.founder
    && after.amount <= before.amount
    && (before.status in {RELEASED, REFUNDED} ==> after == before)
  }

  ghost predicate Evolves(s: State, s': State) {
    && s.locked.Keys <= s'.locked.Keys
    && s.balances.Keys <= s'.balances.Keys
    && s.nonces.Keys <= s'.nonces.Keys
    && (forall c :: c in s.locked ==> LockEvolves(s.locked[c], s'.locked[c]))
  }

  lemma StepKeepsLock(s: State, t: Tx, cid: string)
    requires WellFormed(s) && CheckRules(t, s).Pass? && cid in Effect(t, s).locked
    ensures LockOk(cid, Effect(t, s).locked[cid])
    ensures cid in s.locked ==> LockEvolves(s.locked[cid], Effect(t, s).locked[cid])
  {
    if cid in s.locked {
      assert LockOk(cid, s.locked[cid]);
      if cid != t.contractId {
        OtherLockStays(s, t, cid);
      }
    }
  }

  lemma OtherLockStays(s: State, t: Tx, cid: string)
    requires CheckRules(t, s).Pass? && cid in s.locked && cid != t.contractId
    ensures cid in Effect(t, s).locked && Effect(t, s).locked[cid] == s.locked[cid]
  {
  }

  lemma StepKeeps(c: Crypto, s: State, t: Tx)
    requires WellFormed(s) && Step(c, s, t).Some?
    ensures WellFormed(Step(c, s, t).value)
    ensures Evolves(s, Step(c, s, t).value)
  {
    var s' := Effect(t, s);
    assert s.locked.Keys <= s'.locked.Keys;
    assert s.balances.Keys <= s'.balances.Keys;
    assert s.nonces.Keys <= s'.nonces.Keys;
    forall cid | cid in s'.locked
      ensures LockOk(cid, s'.locked[cid])
      ensures cid in s.locked ==> LockEvolves(s.locked[cid], s'.locked[cid])
    {
      StepKeepsLock(s, t, cid);
    }
  }

  /** Every run keeps the lock machine: no key is dropped, no lock grows, RELEASED and REFUNDED are final. */
  lemma {:induction false} RunKeeps(c: Crypto, s: State, txs: seq<Tx>)
    requires WellFormed(s) && Run(c, s, txs).Some?
    ensures WellFormed(Run(c, s, txs).value)
    ensures Evolves(s, Run(c, s, txs).value)
  {
    if |txs| == 0 {
    } else {
      var front := txs[..|txs| - 1];
      RunKeeps(c, s, front);
      var mid := Run(c, s, front).value;
      StepKeeps(c, mid, txs[|txs| - 1]);
      var last := Run(c, s, txs).value;
      forall k | k in s.locked
        ensures LockEvolves(s.locked[k], last.locked[k])
      {
        assert LockEvolves(s.locked[k], mid.locked[k]) && LockEvolves(mid.locked[k], last.locked[k]);
      }
    }
  }

  /** A prefix of an accepted run is accepted. */
  lemma RunPrefix(c: Crypto, s: State, txs: seq<Tx>, n: nat)
    requires n <= |txs| && Run(c, s, txs).Some?
    ensures Run(c, s, txs[..n]).Some?
    ensures Run(c, Run(c, s, txs[..n]).value, txs[n..]) == Run(c, s, txs)
    ensures n < |txs| ==> Step(c, Run(c, s, txs[..n]).value, txs[n]).Some?
  {
    hide Run, Step;
    assert txs == txs[..n] + txs[n..];
    RunConcat(c, s, txs[..n], txs[n..]);
    if n < |txs| {
      var upTo := txs[..n] + [txs[n]];
      RunSnoc(c, s, txs[..n], txs[n]);
      assert txs == upTo + txs[n + 1..];
      RunConcat(c, s, upTo, txs[n + 1..]);
    }
  }

  // ----- Weights: what one transaction contributes to the counters below -----

  function OneIf(b: bool): int {
    if b then 1 else 0
  }

  function LockAmount(cid: string): Tx -> int {
    (t: Tx) => if t.kind.Lock? && t.contractId == cid then t.amount else 0
  }

  function LockCount(cid: string): Tx -> int {
    (t: Tx) => OneIf(t.kind.Lock? && t.contractId == cid)
  }

  /** Money leaving a lock by its stated amount: releases and arbitration awards. */
  function PaidOut(cid: string): Tx -> int {
    (t: Tx) => if (t.kind.ReleaseMilestone? || t.kind.Arbitrate?) && t.contractId == cid then t.amount else 0
  }

  function RefundCount(cid: string): Tx -> int {
    (t: Tx) => OneIf(t.kind.Refund? && t.contractId == cid)
  }

  function FreezeCount(cid: string): Tx -> int {
    (t: Tx) => OneIf(t.kind.FreezeDispute? && t.contractId == cid)
  }

  function ArbitrateCount(cid: string): Tx -> int {
    (t: Tx) => OneIf(t.kind.Arbitrate? && t.contractId == cid)
  }

  function SentCount(a: string): Tx -> int {
    (t: Tx) => OneIf((t.kind.Transfer? || t.kind.Lock?) && t.from == a)
  }

  function Minted(): Tx -> int {
    (t: Tx) => if t.kind.Mint? then t.amount else 0
  }

  // ----- The lock of one contract, from the multiset of transactions alone -----

  /** The six counters of one contract over a run. */
  datatype Tally = Tally(lockAmount: int, locks: int, paid: int, refunds: int, freezes: int, arbitrations: int)

  function TallyOf(txs: seq<Tx>, cid: string): Tally {
    Tally(SumBy(LockAmount(cid), txs), SumBy(LockCount(cid), txs), SumBy(PaidOut(cid), txs),
          SumBy(RefundCount(cid), txs), SumBy(FreezeCount(cid), txs), SumBy(ArbitrateCount(cid), txs))
  }

  function LockAt(s: State, cid: string): Option<EscrowLock> {
    if cid in s.locked then Some(s.locked[cid]) else None
  }

  /** The lock after a run (`after`) as an order-free account of the lock before it and the counters. */
  predicate Accounted(before: Option<EscrowLock>, n: Tally, after: Option<EscrowLock>) {
    var start := if before.Some? then before.value.amount else 0;
    && (after.Some? <==> before.Some? || n.locks > 0)
    && 0 <= n.locks <= 1 && (before.Some? ==> n.locks == 0)
    && 0 <= n.refunds
    && (after.None? ==> n == Tally(0, 0, 0, 0, 0, 0))
    && (after.Some? ==>
          && after.value.amount == (if n.refunds > 0 then 0 else start + n.lockAmount - n.paid)
          && (n.refunds > 0 ==> after.value.status == REFUNDED)
          && (n.refunds == 0 ==>
                && (after.value.status == REFUNDED <==> before.Some? && before.value.status == REFUNDED)
                && OneIf(after.value.status == FROZEN) ==
                   OneIf(before.Some? && before.value.status == FROZEN) + n.freezes - n.arbitrations))
  }

  function Count(n: Tally, t: Tx, cid: string): Tally {
    Tally(n.lockAmount + LockAmount(cid)(t), n.locks + LockCount(cid)(t), n.paid + PaidOut(cid)(t),
          n.refunds + RefundCount(cid)(t), n.freezes + FreezeCount(cid)(t), n.arbitrations + ArbitrateCount(cid)(t))
  }

  lemma AccountedStep(before: Option<EscrowLock>, n: Tally, mid: State, t: Tx, cid: string)
    requires CheckRules(t, mid).Pass?
    requires cid in mid.locked ==> LockOk(cid, mid.locked[cid])
    requires Accounted(before, n, LockAt(mid, cid))
    ensures Accounted(before, Count(n, t, cid), LockAt(Effect(t, mid), cid))
  {
    if t.contractId != cid {
      assert LockAt(Effect(t, mid), cid) == LockAt(mid, cid);
      assert Count(n, t, cid) == n;
    }
  }

  lemma {:induction false} RunLockAccount(c: Crypto, s: State, txs: seq<Tx>, cid: string)
    requires WellFormed(s) && Run(c, s, txs).Some?
    ensures Accounted(LockAt(s, cid), TallyOf(txs, cid), LockAt(Run(c, s, txs).value, cid))
  {
    if |txs| == 0 {
    } else {
      var front := txs[..|txs| - 1];
      RunKeeps(c, s, front);
      RunLockAccount(c, s, front, cid);
      AccountedStep(LockAt(s, cid), TallyOf(front, cid), Run(c, s, front).value, txs[|txs| - 1], cid);
    }
  }

  /** The parties on record come from the one LOCK that created the entry. */
  lemma {:induction false} RunLockParties(c: Crypto, s: State, txs: seq<Tx>, cid: string) returns (i: nat)
    requires WellFormed(s) && Run(c, s, txs).Some?
    requires cid !in s.locked && cid in Run(c, s, txs).value.locked
    ensures i < |txs| && txs[i].kind.Lock? && txs[i].contractId == cid
    ensures Run(c, s, txs).value.locked[cid].investor == txs[i].from
    ensures Run(c, s, txs).value.locked[cid].founder == txs[i].to
  {
    var n := |txs| - 1;
    var mid := Run(c, s, txs[..n]).value;
    RunKeeps(c, s, txs[..n]);
    StepKeeps(c, mid, txs[n]);
    if cid in mid.locked {
      assert LockEvolves(mid.locked[cid], Run(c, s, txs).value.locked[cid]);
      i := RunLockParties(c, s, txs[..n], cid);
    } else {
      i := n;
    }
  }

  // ----- Nonces -----

  lemma StepNonces(s: State, t: Tx, a: string, n: int)
    requires CheckRules(t, s).Pass? && Congruent(Get(s.nonces, a), n)
    ensures Congruent(Get(Effect(t, s).nonces, a), n + SentCount(a)(t))
    ensures a in Effect(t, s).nonces <==> a in s.nonces || SentCount(a)(t) > 0
  {
    if SentCount(a)(t) == 1 {
      assert Effect(t, s).nonces == Credit(s.nonces, a, 1);
      AddCongruent(Get(s.nonces, a), 1, n);
    } else {
      assert Get(Effect(t, s).nonces, a) == Get(s.nonces, a);
    }
  }

  /** Nonces count the TRANSFER and LOCK transactions an address has sent (up to the turn of an int64). */
  lemma {:induction false} RunNonces(c: Crypto, s: State, txs: seq<Tx>, a: string)
    requires Run(c, s, txs).Some?
    ensures Congruent(Get(Run(c, s, txs).value.nonces, a), Get(s.nonces, a) + SumBy(SentCount(a), txs))
    ensures a in Run(c, s, txs).value.nonces <==> a in s.nonces || SumBy(SentCount(a), txs) > 0
    ensures SumBy(SentCount(a), txs) >= 0
  {
    if |txs| == 0 {
      CongruentRefl(Get(s.nonces, a));
    } else {
      var front := txs[..|txs| - 1];
      var t := txs[|txs| - 1];
      RunNonces(c, s, front, a);
      StepNonces(Run(c, s, front).value, t, a, Get(s.nonces, a) + SumBy(SentCount(a), front));
    }
  }

  lemma SenderNonce(t: Tx, s: State)
    requires CheckRules(t, s).Pass? && (t.kind.Transfer? || t.kind.Lock?)
    ensures t.nonce == Get(s.nonces, t.from)
  {
  }

  lemma SentAfter(txs: seq<Tx>, i: nat)
    requires i < |txs| && (txs[i].kind.Transfer? || txs[i].kind.Lock?)
    ensures SumBy(SentCount(txs[i].from), txs) > SumBy(SentCount(txs[i].from), txs[..i])
  {
    var f := SentCount(txs[i].from);
    SumSplit(f, txs, i);
    SentBounded(txs[i + 1..], txs[i].from);
  }

  lemma NonceIs(c: Crypto, s: State, txs: seq<Tx>, a: string)
    requires s.nonces == map[] && Run(c, s, txs).Some? && |txs| <= MAX
    ensures Get(Run(c, s, txs).value.nonces, a) == SumBy(SentCount(a), txs)
  {
    RunNonces(c, s, txs, a);
    SentBounded(txs, a);
    CongruentRefl(SumBy(SentCount(a), txs));
    CongruentUnique(Get(Run(c, s, txs).value.nonces, a), SumBy(SentCount(a), txs), SumBy(SentCount(a), txs));
  }

  /**
   * From a state without nonces, the TRANSFER or LOCK at position i carries the number of earlier ones by the
   * same sender, and once committed it is refused by every later state of the chain, whatever ID, key or signature
   * it is sent with.
   */
  lemma CommittedIsNeverValidAgain(c: Crypto, s: State, txs: seq<Tx>, i: nat, again: Tx)
    requires s.nonces == map[] && Run(c, s, txs).Some?
    requires i < |txs| && (txs[i].kind.Transfer? || txs[i].kind.Lock?)
    requires |txs| <= MAX && Canon(again) == Canon(txs[i])
    ensures txs[i].nonce == SumBy(SentCount(txs[i].from), txs[..i])
    ensures ValidateTransaction(c, again, Run(c, s, txs).value).Fail?
  {
    var a := txs[i].from;
    RunPrefix(c, s, txs, i);
    NonceIs(c, s, txs[..i], a);
    NonceIs(c, s, txs, a);
    SentAfter(txs, i);
    var mid, end := Run(c, s, txs[..i]).value, Run(c, s, txs).value;
    assert CheckRules(txs[i], mid).Pass?;
    SenderNonce(txs[i], mid);
    assert txs[i].nonce != Get(end.nonces, a);
    assert again.nonce == txs[i].nonce && again.from == a && again.kind == txs[i].kind by {
      assert Canon(again) == Canon(txs[i]);
    }
    if CheckRules(again, end).Pass? {
      SenderNonce(again, end);
      assert false;
    }
  }

  lemma {:induction false} SentBounded(txs: seq<Tx>, a: string)
    ensures 0 <= SumBy(SentCount(a), txs) <= |txs|
  {
    if |txs| == 0 {
    } else {
      SentBounded(txs[..|txs| - 1], a);
    }
  }

  /** So no TRANSFER or LOCK, and no second LOCK of the same contract, appears twice in a run. */
  lemma NoTwice(c: Crypto, s: State, txs: seq<Tx>, i: nat, j: nat)
    requires WellFormed(s) && s.nonces == map[] && Run(c, s, txs).Some? && |txs| <= MAX
    requires i < j < |txs| && (txs[i].kind.Transfer? || txs[i].kind.Lock?)
    ensures Canon(txs[i]) != Canon(txs[j])
    ensures txs[i].kind.Lock? && txs[j].kind.Lock? ==> txs[i].contractId != txs[j].contractId
  {
    RunPrefix(c, s, txs, j);
    assert txs[..j][i] == txs[i];
    if Canon(txs[i]) == Canon(txs[j]) {
      CommittedIsNeverValidAgain(c, s, txs[..j], i, txs[j]);
      assert false;
    }
    if txs[i].kind.Lock? && txs[j].kind.Lock? {
      var cid := txs[i].contractId;
      RunLockAccount(c, s, txs, cid);
      SumCovers(LockCount(cid), txs, i);
    }
  }

  // ----- Where the money of one contract went -----

  /** The payout of one transaction, as (recipient, amount), when it takes money out of contract `cid`. */
  function Payouts(t: Tx, s: State, cid: string): seq<(string, int)> {
    if t.contractId != cid || cid !in s.locked then []
    else if t.kind.ReleaseMilestone? || t.kind.Arbitrate? then [(t.to, t.amount)]
    else if t.kind.Refund? then [(t.to, s.locked[cid].amount)]
    else []
  }

  function RunPayouts(c: Crypto, s: State, txs: seq<Tx>, cid: string): seq<(string, int)> {
    if |txs| == 0 then [] else
    var front := txs[..|txs| - 1];
    RunPayouts(c, s, front, cid) +
    match Run(c, s, front)
    case None => []
    case Some(mid) => Payouts(txs[|txs| - 1], mid, cid)
  }

  function PayoutTo(who: string): ((string, int)) -> int {
    (p: (string, int)) => if p.0 == who then p.1 else 0
  }

  lemma PayoutsStep(s: State, t: Tx, cid: string)
    requires CheckRules(t, s).Pass? && cid in s.locked && LockOk(cid, s.locked[cid])
    ensures LockAmount(cid)(t) == 0
    ensures cid in Effect(t, s).locked
    ensures var before, after, paid := s.locked[cid], Effect(t, s).locked[cid], Payouts(t, s, cid);
            && after.founder == before.founder && after.investor == before.investor
            && (paid == [] || (|paid| == 1 && paid[0].0 in {before.founder, before.investor} && paid[0].1 > 0))
            && after.amount == before.amount - (if paid == [] then 0 else paid[0].1)
  {
    if t.contractId != cid {
      assert LockAt(Effect(t, s), cid) == LockAt(s, cid);
    }
  }

  /** What the founder got, plus what the investor got when they differ. */
  function PaidToParties(lock: EscrowLock, paid: seq<(string, int)>): int {
    SumBy(PayoutTo(lock.founder), paid)
    + (if lock.investor == lock.founder then 0 else SumBy(PayoutTo(lock.investor), paid))
  }

  predicate OnlyParties(lock: EscrowLock, paid: seq<(string, int)>) {
    forall i :: 0 <= i < |paid| ==> paid[i].0 in {lock.founder, lock.investor} && paid[i].1 > 0
  }

  lemma PaidSnoc(lock: EscrowLock, paid: seq<(string, int)>, p: (string, int))
    requires p.0 in {lock.founder, lock.investor}
    ensures PaidToParties(lock, paid + [p]) == PaidToParties(lock, paid) + p.1
  {
    SumSnoc(PayoutTo(lock.founder), paid, p);
    SumSnoc(PayoutTo(lock.investor), paid, p);
  }

  /**
   * Per-contract accounting: what was locked equals what the founder got, plus what the investor got, plus what is
   * left; and nobody else got anything.
   */
  lemma {:induction false} EscrowAccounting(c: Crypto, s: State, txs: seq<Tx>, cid: string)
    requires WellFormed(s) && Run(c, s, txs).Some?
    requires cid !in s.locked && cid in Run(c, s, txs).value.locked
    ensures var lock := Run(c, s, txs).value.locked[cid];
            && SumBy(LockAmount(cid), txs) == PaidToParties(lock, RunPayouts(c, s, txs, cid)) + lock.amount
            && OnlyParties(lock, RunPayouts(c, s, txs, cid))
  {
    var n := |txs| - 1;
    var front, t := txs[..n], txs[n];
    var mid, end := Run(c, s, front).value, Run(c, s, txs).value;
    RunKeeps(c, s, front);
    if cid in mid.locked {
      EscrowAccounting(c, s, front, cid);
      var lock := mid.locked[cid];
      assert LockOk(cid, lock);
      PayoutsStep(mid, t, cid);
      var paid := RunPayouts(c, s, front, cid);
      var more := Payouts(t, mid, cid);
      assert PaidToParties(end.locked[cid], paid + more) == PaidToParties(lock, paid + more);
      if more == [] {
        assert paid + more == paid;
      } else {
        assert more == [more[0]];
        PaidSnoc(lock, paid, more[0]);
      }
    } else {
      FirstLock(mid, t, cid);
      RunLockAccount(c, s, front, cid);
      NoPayoutBeforeLock(c, s, front, cid);
      assert RunPayouts(c, s, txs, cid) == [];
    }
  }

  lemma FirstLock(s: State, t: Tx, cid: string)
    requires CheckRules(t, s).Pass? && cid !in s.locked && cid in Effect(t, s).locked
    ensures t.kind.Lock? && t.contractId == cid && Effect(t, s).locked[cid].amount == t.amount
  {
  }

  lemma {:induction false} NoPayoutBeforeLock(c: Crypto, s: State, txs: seq<Tx>, cid: string)
    requires WellFormed(s) && Run(c, s, txs).Some? && cid !in Run(c, s, txs).value.locked
    ensures RunPayouts(c, s, txs, cid) == []
  {
    if |txs| == 0 {
    } else {
      var front := txs[..|txs| - 1];
      RunKeeps(c, s, front);
      StepKeeps(c, Run(c, s, front).value, txs[|txs| - 1]);
      NoPayoutBeforeLock(c, s, front, cid);
    }
  }
}
