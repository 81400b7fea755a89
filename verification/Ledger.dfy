/** The world state as a value, and the pure meaning of one transaction and of a run of them. */
module Ledger {
  import opened Wrappers
  import opened Integers
  import opened Transactions

  datatype LockStatus = LOCKED | FROZEN | RELEASED | REFUNDED

  datatype EscrowLock = EscrowLock(contractId: string, investor: string, founder: string, amount: int64, status: LockStatus)

  datatype State = State(balances: map<string, int64>, locked: map<string, EscrowLock>, nonces: map<string, int64>)

  datatype TxError =
    | BadSignature | AmountNotPositive | NoRecipient | NoContractId | AlreadyLocked | NoSender
    | InsufficientBalance | InvalidNonce | EscrowNotFound | EscrowNotLocked | EscrowNotFrozen
    | NotRefundable | ExceedsEscrow | WrongRecipient | UnknownType

  /** Reading a missing key of a Go map yields zero. */
  function Get(m: map<string, int64>, k: string): int64 {
    if k in m then m[k] else 0
  }

  function Credit(m: map<string, int64>, k: string, x: int64): map<string, int64> {
    m[k := Add(Get(m, k), x)]
  }

  function Debit(m: map<string, int64>, k: string, x: int64): map<string, int64> {
    m[k := Sub(Get(m, k), x)]
  }

  /** The state before any block: the initial allocations and nothing else. */
  function Initial(allocations: map<string, int64>): State {
    State(allocations, map[], map[])
  }

  function CheckSenderFunds(t: Tx, s: State): Outcome<TxError> {
    if t.from == "" then Fail(NoSender)
    else if Get(s.balances, t.from) < t.amount then Fail(InsufficientBalance)
    else if t.nonce != Get(s.nonces, t.from) then Fail(InvalidNonce)
    else Pass
  }

  /** The amount test and the rules of each type; no signature. */
  function CheckRules(t: Tx, s: State): Outcome<TxError> {
    if t.amount <= 0 then Fail(AmountNotPositive) else
    match t.kind
    case Mint =>
      if t.to == "" then Fail(NoRecipient) else Pass
    case Transfer =>
      CheckSenderFunds(t, s)
    case Lock =>
      if t.contractId == "" then Fail(NoContractId)
      else if t.contractId in s.locked then Fail(AlreadyLocked)
      else CheckSenderFunds(t, s)
    case ReleaseMilestone =>
      if t.contractId !in s.locked then Fail(EscrowNotFound) else
      var lock := s.locked[t.contractId];
      if lock.status != LOCKED then Fail(EscrowNotLocked)
      else if t.amount > lock.amount then Fail(ExceedsEscrow)
      else if t.to != lock.founder then Fail(WrongRecipient)
      else Pass
    case Refund =>
      if t.contractId !in s.locked then Fail(EscrowNotFound) else
      var lock := s.locked[t.contractId];
      if lock.status != LOCKED && lock.status != FROZEN then Fail(NotRefundable)
      else if t.to != lock.investor then Fail(WrongRecipient)
      else Pass
    case FreezeDispute =>
      if t.contractId !in s.locked then Fail(EscrowNotFound)
      else if s.locked[t.contractId].status != LOCKED then Fail(EscrowNotLocked)
      else Pass
    case Arbitrate =>
      if t.contractId !in s.locked then Fail(EscrowNotFound) else
      var lock := s.locked[t.contractId];
      if lock.status != FROZEN then Fail(EscrowNotFrozen)
      else if t.amount > lock.amount then Fail(ExceedsEscrow)
      else if t.to != lock.founder && t.to != lock.investor then Fail(WrongRecipient)
      else Pass
    case Unknown(_) =>
      Fail(UnknownType)
  }

  function ValidateTransaction(c: Crypto, t: Tx, s: State): Outcome<TxError> {
    if !SignatureValid(c, t) then Fail(BadSignature) else CheckRules(t, s)
  }

  /** Applying a type that reads a lock dereferences it. */
  predicate LockPresent(t: Tx, s: State) {
    t.kind in {ReleaseMilestone, Refund, FreezeDispute, Arbitrate} ==> t.contractId in s.locked
  }

  /** What ApplyTransaction leaves behind, with the wrap-around of every addition and subtraction. */
  function Effect(t: Tx, s: State): State
    requires LockPresent(t, s)
  {
    match t.kind
    case Mint =>
      s.(balances := Credit(s.balances, t.to, t.amount))
    case Transfer =>
      s.(balances := Credit(Debit(s.balances, t.from, t.amount), t.to, t.amount),
         nonces := Credit(s.nonces, t.from, 1))
    case Lock =>
      s.(balances := Debit(s.balances, t.from, t.amount),
         locked := s.locked[t.contractId := EscrowLock(t.contractId, t.from, t.to, t.amount, LOCKED)],
         nonces := Credit(s.nonces, t.from, 1))
    case ReleaseMilestone =>
      var lock := s.locked[t.contractId];
      var rest := Sub(lock.amount, t.amount);
      var status := if rest == 0 then RELEASED else lock.status;
      s.(balances := Credit(s.balances, t.to, t.amount),
         locked := s.locked[t.contractId := lock.(amount := rest, status := status)])
    case Refund =>
      var lock := s.locked[t.contractId];
      s.(balances := Credit(s.balances, t.to, lock.amount),
         locked := s.locked[t.contractId := lock.(amount := 0, status := REFUNDED)])
    case FreezeDispute =>
      s.(locked := s.locked[t.contractId := s.locked[t.contractId].(status := FROZEN)])
    case Arbitrate =>
      var lock := s.locked[t.contractId];
      var rest := Sub(lock.amount, t.amount);
      s.(balances := Credit(s.balances, t.to, t.amount),
         locked := s.locked[t.contractId := lock.(amount := rest, status := if rest == 0 then RELEASED else LOCKED)])
    case Unknown(_) =>
      s
  }

  /** Validate, then apply. */
  function Step(c: Crypto, s: State, t: Tx): Option<State> {
    if ValidateTransaction(c, t, s).Pass? then Some(Effect(t, s)) else None
  }

  /** The validate-then-apply loop over a list of transactions; one failure fails the whole. */
  function Run(c: Crypto, s: State, txs: seq<Tx>): Option<State> {
    if |txs| == 0 then Some(s) else
    match Run(c, s, txs[..|txs| - 1])
    case None => None
    case Some(mid) => Step(c, mid, txs[|txs| - 1])
  }

  lemma RunSnoc(c: Crypto, s: State, txs: seq<Tx>, t: Tx)
    ensures Run(c, s, txs + [t]) ==
            if Run(c, s, txs).Some? then Step(c, Run(c, s, txs).value, t) else None
  {
    assert (txs + [t])[..|txs|] == txs;
  }

  lemma {:induction false} RunConcat(c: Crypto, s: State, xs: seq<Tx>, ys: seq<Tx>)
    ensures Run(c, s, xs + ys) == if Run(c, s, xs).Some? then Run(c, Run(c, s, xs).value, ys) else None
  {
    if |ys| == 0 {
      assert xs + ys == xs;
    } else {
      var front := ys[..|ys| - 1];
      RunConcat(c, s, xs, front);
      assert (xs + ys)[..|xs + ys| - 1] == xs + front;
    }
  }

  /** The rules read nothing but the canonical fields. */
  lemma SameRules(x: Tx, y: Tx, s: State)
    requires Canon(x) == Canon(y)
    ensures CheckRules(x, s) == CheckRules(y, s)
  {
  }

  /** Validity and effect read only the canonical fields beyond the signature. */
  lemma {:induction false} RunDependsOnCanonical(c: Crypto, s: State, xs: seq<Tx>, ys: seq<Tx>)
    requires |xs| == |ys|
    requires forall i :: 0 <= i < |xs| ==> Canon(xs[i]) == Canon(ys[i])
    requires Run(c, s, xs).Some? && Run(c, s, ys).Some?
    ensures Run(c, s, xs) == Run(c, s, ys)
  {
    if |xs| == 0 {
    } else {
      RunDependsOnCanonical(c, s, xs[..|xs| - 1], ys[..|ys| - 1]);
      assert Canon(xs[|xs| - 1]) == Canon(ys[|ys| - 1]);
    }
  }
}
