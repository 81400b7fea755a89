/** The ledger's rules as a table: what each type of transaction needs, in order, and the error when a need is not met. */
module Rules {
  import opened Wrappers
  import opened Integers
  import opened Transactions
  import opened Ledger
  import opened LedgerLaws

  datatype Need = Need(met: bool, error: TxError)

  function FirstUnmet(needs: seq<Need>): Outcome<TxError> {
    if |needs| == 0 then Pass
    else if !needs[0].met then Fail(needs[0].error)
    else FirstUnmet(needs[1..])
  }

  function SenderNeeds(t: Tx, s: State): seq<Need> {
    [Need(t.from != "", NoSender),
     Need(t.amount <= (if t.from in s.balances then s.balances[t.from] else 0), InsufficientBalance),
     Need(t.nonce == (if t.from in s.nonces then s.nonces[t.from] else 0), InvalidNonce)]
  }

  /** A lock is on record, in one of these states, and holds at least the amount where an amount is paid. */
  function LockNeeds(t: Tx, s: State, states: set<LockStatus>, otherwise: TxError): seq<Need> {
    [Need(t.contractId in s.locked, EscrowNotFound),
     Need(t.contractId in s.locked && s.locked[t.contractId].status in states, otherwise)]
  }

  function PaymentNeeds(t: Tx, s: State): seq<Need> {
    [Need(t.contractId in s.locked && t.amount <= s.locked[t.contractId].amount, ExceedsEscrow)]
  }

  function PayeeNeeds(t: Tx, s: State, founder: bool, investor: bool): seq<Need> {
    [Need(&& t.contractId in s.locked
          && ((founder && t.to == s.locked[t.contractId].founder) || (investor && t.to == s.locked[t.contractId].investor)),
          WrongRecipient)]
  }

  function NeedsOf(t: Tx, s: State): seq<Need> {
    match t.kind
    case Mint => [Need(t.to != "", NoRecipient)]
    case Transfer => SenderNeeds(t, s)
    case Lock =>
      [Need(t.contractId != "", NoContractId), Need(t.contractId !in s.locked, AlreadyLocked)] + SenderNeeds(t, s)
    case ReleaseMilestone =>
      LockNeeds(t, s, {LOCKED}, EscrowNotLocked) + PaymentNeeds(t, s) + PayeeNeeds(t, s, true, false)
    case Refund => LockNeeds(t, s, {LOCKED, FROZEN}, NotRefundable) + PayeeNeeds(t, s, false, true)
    case FreezeDispute => LockNeeds(t, s, {LOCKED}, EscrowNotLocked)
    case Arbitrate =>
      LockNeeds(t, s, {FROZEN}, EscrowNotFrozen) + PaymentNeeds(t, s) + PayeeNeeds(t, s, true, true)
    case Unknown(_) => [Need(false, UnknownType)]
  }

  /** Signed by the owner of the sender's address; MINT needs no signature. */
  predicate OwnerSigned(c: Crypto, t: Tx) {
    && t.signature != "" && t.publicKey != ""
    && c.Address(t.publicKey) == t.from
    && c.Verify(t.publicKey, c.Sha(c.TxBytes(Canon(t))), t.signature)
  }

  lemma FirstUnmetConcat(xs: seq<Need>, ys: seq<Need>)
    ensures FirstUnmet(xs + ys) == if FirstUnmet(xs).Pass? then FirstUnmet(ys) else FirstUnmet(xs)
  {
    if |xs| == 0 {
      assert xs + ys == ys;
    } else {
      assert (xs + ys)[1..] == xs[1..] + ys;
      FirstUnmetConcat(xs[1..], ys);
    }
  }

  lemma SenderNeedsAre(t: Tx, s: State)
    ensures FirstUnmet(SenderNeeds(t, s)) == CheckSenderFunds(t, s)
  {
    var needs := SenderNeeds(t, s);
    FirstOfThree(needs[0], needs[1], needs[2]);
  }

  lemma FirstOfThree(x: Need, y: Need, z: Need)
    ensures FirstUnmet([z]) == if z.met then Pass else Fail(z.error)
    ensures FirstUnmet([y, z]) == if y.met then FirstUnmet([z]) else Fail(y.error)
    ensures FirstUnmet([x, y, z]) == if x.met then FirstUnmet([y, z]) else Fail(x.error)
  {
    assert [z][1..] == [] && [y, z][1..] == [z] && [x, y, z][1..] == [y, z];
  }

  /** The needs of a lock's status, and a payment's and a payee's, one by one. */
  lemma LockNeedsAre(t: Tx, s: State, states: set<LockStatus>, otherwise: TxError, founder: bool, investor: bool)
    ensures FirstUnmet(LockNeeds(t, s, states, otherwise)) ==
            if t.contractId !in s.locked then Fail(EscrowNotFound)
            else if s.locked[t.contractId].status !in states then Fail(otherwise) else Pass
    ensures t.contractId in s.locked ==>
              && (FirstUnmet(PaymentNeeds(t, s)) == if t.amount <= s.locked[t.contractId].amount then Pass else Fail(ExceedsEscrow))
              && (FirstUnmet(PayeeNeeds(t, s, founder, investor)) ==
                  if (founder && t.to == s.locked[t.contractId].founder) || (investor && t.to == s.locked[t.contractId].investor)
                  then Pass else Fail(WrongRecipient))
  {
    var lock, payment, payee := LockNeeds(t, s, states, otherwise), PaymentNeeds(t, s), PayeeNeeds(t, s, founder, investor);
    FirstOfThree(lock[0], lock[0], lock[1]);
    FirstOfThree(lock[0], lock[1], payment[0]);
    FirstOfThree(lock[0], lock[1], payee[0]);
  }

  /** The rules refuse a transaction for the first need it does not meet, and accept it when it meets them all. */
  lemma RulesAre(t: Tx, s: State)
    ensures CheckRules(t, s) == FirstUnmet([Need(t.amount > 0, AmountNotPositive)] + NeedsOf(t, s))
  {
    hide FirstUnmet, LockNeeds, PaymentNeeds, PayeeNeeds, SenderNeeds;
    var amount := Need(t.amount > 0, AmountNotPositive);
    FirstUnmetConcat([amount], NeedsOf(t, s));
    FirstOfThree(amount, amount, amount);
    SenderNeedsAre(t, s);
    match t.kind
    case Mint =>
      FirstOfThree(amount, amount, Need(t.to != "", NoRecipient));
    case Lock =>
      var id, free := Need(t.contractId != "", NoContractId), Need(t.contractId !in s.locked, AlreadyLocked);
      FirstOfThree(amount, id, free);
      FirstUnmetConcat([id, free], SenderNeeds(t, s));
    case ReleaseMilestone =>
      LockNeedsAre(t, s, {LOCKED}, EscrowNotLocked, true, false);
      FirstUnmetConcat(LockNeeds(t, s, {LOCKED}, EscrowNotLocked) + PaymentNeeds(t, s), PayeeNeeds(t, s, true, false));
      FirstUnmetConcat(LockNeeds(t, s, {LOCKED}, EscrowNotLocked), PaymentNeeds(t, s));
    case Refund =>
      LockNeedsAre(t, s, {LOCKED, FROZEN}, NotRefundable, false, true);
      FirstUnmetConcat(LockNeeds(t, s, {LOCKED, FROZEN}, NotRefundable), PayeeNeeds(t, s, false, true));
    case FreezeDispute =>
      LockNeedsAre(t, s, {LOCKED}, EscrowNotLocked, false, false);
    case Arbitrate =>
      LockNeedsAre(t, s, {FROZEN}, EscrowNotFrozen, true, true);
      FirstUnmetConcat(LockNeeds(t, s, {FROZEN}, EscrowNotFrozen) + PaymentNeeds(t, s), PayeeNeeds(t, s, true, true));
      FirstUnmetConcat(LockNeeds(t, s, {FROZEN}, EscrowNotFrozen), PaymentNeeds(t, s));
    case Unknown(_) =>
      FirstOfThree(amount, amount, Need(false, UnknownType));
    case Transfer =>
  }

  /** And the signature comes before them all. */
  lemma ValidationIs(c: Crypto, t: Tx, s: State)
    ensures ValidateTransaction(c, t, s) ==
            FirstUnmet([Need(t.kind.Mint? || OwnerSigned(c, t), BadSignature), Need(t.amount > 0, AmountNotPositive)] + NeedsOf(t, s))
  {
    var signature := [Need(t.kind.Mint? || OwnerSigned(c, t), BadSignature)];
    var rest := [Need(t.amount > 0, AmountNotPositive)] + NeedsOf(t, s);
    RulesAre(t, s);
    FirstUnmetConcat(signature, rest);
    assert signature + rest ==
           [Need(t.kind.Mint? || OwnerSigned(c, t), BadSignature), Need(t.amount > 0, AmountNotPositive)] + NeedsOf(t, s);
  }

  /** In every accepted run whatever is not a MINT is signed by the owner of its sender's address. */
  lemma RunIsSigned(c: Crypto, s: State, txs: seq<Tx>, i: nat)
    requires Run(c, s, txs).Some? && i < |txs| && !txs[i].kind.Mint?
    ensures OwnerSigned(c, txs[i])
  {
    RunPrefix(c, s, txs, i);
    ValidationIs(c, txs[i], Run(c, s, txs[..i]).value);
  }

  /** In every accepted run releases pay the founder on record at the time, refunds the investor, awards one of the two. */
  lemma RunPaysTheParty(c: Crypto, s: State, txs: seq<Tx>, i: nat)
    requires Run(c, s, txs).Some? && i < |txs| && txs[i].kind in {ReleaseMilestone, Refund, Arbitrate}
    ensures Run(c, s, txs[..i]).Some? && txs[i].contractId in Run(c, s, txs[..i]).value.locked
    ensures var lock := Run(c, s, txs[..i]).value.locked[txs[i].contractId];
            match txs[i].kind
            case ReleaseMilestone => txs[i].to == lock.founder
            case Refund => txs[i].to == lock.investor
            case _ => txs[i].to in {lock.founder, lock.investor}
  {
    RunPrefix(c, s, txs, i);
  }
}
