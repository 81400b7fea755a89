/** A contract and its on-chain lock move together, with releases, awards and refunds in flight between them. */
module Coupling {
  import opened Wrappers
  import opened Integers
  import opened Sums
  import opened Transactions
  import opened Ledger
  import opened LedgerLaws
  import opened Escrow
  import opened EscrowLaws
  import opened Workflow

  // ----- What is in flight -----

  function IsAward(): Tx -> int {
    (t: Tx) => OneIf(t.kind.Arbitrate?)
  }

  function IsRefund(): Tx -> int {
    (t: Tx) => OneIf(t.kind.Refund?)
  }

  /** The money claimed, and the numbers of awards and refunds, in flight. */
  datatype Flight = Flight(claims: int, awards: int, refunds: int)

  function FlightOf(pool: seq<Tx>): Flight {
    Flight(SumBy(Claim(), pool), SumBy(IsAward(), pool), SumBy(IsRefund(), pool))
  }

  const GROUND := Flight(0, 0, 0)

  function Plus(f: Flight, t: Tx): Flight {
    Flight(f.claims + Claim()(t), f.awards + IsAward()(t), f.refunds + IsRefund()(t))
  }

  /** A transaction of the contract's own handlers. */
  predicate Own(c: Contract, t: Tx) {
    && t.contractId == c.id
    && t.amount > 0
    && match t.kind
       case ReleaseMilestone => t.to == c.founder
       case Arbitrate => t.to == c.founder || t.to == c.investor
       case Refund => t.to == c.investor
       case _ => false
  }

  predicate PoolOk(c: Contract, pool: seq<Tx>) {
    forall i :: 0 <= i < |pool| ==> Own(c, pool[i])
  }

  lemma FlightSnoc(pool: seq<Tx>, t: Tx)
    ensures FlightOf(pool + [t]) == Plus(FlightOf(pool), t)
  {
    SumSnoc(Claim(), pool, t);
    SumSnoc(IsAward(), pool, t);
    SumSnoc(IsRefund(), pool, t);
  }

  lemma FlightRemove(pool: seq<Tx>, i: nat)
    requires i < |pool|
    ensures FlightOf(pool) == Plus(FlightOf(Without(pool, i)), pool[i])
  {
    SumRemove(Claim(), pool, i);
    SumRemove(IsAward(), pool, i);
    SumRemove(IsRefund(), pool, i);
  }

  lemma FlightBounds(c: Contract, pool: seq<Tx>)
    requires PoolOk(c, pool)
    ensures Natural(FlightOf(pool))
  {
    SumNonNegative(Claim(), pool);
    SumNonNegative(IsAward(), pool);
    SumNonNegative(IsRefund(), pool);
    if FlightOf(pool).awards > 0 {
      var i := FindPositive(IsAward(), pool);
      FlightCovers(c, pool, i);
    }
  }

  /** What one transaction in flight adds is part of the whole. */
  lemma FlightCovers(c: Contract, pool: seq<Tx>, i: nat)
    requires PoolOk(c, pool) && i < |pool|
    ensures Claim()(pool[i]) <= FlightOf(pool).claims
    ensures IsAward()(pool[i]) <= FlightOf(pool).awards && IsRefund()(pool[i]) <= FlightOf(pool).refunds
  {
    SumCovers(Claim(), pool, i);
    SumCovers(IsAward(), pool, i);
    SumCovers(IsRefund(), pool, i);
  }

  lemma {:induction false} FindPositive(f: Tx -> int, pool: seq<Tx>) returns (i: nat)
    requires SumBy(f, pool) > 0
    ensures i < |pool| && f(pool[i]) > 0
  {
    var n := |pool| - 1;
    if f(pool[n]) > 0 {
      i := n;
    } else {
      i := FindPositive(f, pool[..n]);
    }
  }

  lemma NothingInFlightIff(c: Contract, pool: seq<Tx>)
    requires PoolOk(c, pool)
    ensures FlightOf(pool) == GROUND <==> pool == []
    ensures FlightOf(pool).claims == 0 && FlightOf(pool).refunds == 0 ==> pool == []
  {
    if pool != [] {
      FlightBounds(c, pool);
      FlightCovers(c, pool, 0);
    }
  }

  // ----- The coupling -----

  /** The parties are the contract's, and one award at most is in flight, over a frozen lock. */
  predicate Belongs(c: Contract, lock: Option<EscrowLock>, f: Flight) {
    && lock.Some?
    && lock.value.investor == c.investor
    && lock.value.founder == c.founder
    && f.awards <= 1
    && (f.awards == 1 ==> lock.value.status == FROZEN)
  }

  /** The lock holds what is not approved plus what is approved and not yet paid; with no award in flight, in `idle`. */
  predicate Matches(c: Contract, lock: Option<EscrowLock>, f: Flight, idle: set<LockStatus>) {
    && Belongs(c, lock, f)
    && f.refunds == 0
    && lock.value.amount == SumBy(Outstanding(), c.milestones) + f.claims
    && (f.awards == 0 ==> lock.value.status in idle)
  }

  /** Nothing in flight is stranded: the lock pays releases, or an award is on its way to unfreeze it. */
  predicate Payable(lock: Option<EscrowLock>, f: Flight) {
    f.claims > 0 && f.awards == 0 ==> lock.Some? && lock.value.status == LOCKED
  }

  /** `off`: how far what the lock holds is off outstanding and claims, by claims lost and by awards beyond approvals. */
  predicate LockFollows(c: Contract, lock: Option<EscrowLock>, f: Flight, off: int) {
    (c.state == StateTerminated || off == 0) &&
    match c.state
    case StateDraft => lock.None? && f == GROUND
    case StatePendingSignature => lock.None? && f == GROUND
    case StateSigned => f == GROUND && (lock.Some? ==> Matches(c, lock, f, {LOCKED}))
    case StateFunded => f == GROUND && Matches(c, lock, f, {LOCKED})
    case StateInProgress => Matches(c, lock, f, {LOCKED})
    case StateMilestoneReview => Matches(c, lock, f, {LOCKED})
    case StateDisputed => Matches(c, lock, f, {LOCKED, FROZEN, RELEASED})
    case StateCompleted => f.awards == 0 && Matches(c, lock, f, {LOCKED, RELEASED})
    case StateTerminated =>
      && Belongs(c, lock, f) && f.claims <= lock.value.amount && Payable(lock, f)
      && (lock.value.status != REFUNDED ==> lock.value.amount == SumBy(Outstanding(), c.milestones) + f.claims + off)
    case _ => false
  }

  /** The part of the coupling that does not look at the lock. */
  ghost predicate Grounded(w: World) {
    && WellFormed(w.ledger)
    && Consistent(w.contract)
    && w.contract.totalAmount == SumBy(Face(), w.contract.milestones)
    && w.contract.id != "" && w.contract.investor != ""
    && PoolOk(w.contract, w.pool)
    && w.awarded >= 0 && w.lost >= 0
    && (w.contract.state == StateTerminated || w.awarded == w.lost == 0)
  }

  function LockOf(w: World): Option<EscrowLock> {
    LockAt(w.ledger, w.contract.id)
  }

  ghost predicate Coupled(w: World) {
    Grounded(w) && LockFollows(w.contract, LockOf(w), FlightOf(w.pool), w.lost - w.awarded)
  }

  /** What is known of the money outstanding, for the arithmetic of locks. */
  predicate Open(c: Contract) {
    && SumBy(Outstanding(), c.milestones) >= 0
    && (c.state in {StateInProgress, StateMilestoneReview} ==> SumBy(Outstanding(), c.milestones) > 0)
    && (c.state == StateCompleted ==> SumBy(Outstanding(), c.milestones) == 0)
  }

  /** A contract in progress or under review has money outstanding, a completed one has none. */
  lemma OutstandingIfOpen(c: Contract)
    requires Consistent(c)
    ensures Open(c)
  {
    SumsAreExact(c.milestones);
    NothingRemainsIff(c.milestones);
    if c.state == StateMilestoneReview {
      var i: nat :| OneIs(c.milestones, MilestoneSubmitted, i);
      assert c.milestones[i].status != MilestoneApproved;
    }
  }

  predicate Natural(f: Flight) {
    f.claims >= 0 && f.awards >= 0 && f.refunds >= 0 && (f.awards > 0 ==> f.claims > 0)
  }

  /** What every coupled world gives the arithmetic below. */
  lemma CoupledFacts(w: World)
    requires Grounded(w)
    ensures LockOf(w).Some? ==> LockOk(w.contract.id, LockOf(w).value)
    ensures Natural(FlightOf(w.pool)) && Open(w.contract)
    ensures FlightOf(w.pool) == GROUND <==> w.pool == []
    ensures RemainingAmount(w.contract.milestones) == SumBy(Outstanding(), w.contract.milestones) >= 0
    ensures RemainingAmount(w.contract.milestones) == 0 <==> AllAre(w.contract.milestones, MilestoneApproved)
  {
    FlightBounds(w.contract, w.pool);
    NothingInFlightIff(w.contract, w.pool);
    SumsAreExact(w.contract.milestones);
    NothingRemainsIff(w.contract.milestones);
    OutstandingIfOpen(w.contract);
  }

  /** A new contract over any reachable ledger without a lock under its ID. */
  lemma NewContractCoupled(id: string, investor: string, founder: string, ms: seq<Milestone>, now: int, s: State)
    requires WellFormed(s) && id != "" && investor != "" && id !in s.locked
    requires AmountsOk(ms) && |ms| > 0 && AllAre(ms, MilestonePending)
    ensures NewContract(id, investor, founder, ms, now).Ok?
    ensures Coupled(World(NewContract(id, investor, founder, ms, now).value, s, [], 0, 0))
  {
    SumsAreExact(ms);
    SumCovers(Face(), ms, 0);
    assert Face()(ms[0]) > 0;
  }

  // ----- What one transaction does to the lock -----

  lemma LedgerStepKeeps(s: State, t: Tx)
    requires WellFormed(s) && CheckRules(t, s).Pass?
    ensures WellFormed(Effect(t, s))
  {
    forall cid | cid in Effect(t, s).locked
      ensures LockOk(cid, Effect(t, s).locked[cid])
    {
      StepKeepsLock(s, t, cid);
    }
  }

  lemma ElsewhereLeavesLock(s: State, t: Tx, cid: string)
    requires CheckRules(t, s).Pass? && !TouchesLock(t, cid)
    ensures LockAt(Effect(t, s), cid) == LockAt(s, cid)
  {
  }

  /** A transaction of the handlers passes exactly when the lock's status and amount allow it. */
  lemma OwnPassesIff(c: Contract, t: Tx, s: State)
    requires Own(c, t) && LockAt(s, c.id).Some?
    requires LockAt(s, c.id).value.investor == c.investor && LockAt(s, c.id).value.founder == c.founder
    ensures var lock := LockAt(s, c.id).value;
            CheckRules(t, s).Pass? <==>
              match t.kind
              case ReleaseMilestone => lock.status == LOCKED && t.amount <= lock.amount
              case Arbitrate => lock.status == FROZEN && t.amount <= lock.amount
              case _ => lock.status in {LOCKED, FROZEN}
  {
  }

  /** What a release or an award leaves of the lock. */
  function Paid(lock: EscrowLock, t: Tx): EscrowLock
    requires t.amount <= lock.amount && lock.amount >= 0 && t.amount >= 0
  {
    lock.(amount := lock.amount - t.amount, status := if lock.amount == t.amount then RELEASED else LOCKED)
  }

  lemma PaidLock(s: State, t: Tx)
    requires WellFormed(s) && t.kind in {ReleaseMilestone, Arbitrate} && CheckRules(t, s).Pass?
    ensures WellFormed(Effect(t, s)) && LockAt(s, t.contractId).Some?
    ensures var lock := LockAt(s, t.contractId).value;
            && lock.status == (if t.kind.Arbitrate? then FROZEN else LOCKED)
            && 0 < t.amount <= lock.amount
            && LockAt(Effect(t, s), t.contractId) == Some(Paid(lock, t))
  {
    LedgerStepKeeps(s, t);
    assert LockOk(t.contractId, s.locked[t.contractId]);
  }

  lemma RefundedLock(s: State, t: Tx)
    requires WellFormed(s) && t.kind.Refund? && CheckRules(t, s).Pass?
    ensures WellFormed(Effect(t, s)) && LockAt(s, t.contractId).Some?
    ensures LockAt(s, t.contractId).value.status in {LOCKED, FROZEN}
    ensures LockAt(Effect(t, s), t.contractId) == Some(LockAt(s, t.contractId).value.(amount := 0, status := REFUNDED))
  {
    LedgerStepKeeps(s, t);
  }

  lemma FrozenLock(s: State, t: Tx)
    requires WellFormed(s) && t.kind.FreezeDispute? && CheckRules(t, s).Pass?
    ensures WellFormed(Effect(t, s)) && LockAt(s, t.contractId).Some?
    ensures LockAt(s, t.contractId).value.status == LOCKED
    ensures LockAt(Effect(t, s), t.contractId) == Some(LockAt(s, t.contractId).value.(status := FROZEN))
  {
    LedgerStepKeeps(s, t);
  }

  // ----- Funding -----

  /** Funding passes exactly when the investor can pay, the nonce is current, and no lock exists. */
  lemma FundingPassesIff(k: Crypto, c: Contract, s: State, nonce: int64, now: int)
    requires c.state == StateSigned && c.id != "" && c.investor != "" && c.totalAmount > 0
    ensures BuildFundingTx(k, c, nonce, now).Ok?
    ensures CheckRules(BuildFundingTx(k, c, nonce, now).value, s).Pass? <==>
            && c.id !in s.locked
            && Get(s.balances, c.investor) >= c.totalAmount
            && Get(s.nonces, c.investor) == nonce
  {
  }

  lemma {:induction false} PendingOutstanding(ms: seq<Milestone>)
    requires AllAre(ms, MilestonePending)
    ensures SumBy(Outstanding(), ms) == SumBy(Face(), ms)
  {
    if |ms| == 0 {
    } else {
      PendingOutstanding(ms[..|ms| - 1]);
    }
  }

  lemma FundingKeeps(a: Authority, w: World, nonce: int64, now: int)
    requires Coupled(w) && Next(a, w, FundingCommitted(nonce), now).Some?
    ensures Coupled(Next(a, w, FundingCommitted(nonce), now).value)
  {
    var t := BuildFundingTx(a.k, w.contract, nonce, now).value;
    LedgerStepKeeps(w.ledger, t);
    PendingOutstanding(w.contract.milestones);
  }

  /**
   * handleConfirmFunded compares amounts only, and anyone can LOCK under the contract's ID. Confirming a lock of the
   * right amount always succeeds; it starts a coupled contract exactly when parties and status are right too.
   */
  lemma ConfirmCouplesIff(w: World, now: int)
    requires Grounded(w) && w.contract.state == StateSigned && w.pool == []
    requires LockOf(w).Some? && LockOf(w).value.amount == w.contract.totalAmount
    ensures ConfirmFunded(w.contract, w.ledger, now).1 == Done
    ensures Coupled(w.(contract := ConfirmFunded(w.contract, w.ledger, now).0)) <==>
            && LockOf(w).value.investor == w.contract.investor
            && LockOf(w).value.founder == w.contract.founder
            && LockOf(w).value.status == LOCKED
  {
    PendingOutstanding(w.contract.milestones);
    CoupledFacts(w);
    assert w.contract.milestones[0].status == MilestonePending;
  }

  /** The other half is reachable: a LOCK by or for somebody else, of the contract's total, is confirmed. */
  lemma StrangersLockIsConfirmed(w: World, t: Tx, now: int)
    requires Coupled(w) && w.contract.state == StateSigned && LockOf(w).None?
    requires t.kind.Lock? && t.contractId == w.contract.id && t.amount == w.contract.totalAmount
    requires CheckRules(t, w.ledger).Pass? && (t.from != w.contract.investor || t.to != w.contract.founder)
    ensures ConfirmFunded(w.contract, Effect(t, w.ledger), now).1 == Done
    ensures !Coupled(w.(contract := ConfirmFunded(w.contract, Effect(t, w.ledger), now).0, ledger := Effect(t, w.ledger)))
  {
    LedgerStepKeeps(w.ledger, t);
    CoupledFacts(w);
    ConfirmCouplesIff(w.(ledger := Effect(t, w.ledger)), now);
  }

  lemma ConfirmKeeps(w: World, now: int)
    requires Coupled(w)
    ensures Coupled(w.(contract := ConfirmFunded(w.contract, w.ledger, now).0))
    ensures ConfirmFunded(w.contract, w.ledger, now).1 == Done ==>
              w.contract.state == StateSigned && ConfirmFunded(w.contract, w.ledger, now).0.state == StateInProgress
  {
    CoupledFacts(w);
    if w.contract.state == StateSigned && LockOf(w).Some? && LockOf(w).value.amount == w.contract.totalAmount {
      ConfirmCouplesIff(w, now);
    }
  }

  // ----- Work and disputes: the contract moves, lock and pool stay -----

  /** A contract step that keeps the parties and the amounts. */
  predicate SameDeal(c: Contract, c': Contract) {
    && c'.id == c.id && c'.investor == c.investor && c'.founder == c.founder && c'.totalAmount == c.totalAmount
    && SumBy(Face(), c'.milestones) == SumBy(Face(), c.milestones)
  }

  lemma RestampedDeal(c: Contract, i: nat, m: Milestone)
    requires i < |c.milestones| && m.amount == c.milestones[i].amount
    ensures SumBy(Face(), c.milestones[i := m]) == SumBy(Face(), c.milestones)
  {
    SumUpdate(Face(), c.milestones, i, m);
  }

  lemma SubmitCouples(w: World, id: string, now: int)
    requires Coupled(w)
    ensures Coupled(w.(contract := SubmitMilestone(w.contract, id, now).0))
  {
    var (c', error) := SubmitMilestone(w.contract, id, now);
    SubmitKeeps(w.contract, id, now);
    if error.None? {
      var i := Find(w.contract.milestones, id).value;
      RestampedDeal(w.contract, i, c'.milestones[i]);
      RestampKeepsAmounts(w.contract.milestones, i, c'.milestones[i]);
    }
  }

  lemma DisputeCouples(w: World, id: string, now: int)
    requires Coupled(w)
    ensures Coupled(w.(contract := DisputeMilestone(w.contract, id, now).0))
  {
    var (c', error) := DisputeMilestone(w.contract, id, now);
    DisputeKeeps(w.contract, id, now);
    if error.None? {
      var i := Find(w.contract.milestones, id).value;
      RestampedDeal(w.contract, i, c'.milestones[i]);
      RestampKeepsAmounts(w.contract.milestones, i, c'.milestones[i]);
    }
  }

  /**
   * The raw transition of handleAdvanceContract keeps the coupling exactly when it is refused, when nothing is signed
   * yet, when it does what confirmation does (from SIGNED once the lock is there, and from FUNDED), or when it terminates
   * a contract none of whose releases in flight is stranded by that.
   */
  lemma AdvanceKeepsIff(w: World, to: ContractState, now: int)
    requires Coupled(w)
    ensures Coupled(w.(contract := Advance(w.contract, to, now).0)) <==>
            || Transition(w.contract.state, to).Fail?
            || w.contract.state in {StateDraft, StatePendingSignature, StateFunded}
            || (w.contract.state == StateSigned && LockOf(w).Some?)
            || (to == StateTerminated && Payable(LockOf(w), FlightOf(w.pool)))
  {
    CoupledFacts(w);
  }

  // ----- Releases -----

  lemma ApprovalKeepsDeal(c: Contract, id: string, now: int)
    requires Find(c.milestones, id).Some?
    ensures SameDeal(c, ApproveMilestone(c, id, now).0)
  {
    var i := Find(c.milestones, id).value;
    RestampedDeal(c, i, c.milestones[i].(status := MilestoneApproved, approvedAt := now));
  }

  /** A release that a contract can build is accepted exactly when no award is in flight, that is, over a LOCKED lock. */
  lemma ReleasePassesIff(a: Authority, w: World, id: string, nonce: int64, now: int)
    requires Coupled(w) && BuildMilestoneReleaseTx(a.k, w.contract, id, a.address, nonce, now).Ok?
    ensures w.contract.state == StateMilestoneReview
    ensures Next(a, w, ReleaseIssued(id, nonce), now).Some? <==> FlightOf(w.pool).awards == 0
    ensures FlightOf(w.pool).awards == 0 <==> LockOf(w).Some? && LockOf(w).value.status == LOCKED
  {
    hide CheckRules, ApproveMilestone, RemainingAmount, WellFormed;
    var c := w.contract;
    var t := BuildMilestoneReleaseTx(a.k, c, id, a.address, nonce, now).value;
    ApproveKeeps(c, id, now);
    CoupledFacts(w);
    SubmittedIsOutstanding(c, id);
    assert Own(c, t);
    OwnPassesIff(c, t, w.ledger);
  }

  lemma SubmittedIsOutstanding(c: Contract, id: string)
    requires Consistent(c) && IsSubmitted(c, id)
    ensures 0 < c.milestones[Find(c.milestones, id).value].amount <= SumBy(Outstanding(), c.milestones)
  {
    var i := Find(c.milestones, id).value;
    SumCovers(Outstanding(), c.milestones, i);
    assert Outstanding()(c.milestones[i]) == c.milestones[i].amount;
  }

  lemma ReleaseIssuedKeeps(a: Authority, w: World, id: string, nonce: int64, now: int)
    requires Coupled(w) && Next(a, w, ReleaseIssued(id, nonce), now).Some?
    ensures Coupled(Next(a, w, ReleaseIssued(id, nonce), now).value)
  {
    hide CheckRules, ApproveMilestone, RemainingAmount, WellFormed, LockFollows, Consistent;
    var c := w.contract;
    var t := BuildMilestoneReleaseTx(a.k, c, id, a.address, nonce, now).value;
    var c' := ApproveMilestone(c, id, now).0;
    ReleasePassesIff(a, w, id, nonce, now);
    ApproveKeeps(c, id, now);
    ApprovalKeepsDeal(c, id, now);
    FlightSnoc(w.pool, t);
    CoupledFacts(w);
    OutstandingIfOpen(c');
    SubmittedIsOutstanding(c, id);
    assert Own(c, t) && PoolOk(c', w.pool + [t]);
    ApprovedFollows(c, c', LockOf(w).value, FlightOf(w.pool), t);
  }

  lemma ApprovedFollows(c: Contract, c': Contract, lock: EscrowLock, f: Flight, t: Tx)
    requires c.state == StateMilestoneReview && LockFollows(c, Some(lock), f, 0) && f.awards == 0
    requires t.kind.ReleaseMilestone? && Open(c')
    requires c'.state in {StateInProgress, StateCompleted} && c'.investor == c.investor && c'.founder == c.founder
    requires SumBy(Outstanding(), c'.milestones) == SumBy(Outstanding(), c.milestones) - t.amount
    ensures LockFollows(c', Some(lock), Plus(f, t), 0)
  {
  }

  // ----- Arbitration -----

  lemma ResolutionKeepsDeal(c: Contract, id: string, terminate: bool, now: int)
    ensures SameDeal(c, ResolveArbitration(c, id, terminate, now).0)
  {
    if !terminate && Find(c.milestones, id).Some? {
      var i := Find(c.milestones, id).value;
      RestampedDeal(c, i, c.milestones[i].(status := MilestoneApproved, approvedAt := now));
    }
  }

  /** An award is accepted exactly when the lock is frozen and holds its amount. */
  lemma AwardPassesIff(a: Authority, w: World, id: string, awardTo: string, amount: int64, terminate: bool, nonce: int64, now: int)
    requires Coupled(w) && w.contract.state == StateDisputed && amount > 0
    requires awardTo == w.contract.founder || awardTo == w.contract.investor
    ensures Next(a, w, ArbitrationIssued(id, awardTo, amount, terminate, nonce), now).Some? <==>
            LockOf(w).value.status == FROZEN && amount <= LockOf(w).value.amount
  {
    hide ResolveArbitration;
    OwnPassesIff(w.contract, BuildArbitrationTx(a.k, w.contract, id, a.address, awardTo, amount, nonce, now).value, w.ledger);
  }

  /** The contract after a resolution that is not of the disputed milestone: out of order, or with nothing left to approve. */
  lemma ResolveOtherwise(c: Contract, id: string, now: int)
    requires Consistent(c) && c.state == StateDisputed && !IsDisputed(c, id)
    ensures var c' := ResolveArbitration(c, id, false, now).0;
            Consistent(c') ==> c'.state == StateDisputed && SumBy(Outstanding(), c'.milestones) == SumBy(Outstanding(), c.milestones)
  {
    var c' := ResolveArbitration(c, id, false, now).0;
    if AllAre(c.milestones, MilestoneApproved) {
      assert AllAre(c'.milestones, MilestoneApproved);
      LastArbitrationIsStuck(c, id, now);
      SumIsZero(c.milestones);
      SumIsZero(c'.milestones);
    } else {
      ResolveKeepsIff(c, id, now);
    }
  }

  /** The award of a resumed contract, in the pool: the coupling depends on the milestone, the amount and what else is in flight. */
  lemma ResumingAwardKeepsIff(w: World, t: Tx, id: string, now: int)
    requires Coupled(w) && w.contract.state == StateDisputed && CheckRules(t, w.ledger).Pass?
    requires Own(w.contract, t) && t.kind.Arbitrate?
    ensures Coupled(w.(contract := ResolveArbitration(w.contract, id, false, now).0, pool := w.pool + [t])) <==>
            && FlightOf(w.pool).awards == 0
            && IsDisputed(w.contract, id)
            && t.amount == w.contract.milestones[Find(w.contract.milestones, id).value].amount
  {
    hide CheckRules, ResolveArbitration, RemainingAmount, WellFormed, LockFollows, Consistent, IsDisputed;
    var c' := ResolveArbitration(w.contract, id, false, now).0;
    PaidLock(w.ledger, t);
    FlightSnoc(w.pool, t);
    CoupledFacts(w);
    ResolutionKeepsDeal(w.contract, id, false, now);
    assert PoolOk(c', w.pool + [t]);
    if IsDisputed(w.contract, id) {
      ResolveDisputedKeeps(w.contract, id, now);
      AwardFollowsIff(w.contract, c', LockOf(w).value, FlightOf(w.pool), t);
    } else if Consistent(c') {
      ResolveOtherwise(w.contract, id, now);
      AwardFollowsIff(w.contract, c', LockOf(w).value, FlightOf(w.pool), t);
    }
  }

  lemma AwardFollowsIff(c: Contract, c': Contract, lock: EscrowLock, f: Flight, t: Tx)
    requires c.state == StateDisputed && LockFollows(c, Some(lock), f, 0) && Natural(f)
    requires t.kind.Arbitrate? && 0 < t.amount <= lock.amount && lock.status == FROZEN
    requires c'.state in {StateInProgress, StateDisputed} && c'.investor == c.investor && c'.founder == c.founder
    ensures LockFollows(c', Some(lock), Plus(f, t), 0) <==>
            f.awards == 0 && SumBy(Outstanding(), c'.milestones) == SumBy(Outstanding(), c.milestones) - t.amount
  {
  }

  /** The award of a terminated contract: what is left must cover every release in flight. */
  lemma TerminatingAwardKeepsIff(w: World, t: Tx, id: string, now: int)
    requires Coupled(w) && w.contract.state == StateDisputed && CheckRules(t, w.ledger).Pass?
    requires Own(w.contract, t) && t.kind.Arbitrate?
    ensures Coupled(w.(contract := ResolveArbitration(w.contract, id, true, now).0, pool := w.pool + [t],
                       awarded := w.awarded + t.amount)) <==>
            FlightOf(w.pool).awards == 0 && t.amount <= RemainingAmount(w.contract.milestones)
  {
    var c' := ResolveArbitration(w.contract, id, true, now).0;
    PaidLock(w.ledger, t);
    FlightSnoc(w.pool, t);
    CoupledFacts(w);
    hide CheckRules, RemainingAmount, WellFormed;
    assert PoolOk(c', w.pool + [t]);
  }

  /** What arbitration asks of its caller. */
  predicate InOrder(w: World, id: string, amount: int64, terminate: bool) {
    && FlightOf(w.pool).awards == 0
    && if terminate then amount <= RemainingAmount(w.contract.milestones)
       else IsDisputed(w.contract, id) && amount == w.contract.milestones[Find(w.contract.milestones, id).value].amount
  }

  /**
   * handleArbitrate takes any amount the lock can pay, any milestone ID, and a second award while the first is in
   * flight. It keeps the coupling exactly when no award is in flight and either the award is the disputed milestone's
   * amount, or the contract ends and the award leaves enough for the releases in flight.
   */
  lemma ArbitrationKeepsIff(a: Authority, w: World, id: string, awardTo: string, amount: int64, terminate: bool, nonce: int64, now: int)
    requires Coupled(w) && Next(a, w, ArbitrationIssued(id, awardTo, amount, terminate, nonce), now).Some?
    ensures Coupled(Next(a, w, ArbitrationIssued(id, awardTo, amount, terminate, nonce), now).value)
            <==> InOrder(w, id, amount, terminate)
  {
    var t := BuildArbitrationTx(a.k, w.contract, id, a.address, awardTo, amount, nonce, now).value;
    assert t.amount == amount > 0 && Own(w.contract, t);
    hide CheckRules, Coupled, ResolveArbitration, Own, IsDisputed;
    if terminate {
      TerminatingAwardKeepsIff(w, t, id, now);
    } else {
      ResumingAwardKeepsIff(w, t, id, now);
    }
  }

  // ----- Refunds -----

  /** A refund keeps the coupling, while it is in flight, exactly when the contract can end and strands no release. */
  lemma RefundIssuedKeepsIff(a: Authority, w: World, nonce: int64, now: int)
    requires Coupled(w) && Next(a, w, RefundIssued(nonce), now).Some?
    ensures Coupled(Next(a, w, RefundIssued(nonce), now).value) <==>
            && w.contract.state in {StateInProgress, StateDisputed, StateTerminated}
            && Payable(LockOf(w), FlightOf(w.pool))
  {
    hide CheckRules, RemainingAmount, WellFormed, LockFollows, Payable;
    var t := BuildRefundTx(a.k, w.contract, a.address, nonce, now).value;
    FlightSnoc(w.pool, t);
    CoupledFacts(w);
    RefundedLock(w.ledger, t);
    assert Own(w.contract, t) && PoolOk(w.contract, w.pool + [t]);
    EndFollowsIff(w.contract, LockOf(w).value, FlightOf(w.pool), w.lost - w.awarded, t, now);
  }

  lemma EndFollowsIff(c: Contract, lock: EscrowLock, f: Flight, off: int, t: Tx, now: int)
    requires LockFollows(c, Some(lock), f, off) && t.kind.Refund? && lock.status in {LOCKED, FROZEN}
    requires SumBy(Outstanding(), c.milestones) > 0 && f.claims >= 0 && f.refunds >= 0
    requires c.state == StateCompleted ==> SumBy(Outstanding(), c.milestones) == 0
    ensures LockFollows(Advance(c, StateTerminated, now).0, Some(lock), Plus(f, t), off) <==>
            c.state in {StateInProgress, StateDisputed, StateTerminated} && Payable(Some(lock), f)
  {
  }

  /**
   * A refund passes exactly while the lock is open, which it is until the contract is terminated. It states what the
   * lock holds exactly when what is claimed and what was lost come to what awards have ended the contract with; so, of a
   * contract not terminated, exactly when nothing is in flight.
   */
  lemma RefundPassesAndPaysItsAmountIff(a: Authority, w: World, nonce: int64, now: int)
    requires Coupled(w) && LockOf(w).Some? && BuildRefundTx(a.k, w.contract, a.address, nonce, now).Ok?
    ensures var t, lock := BuildRefundTx(a.k, w.contract, a.address, nonce, now).value, LockOf(w).value;
            && (CheckRules(t, w.ledger).Pass? <==> lock.status in {LOCKED, FROZEN})
            && (CheckRules(t, w.ledger).Pass? ==>
                  && lock.amount == t.amount + FlightOf(w.pool).claims + w.lost - w.awarded
                  && (t.amount == lock.amount <==> FlightOf(w.pool).claims + w.lost == w.awarded))
            && (w.contract.state != StateTerminated ==>
                  && CheckRules(t, w.ledger).Pass?
                  && t.amount <= lock.amount
                  && (t.amount == lock.amount <==> w.pool == []))
  {
    var t := BuildRefundTx(a.k, w.contract, a.address, nonce, now).value;
    CoupledFacts(w);
    NothingInFlightIff(w.contract, w.pool);
    OwnPassesIff(w.contract, t, w.ledger);
  }

  /** What it pays, committed there and then: all the lock holds, more or less than it states. */
  lemma RefundPaysTheLock(a: Authority, w: World, nonce: int64, now: int)
    requires Coupled(w) && Next(a, w, RefundIssued(nonce), now).Some?
    ensures var t, paid := BuildRefundTx(a.k, w.contract, a.address, nonce, now).value, LockOf(w).value.amount;
            && Effect(t, w.ledger).balances == Credit(w.ledger.balances, w.contract.investor, paid)
            && Effect(t, w.ledger).locked[w.contract.id].amount == 0
            && (paid > t.amount <==> FlightOf(w.pool).claims + w.lost > w.awarded)
            && (paid < t.amount <==> FlightOf(w.pool).claims + w.lost < w.awarded)
            && (w.contract.state != StateTerminated && w.pool != [] ==> paid > t.amount)
  {
    RefundPassesAndPaysItsAmountIff(a, w, nonce, now);
    CoupledFacts(w);
  }

  /** Committed in its turn, after every claim, a refund pays what remains to be approved, less what awards have taken. */
  lemma RefundPaysTheRest(w: World, j: nat)
    requires Coupled(w) && j < |w.pool| && w.pool[j].kind.Refund? && FlightOf(w.pool).claims == 0
    requires CheckRules(w.pool[j], w.ledger).Pass?
    ensures w.contract.state == StateTerminated
    ensures Effect(w.pool[j], w.ledger).balances ==
            Credit(w.ledger.balances, w.contract.investor, LockOf(w).value.amount)
    ensures LockOf(w).value.amount == RemainingAmount(w.contract.milestones) + w.lost - w.awarded
  {
    CoupledFacts(w);
    FlightCovers(w.contract, w.pool, j);
    RefundedLock(w.ledger, w.pool[j]);
  }

  /**
   * The ordinary way to pay a part and refund the rest states too much: after a terminating award of less than
   * RemainingAmount, committed, nothing is in flight and the refund states the award on top of what it pays.
   */
  lemma RefundAfterAwardUnderpays(a: Authority, w: World, id: string, awardTo: string, amount: int64, nonce: int64, now: int)
    returns (w1: World, w2: World)
    requires Coupled(w) && w.contract.state == StateDisputed && w.pool == [] && LockOf(w).value.status == FROZEN
    requires awardTo == w.contract.founder || awardTo == w.contract.investor
    requires 0 < amount < RemainingAmount(w.contract.milestones)
    ensures var award := ArbitrationIssued(id, awardTo, amount, true, nonce);
            Orderly(w, award) && Next(a, w, award, now) == Some(w1)
    ensures Orderly(w1, Committed(0)) && Next(a, w1, Committed(0), now) == Some(w2)
    ensures w2.pool == [] && LockOf(w2).Some?
    ensures Orderly(w2, RefundIssued(nonce)) && Next(a, w2, RefundIssued(nonce), now).Some?
    ensures BuildRefundTx(a.k, w2.contract, a.address, nonce, now).Ok?
    ensures BuildRefundTx(a.k, w2.contract, a.address, nonce, now).value.amount == LockOf(w2).value.amount + amount
  {
    hide Coupled, Next, Orderly;
    AwardEnds(a, w, id, awardTo, amount, nonce, now);
    w1 := Next(a, w, ArbitrationIssued(id, awardTo, amount, true, nonce), now).value;
    AwardIsPaid(a, w1, amount, now);
    w2 := Next(a, w1, Committed(0), now).value;
    RestIsRefunded(a, w2, amount, nonce, now);
  }

  /** The award is orderly and ends the contract. */
  lemma AwardEnds(a: Authority, w: World, id: string, awardTo: string, amount: int64, nonce: int64, now: int)
    requires Coupled(w) && w.contract.state == StateDisputed && w.pool == [] && LockOf(w).value.status == FROZEN
    requires awardTo == w.contract.founder || awardTo == w.contract.investor
    requires 0 < amount < RemainingAmount(w.contract.milestones)
    ensures var award := ArbitrationIssued(id, awardTo, amount, true, nonce);
            && Orderly(w, award) && Next(a, w, award, now).Some?
            && var w1 := Next(a, w, award, now).value;
            && Coupled(w1) && w1.contract.state == StateTerminated && RemainingAmount(w1.contract.milestones) > amount
            && |w1.pool| == 1 && w1.pool[0].kind.Arbitrate? && w1.pool[0].amount == amount && w1.awarded == amount && w1.lost == 0
  {
    DisputedLock(w);
    CoupledIsGrounded(w);
    hide CheckRules, Effect, Coupled;
    CoupledFacts(w);
    AwardPassesIff(a, w, id, awardTo, amount, true, nonce, now);
    ArbitrationKeepsIff(a, w, id, awardTo, amount, true, nonce, now);
  }

  lemma AwardIsPaid(a: Authority, w: World, amount: int64, now: int)
    requires Coupled(w) && w.contract.state == StateTerminated && RemainingAmount(w.contract.milestones) > amount
    requires |w.pool| == 1 && w.pool[0].kind.Arbitrate? && w.pool[0].amount == amount && w.awarded == amount && w.lost == 0
    ensures Orderly(w, Committed(0)) && Next(a, w, Committed(0), now).Some?
    ensures var w' := Next(a, w, Committed(0), now).value;
            && Coupled(w') && w'.contract == w.contract && w'.pool == [] && w'.awarded == amount && w'.lost == 0
            && LockOf(w').Some? && LockOf(w').value.status == LOCKED
  {
    CoupledFacts(w);
    InFlightPassesIff(w, 0);
    FlightRemove(w.pool, 0);
    assert Without(w.pool, 0) == [] && FlightOf([]) == GROUND;
    PaidLock(w.ledger, w.pool[0]);
    hide CheckRules, Effect, WellFormed;
    CommittedKeepsIff(a, w, 0, now);
  }

  lemma RestIsRefunded(a: Authority, w: World, amount: int64, nonce: int64, now: int)
    requires Coupled(w) && w.contract.state == StateTerminated && RemainingAmount(w.contract.milestones) > 0
    requires w.pool == [] && w.awarded == amount && w.lost == 0 && LockOf(w).Some? && LockOf(w).value.status == LOCKED
    ensures Orderly(w, RefundIssued(nonce)) && Next(a, w, RefundIssued(nonce), now).Some?
    ensures BuildRefundTx(a.k, w.contract, a.address, nonce, now).Ok?
    ensures BuildRefundTx(a.k, w.contract, a.address, nonce, now).value.amount == LockOf(w).value.amount + amount
  {
    RefundPassesAndPaysItsAmountIff(a, w, nonce, now);
  }

  lemma DisputedLock(w: World)
    requires Coupled(w) && w.contract.state == StateDisputed
    ensures LockOf(w).Some? && w.awarded == w.lost == 0
    ensures LockOf(w).value.amount == SumBy(Outstanding(), w.contract.milestones) + FlightOf(w.pool).claims
  {
  }

  /**
   * Issued and committed at once, a refund keeps the coupling exactly when the contract can end and no release or award
   * is in flight.
   */
  lemma RefundAtOnceKeepsIff(a: Authority, w: World, nonce: int64, now: int)
    requires Coupled(w) && Next(a, w, RefundIssued(nonce), now).Some?
    ensures var t := BuildRefundTx(a.k, w.contract, a.address, nonce, now).value;
            && CheckRules(t, w.ledger).Pass?
            && (Coupled(w.(ledger := Effect(t, w.ledger), contract := Advance(w.contract, StateTerminated, now).0)) <==>
                w.contract.state in {StateInProgress, StateDisputed, StateTerminated} && FlightOf(w.pool).claims == 0)
  {
    hide CheckRules, RemainingAmount, WellFormed, LockFollows, Effect;
    var t := BuildRefundTx(a.k, w.contract, a.address, nonce, now).value;
    CoupledFacts(w);
    RefundedLock(w.ledger, t);
    assert PoolOk(Advance(w.contract, StateTerminated, now).0, w.pool);
    EndedFollowsIff(w.contract, LockOf(w).value, FlightOf(w.pool), w.lost - w.awarded, now);
  }

  lemma EndedFollowsIff(c: Contract, lock: EscrowLock, f: Flight, off: int, now: int)
    requires LockFollows(c, Some(lock), f, off) && lock.status in {LOCKED, FROZEN} && Natural(f) && Open(c)
    requires SumBy(Outstanding(), c.milestones) > 0
    ensures LockFollows(Advance(c, StateTerminated, now).0, Some(lock.(amount := 0, status := REFUNDED)), f, off) <==>
            c.state in {StateInProgress, StateDisputed, StateTerminated} && f.claims == 0
  {
  }

  /** A concrete case: under review the refund is accepted, the update fails, and the lock empties under a live contract. */
  lemma RefundUnderReviewDecouples(a: Authority, w: World, nonce: int64, now: int)
    requires Coupled(w) && w.contract.state == StateMilestoneReview
    ensures Next(a, w, RefundIssued(nonce), now).Some?
    ensures Advance(w.contract, StateTerminated, now) == (w.contract, Some(IllegalTransition))
    ensures !Coupled(Next(a, w, RefundIssued(nonce), now).value)
    ensures var t := BuildRefundTx(a.k, w.contract, a.address, nonce, now).value;
            LockAt(Effect(t, w.ledger), w.contract.id) == Some(LockOf(w).value.(amount := 0, status := REFUNDED))
  {
    CoupledFacts(w);
    RefundPassesAndPaysItsAmountIff(a, w, nonce, now);
    RefundIssuedKeepsIff(a, w, nonce, now);
    RefundedLock(w.ledger, BuildRefundTx(a.k, w.contract, a.address, nonce, now).value);
  }

  // ----- Freezing -----

  /** A freeze keeps the coupling exactly in a dispute, or after the end when nothing is left to pay. */
  lemma FreezeKeepsIff(w: World, t: Tx)
    requires Coupled(w) && t.kind.FreezeDispute? && t.contractId == w.contract.id && CheckRules(t, w.ledger).Pass?
    ensures Coupled(w.(ledger := Effect(t, w.ledger))) <==>
            || w.contract.state == StateDisputed
            || (w.contract.state == StateTerminated && FlightOf(w.pool).claims == 0)
  {
    FrozenLock(w.ledger, t);
    CoupledFacts(w);
    hide CheckRules, Effect, WellFormed;
  }

  // ----- Committing what is in flight -----

  /** When a transaction in flight can be committed: releases from a LOCKED lock, awards at once, refunds from any open one. */
  lemma InFlightPassesIff(w: World, i: nat)
    requires Coupled(w) && i < |w.pool|
    ensures LockOf(w).Some?
    ensures CheckRules(w.pool[i], w.ledger).Pass? <==>
              match w.pool[i].kind
              case ReleaseMilestone => LockOf(w).value.status == LOCKED
              case Arbitrate => true
              case _ => LockOf(w).value.status in {LOCKED, FROZEN}
  {
    CoupledFacts(w);
    FlightCovers(w.contract, w.pool, i);
    OwnPassesIff(w.contract, w.pool[i], w.ledger);
  }

  /**
   * A block that commits a release or an award keeps the coupling. One that commits a refund keeps it exactly when no
   * release or award is left in flight: those could never be paid again.
   */
  lemma CommittedKeepsIff(a: Authority, w: World, i: nat, now: int)
    requires Coupled(w) && Next(a, w, Committed(i), now).Some?
    ensures Coupled(Next(a, w, Committed(i), now).value) <==>
            (w.pool[i].kind.Refund? ==> FlightOf(w.pool).claims == 0)
  {
    hide CheckRules, Effect, WellFormed, Consistent, RemainingAmount, LockFollows;
    var t := w.pool[i];
    var w' := Next(a, w, Committed(i), now).value;
    assert CheckRules(t, w.ledger).Pass? && Own(w.contract, t);
    FlightRemove(w.pool, i);
    CoupledFacts(w);
    assert PoolOk(w.contract, w'.pool);
    FlightBounds(w.contract, w'.pool);
    if t.kind.Refund? {
      RefundedLock(w.ledger, t);
      RefundedFollowsIff(w.contract, LockOf(w).value, FlightOf(w'.pool), w.lost - w.awarded, t);
    } else {
      PaidLock(w.ledger, t);
      PaidFollows(w.contract, LockOf(w).value, FlightOf(w'.pool), w.lost - w.awarded, t);
    }
  }

  lemma PaidFollows(c: Contract, lock: EscrowLock, f: Flight, off: int, t: Tx)
    requires Open(c) && Natural(f) && LockFollows(c, Some(lock), Plus(f, t), off)
    requires t.kind in {ReleaseMilestone, Arbitrate} && 0 < t.amount <= lock.amount
    requires lock.status == if t.kind.Arbitrate? then FROZEN else LOCKED
    ensures LockFollows(c, Some(Paid(lock, t)), f, off)
  {
  }

  lemma RefundedFollowsIff(c: Contract, lock: EscrowLock, f: Flight, off: int, t: Tx)
    requires Open(c) && Natural(f) && LockFollows(c, Some(lock), Plus(f, t), off) && t.kind.Refund?
    ensures LockFollows(c, Some(lock.(amount := 0, status := REFUNDED)), f, off) <==> f.claims == 0
  {
  }

  // ----- Losing what is in flight -----

  /**
   * A transaction in flight that is lost breaks the coupling, since no handler will build it again, except after the
   * end, when a refund can still fetch the money; and not even then if it is the award that others in flight wait for.
   */
  lemma DroppedKeepsIff(a: Authority, w: World, i: nat, now: int)
    requires Coupled(w) && Next(a, w, Dropped(i), now).Some?
    ensures Coupled(Next(a, w, Dropped(i), now).value) <==>
            && w.contract.state == StateTerminated
            && (w.pool[i].kind.Arbitrate? ==> FlightOf(w.pool).claims == w.pool[i].amount)
  {
    hide WellFormed, Consistent, RemainingAmount, LockFollows;
    var t, w' := w.pool[i], Next(a, w, Dropped(i), now).value;
    assert Own(w.contract, t);
    FlightRemove(w.pool, i);
    CoupledFacts(w);
    assert PoolOk(w.contract, w'.pool);
    FlightBounds(w.contract, w'.pool);
    LockIfInFlight(w.contract, LockOf(w), FlightOf(w.pool), w.lost - w.awarded);
    if w.contract.state == StateTerminated {
      DroppedFollowsIff(w.contract, LockOf(w).value, FlightOf(w'.pool), w.lost - w.awarded, t);
    } else {
      assert Claim()(t) > 0;
    }
  }

  lemma LockIfInFlight(c: Contract, lock: Option<EscrowLock>, f: Flight, off: int)
    requires LockFollows(c, lock, f, off) && f != GROUND
    ensures lock.Some? && (c.state != StateTerminated ==> f.refunds == 0)
  {
  }

  lemma DroppedFollowsIff(c: Contract, lock: EscrowLock, f: Flight, off: int, t: Tx)
    requires Natural(f) && LockFollows(c, Some(lock), Plus(f, t), off) && t.amount > 0 && c.state == StateTerminated
    ensures LockFollows(c, Some(lock), f, off + Claim()(t)) <==> (t.kind.Arbitrate? ==> f.claims == 0)
  {
  }

  /** A node that restarts loses everything in flight at once. */
  lemma PoolLostKeepsIff(a: Authority, w: World, now: int)
    requires Coupled(w)
    ensures Coupled(Next(a, w, PoolLost, now).value) <==> w.pool == [] || w.contract.state == StateTerminated
  {
    CoupledFacts(w);
    NothingInFlightIff(w.contract, w.pool);
    assert FlightOf([]) == GROUND;
  }

  /** Everything is approved, nothing is in flight, and yet there is money in the lock. */
  ghost predicate Stuck(w: World) {
    && WellFormed(w.ledger)
    && w.contract.state == StateCompleted && AllAre(w.contract.milestones, MilestoneApproved)
    && w.pool == [] && LockOf(w).Some? && LockOf(w).value.amount > 0
  }

  /** A release that is lost after the last approval leaves its money in the lock of a completed contract. */
  lemma LostReleaseIsStuck(a: Authority, w: World, now: int)
    requires Coupled(w) && w.contract.state == StateCompleted && w.pool != []
    ensures Stuck(Next(a, w, PoolLost, now).value)
    ensures LockOf(Next(a, w, PoolLost, now).value) == LockOf(w) && LockOf(w).value.amount == FlightOf(w.pool).claims
  {
    CoupledFacts(w);
    NothingInFlightIff(w.contract, w.pool);
  }

  /** No handler gets it out: none has a transaction to build or a move to make. */
  lemma StuckStays(a: Authority, w: World, e: Event, now: int)
    requires Stuck(w) && Next(a, w, e, now).Some? && !(e.Foreign? && TouchesLock(e.tx, w.contract.id))
    ensures Stuck(Next(a, w, e, now).value) && LockOf(Next(a, w, e, now).value) == LockOf(w)
    ensures Next(a, w, e, now).value.contract == w.contract
  {
    hide Effect;
    NothingRemainsToBuild(w.contract.milestones);
    if e.Foreign? {
      LedgerStepKeeps(w.ledger, e.tx);
      ElsewhereLeavesLock(w.ledger, e.tx, w.contract.id);
    }
  }

  lemma {:induction false} NothingRemainsToBuild(ms: seq<Milestone>)
    requires AllAre(ms, MilestoneApproved)
    ensures RemainingAmount(ms) == 0
  {
    if |ms| == 0 {
    } else {
      NothingRemainsToBuild(ms[..|ms| - 1]);
    }
  }

  /** So it stays there in every run, orderly or not, unless a foreign transaction takes it. */
  lemma {:induction false} StuckForEver(a: Authority, ws: seq<World>, es: seq<Event>, times: seq<int>, n: nat)
    requires |ws| == |es| + 1 == |times| + 1 && n < |ws| && Stuck(ws[0])
    requires forall i :: 0 <= i < |es| ==> Next(a, ws[i], es[i], times[i]) == Some(ws[i + 1])
    requires forall i :: 0 <= i < |es| ==> !(es[i].Foreign? && TouchesLock(es[i].tx, ws[0].contract.id))
    ensures Stuck(ws[n]) && LockOf(ws[n]) == LockOf(ws[0]) && ws[n].contract == ws[0].contract
  {
    hide Stuck, Next, TouchesLock;
    if n == 0 {
    } else {
      var i := n - 1;
      StuckForEver(a, ws, es, times, i);
      assert Next(a, ws[i], es[i], times[i]) == Some(ws[i + 1]);
      StuckStays(a, ws[i], es[i], times[i]);
    }
  }

  // ----- What happens outside the conditions -----

  /** A refund committed before a release strands the release for ever, whatever the chain does afterwards. */
  lemma RefundStrandsReleases(w: World, i: nat, j: nat, later: State)
    requires Coupled(w) && i < |w.pool| && j < |w.pool|
    requires w.pool[j].kind.Refund? && !w.pool[i].kind.Refund? && CheckRules(w.pool[j], w.ledger).Pass?
    requires Evolves(Effect(w.pool[j], w.ledger), later)
    ensures CheckRules(w.pool[i], later).Fail?
  {
    var cid := w.contract.id;
    RefundedLock(w.ledger, w.pool[j]);
    var refunded := Effect(w.pool[j], w.ledger).locked[cid];
    assert LockEvolves(refunded, later.locked[cid]);
  }

  /** The refund handler does let it come to that: the request is accepted with a release in flight. */
  lemma RefundIsAcceptedOverReleases(a: Authority, w: World, nonce: int64, now: int)
    requires Coupled(w) && w.contract.state == StateInProgress && w.pool != []
    ensures Next(a, w, RefundIssued(nonce), now).Some?
    ensures var w' := Next(a, w, RefundIssued(nonce), now).value;
            && Coupled(w') && w'.contract.state == StateTerminated
            && Next(a, w', Committed(|w.pool|), now).Some?
            && !Coupled(Next(a, w', Committed(|w.pool|), now).value)
  {
    CoupledFacts(w);
    RefundPassesAndPaysItsAmountIff(a, w, nonce, now);
    RefundIssuedKeepsIff(a, w, nonce, now);
    var w' := Next(a, w, RefundIssued(nonce), now).value;
    FlightSnoc(w.pool, w'.pool[|w.pool|]);
    NothingInFlightIff(w.contract, w.pool);
    hide Coupled, CheckRules, Effect;
    CommittedKeepsIff(a, w', |w.pool|, now);
  }

  /** A terminating award of all the lock holds is accepted too, and then no release in flight is ever paid. */
  lemma FullAwardStrandsReleases(a: Authority, w: World, id: string, awardTo: string, nonce: int64, now: int, i: nat, later: State)
    requires Coupled(w) && w.contract.state == StateDisputed && LockOf(w).value.status == FROZEN
    requires awardTo == w.contract.founder || awardTo == w.contract.investor
    requires i < |w.pool|
    ensures var e := ArbitrationIssued(id, awardTo, LockOf(w).value.amount, true, nonce);
            && Next(a, w, e, now).Some?
            && var t := Next(a, w, e, now).value.pool[|w.pool|];
            && CheckRules(t, w.ledger).Pass?
            && (Evolves(Effect(t, w.ledger), later) ==> CheckRules(w.pool[i], later).Fail?)
  {
    var amount := LockOf(w).value.amount;
    CoupledFacts(w);
    AwardPassesIff(a, w, id, awardTo, amount, true, nonce, now);
    var t := BuildArbitrationTx(a.k, w.contract, id, a.address, awardTo, amount, nonce, now).value;
    PaidLock(w.ledger, t);
    var paid := Effect(t, w.ledger).locked[w.contract.id];
    if Evolves(Effect(t, w.ledger), later) {
      assert LockEvolves(paid, later.locked[w.contract.id]);
    }
  }

  /** Of two awards in flight over one freeze, the second is refused once the first is committed. */
  lemma SecondAwardIsRefused(w: World, i: nat, second: Tx)
    requires Coupled(w) && i < |w.pool| && w.pool[i].kind.Arbitrate?
    requires second.kind.Arbitrate? && second.contractId == w.contract.id && CheckRules(second, w.ledger).Pass?
    ensures CheckRules(w.pool[i], w.ledger).Pass?
    ensures CheckRules(second, Effect(w.pool[i], w.ledger)) == Fail(EscrowNotFrozen)
  {
    InFlightPassesIff(w, i);
    PaidLock(w.ledger, w.pool[i]);
  }

  // ----- Nothing in flight is stranded -----

  /** In a coupled world the only thing that can hold a release up for good is a dispute that nobody has decided. */
  lemma PayableUnlessInDispute(w: World)
    requires Coupled(w)
    ensures Payable(LockOf(w), FlightOf(w.pool)) <==>
            !(&& w.contract.state == StateDisputed && LockOf(w).value.status == FROZEN
              && FlightOf(w.pool).awards == 0 && FlightOf(w.pool).claims > 0)
  {
    CoupledFacts(w);
  }

  /** Blocks that commit releases and awards, one at a time, take `w` to `w'`. */
  ghost predicate Pays(w: World, order: seq<nat>, w': World)
    decreases |order|
  {
    if |order| == 0 then w' == w else
      && order[0] < |w.pool| && !w.pool[order[0]].kind.Refund?
      && Commit(w.ledger, w.pool[order[0]]).Some?
      && Pays(AfterPaying(w, order[0]), order[1..], w')
  }

  function AfterPaying(w: World, i: nat): World
    requires i < |w.pool| && Commit(w.ledger, w.pool[i]).Some?
  {
    w.(ledger := Effect(w.pool[i], w.ledger), pool := Without(w.pool, i))
  }

  /** What can be committed first: the award if there is one, any release otherwise. */
  lemma FirstPayable(a: Authority, w: World) returns (i: nat)
    requires Coupled(w) && Payable(LockOf(w), FlightOf(w.pool)) && FlightOf(w.pool).claims > 0
    ensures i < |w.pool| && !w.pool[i].kind.Refund? && Commit(w.ledger, w.pool[i]).Some?
    ensures Coupled(AfterPaying(w, i)) && Payable(LockOf(AfterPaying(w, i)), FlightOf(AfterPaying(w, i).pool))
  {
    CoupledFacts(w);
    if FlightOf(w.pool).awards > 0 {
      i := FindPositive(IsAward(), w.pool);
    } else {
      i := FindPositive(Claim(), w.pool);
      FlightCovers(w.contract, w.pool, i);
    }
    InFlightPassesIff(w, i);
    CommittedKeepsIff(a, w, i, 0);
    PaidStaysPayable(w, i);
  }

  lemma PaidStaysPayable(w: World, i: nat)
    requires Coupled(w) && i < |w.pool| && !w.pool[i].kind.Refund? && CheckRules(w.pool[i], w.ledger).Pass?
    requires Coupled(AfterPaying(w, i))
    ensures Payable(LockOf(AfterPaying(w, i)), FlightOf(AfterPaying(w, i).pool))
  {
    PaidLock(w.ledger, w.pool[i]);
    PayableUnlessInDispute(AfterPaying(w, i));
  }

  /**
   * From every coupled world, disputes aside, all the releases and awards in flight can be committed, the award first: as
   * long as the mempool keeps them, whoever was promised money over the API can be paid. What a refund finds afterwards
   * is what is left. A coupled world is one that has lost nothing before its end (DroppedKeepsIff, PoolLostKeepsIff).
   */
  lemma {:induction false} NothingIsStranded(a: Authority, w: World) returns (order: seq<nat>, w': World)
    requires Coupled(w) && Payable(LockOf(w), FlightOf(w.pool))
    ensures Pays(w, order, w') && Coupled(w') && FlightOf(w'.pool).claims == 0 && w'.contract == w.contract
    decreases |w.pool|
  {
    hide Coupled, Payable;
    if FlightOf(w.pool).claims <= 0 {
      CoupledIsGrounded(w);
      CoupledFacts(w);
      order, w' := [], w;
    } else {
      var i := FirstPayable(a, w);
      var rest;
      rest, w' := NothingIsStranded(a, AfterPaying(w, i));
      order := [i] + rest;
      assert order[1..] == rest;
    }
  }

  lemma CoupledIsGrounded(w: World)
    requires Coupled(w)
    ensures Grounded(w)
  {
  }

  // ----- Every run -----

  /**
   * The conditions that the code leaves to its callers, and of losses, to good fortune. They can be tested before the
   * event, on the contract, its lock and the mempool.
   */
  predicate Orderly(w: World, e: Event) {
    var c, f := w.contract, FlightOf(w.pool);
    match e
    case Advanced(to) =>
      || Transition(c.state, to).Fail?
      || c.state in {StateDraft, StatePendingSignature, StateFunded}
      || (c.state == StateSigned && LockOf(w).Some?)
      || (to == StateTerminated && Payable(LockOf(w), f))
    case ArbitrationIssued(id, _, amount, terminate, _) => InOrder(w, id, amount, terminate)
    case RefundIssued(_) => c.state in {StateInProgress, StateDisputed, StateTerminated} && Payable(LockOf(w), f)
    case Committed(i) => i < |w.pool| && (w.pool[i].kind.Refund? ==> f.claims == 0)
    case Dropped(i) =>
      && i < |w.pool| && c.state == StateTerminated
      && (w.pool[i].kind.Arbitrate? ==> f.claims == w.pool[i].amount)
    case PoolLost => w.pool == [] || c.state == StateTerminated
    case Foreign(t) =>
      || !TouchesLock(t, c.id)
      || (t.kind.FreezeDispute? && (c.state == StateDisputed || (c.state == StateTerminated && f.claims == 0)))
    case _ => true
  }

  lemma ForeignKeeps(w: World, t: Tx)
    requires Coupled(w) && !TouchesLock(t, w.contract.id) && CheckRules(t, w.ledger).Pass?
    ensures Coupled(w.(ledger := Effect(t, w.ledger)))
  {
    LedgerStepKeeps(w.ledger, t);
    ElsewhereLeavesLock(w.ledger, t, w.contract.id);
  }

  /** Every event keeps the coupling if it is orderly, and, a foreigner's dealings with the lock aside, only if. */
  lemma NextKeepsIff(a: Authority, w: World, e: Event, now: int)
    requires Coupled(w) && Next(a, w, e, now).Some?
    ensures Orderly(w, e) ==> Coupled(Next(a, w, e, now).value)
    ensures Coupled(Next(a, w, e, now).value) ==>
              Orderly(w, e) || (e.Foreign? && TouchesLock(e.tx, w.contract.id) && !e.tx.kind.FreezeDispute?)
  {
    hide Coupled, CheckRules, Effect, InOrder, Payable;
    match e
    case Advanced(to) => AdvanceKeepsIff(w, to, now);
    case FundingCommitted(nonce) => FundingKeeps(a, w, nonce, now);
    case FundingConfirmed => ConfirmKeeps(w, now);
    case WorkSubmitted(id) => SubmitCouples(w, id, now);
    case WorkDisputed(id) => DisputeCouples(w, id, now);
    case ReleaseIssued(id, nonce) => ReleaseIssuedKeeps(a, w, id, nonce, now);
    case ArbitrationIssued(id, awardTo, amount, terminate, nonce) =>
      ArbitrationKeepsIff(a, w, id, awardTo, amount, terminate, nonce, now);
    case RefundIssued(nonce) => RefundIssuedKeepsIff(a, w, nonce, now);
    case Committed(i) => CommittedKeepsIff(a, w, i, now);
    case Dropped(i) => DroppedKeepsIff(a, w, i, now);
    case PoolLost => PoolLostKeepsIff(a, w, now);
    case Foreign(t) =>
      if !TouchesLock(t, w.contract.id) {
        ForeignKeeps(w, t);
      } else if t.kind.FreezeDispute? {
        FreezeKeepsIff(w, t);
      }
  }

  ghost predicate OrderlyRun(a: Authority, ws: seq<World>, es: seq<Event>, times: seq<int>) {
    && |ws| == |es| + 1 == |times| + 1
    && Coupled(ws[0])
    && forall i :: 0 <= i < |es| ==> Orderly(ws[i], es[i]) && Next(a, ws[i], es[i], times[i]) == Some(ws[i + 1])
  }

  lemma {:induction false} RunCoupled(a: Authority, ws: seq<World>, es: seq<Event>, times: seq<int>, n: nat)
    requires OrderlyRun(a, ws, es, times) && n < |ws|
    ensures Coupled(ws[n])
  {
    hide Coupled, Orderly, Next;
    if n == 0 {
    } else {
      var i := n - 1;
      RunCoupled(a, ws, es, times, i);
      assert Orderly(ws[i], es[i]) && Next(a, ws[i], es[i], times[i]) == Some(ws[i + 1]);
      NextKeepsIff(a, ws[i], es[i], times[i]);
    }
  }

  /** What a reader of the contract's state may conclude about its lock. */
  predicate ReadsTrue(w: World) {
    var c, lock, f := w.contract, LockOf(w), FlightOf(w.pool);
    match c.state
    case StateSigned => lock.Some? ==> Reads(c, lock.value, f)
    case StateFunded => lock.Some? && Reads(c, lock.value, f)
    case StateInProgress => lock.Some? && Reads(c, lock.value, f)
    case StateMilestoneReview => lock.Some? && Reads(c, lock.value, f)
    case StateDisputed => lock.Some? && lock.value.amount == RemainingAmount(c.milestones) + f.claims
    case StateCompleted =>
      && lock.Some? && lock.value.amount == f.claims
      && lock.value.status == if w.pool == [] then RELEASED else LOCKED
    case StateTerminated =>
      && lock.Some? && f.claims <= lock.value.amount
      && (lock.value.status != REFUNDED ==>
            lock.value.amount == RemainingAmount(c.milestones) + f.claims + w.lost - w.awarded)
    case _ => lock.None?
  }

  predicate Reads(c: Contract, lock: EscrowLock, f: Flight) {
    && lock.amount == RemainingAmount(c.milestones) + f.claims
    && lock.status == if f.awards == 0 then LOCKED else FROZEN
  }

  /**
   * While a contract is in progress or under review its lock holds RemainingAmount and what is in flight, and is LOCKED
   * exactly when no award is in flight. So with every transaction committed before the contract moves on, it is LOCKED
   * with exactly RemainingAmount, and a completed contract's lock is RELEASED and empty.
   */
  lemma LockFollowsContract(a: Authority, ws: seq<World>, es: seq<Event>, times: seq<int>, n: nat)
    requires OrderlyRun(a, ws, es, times) && n < |ws|
    ensures ReadsTrue(ws[n])
    ensures ws[n].pool == [] && ws[n].contract.state in {StateInProgress, StateMilestoneReview} ==>
              LockOf(ws[n]).value.status == LOCKED && LockOf(ws[n]).value.amount == RemainingAmount(ws[n].contract.milestones)
    ensures ws[n].pool == [] && ws[n].contract.state == StateCompleted ==>
              LockOf(ws[n]).value.status == RELEASED && LockOf(ws[n]).value.amount == 0
  {
    RunCoupled(a, ws, es, times, n);
    CoupledReads(ws[n]);
  }

  lemma CoupledReads(w: World)
    requires Coupled(w)
    ensures ReadsTrue(w)
    ensures w.pool == [] ==> FlightOf(w.pool) == GROUND
  {
    CoupledFacts(w);
    NothingInFlightIff(w.contract, w.pool);
  }
}
