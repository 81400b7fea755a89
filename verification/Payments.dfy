/** Whom the workflow pays, and that every funded contract can be driven to its end with the founder paid in full. */
module Payments {
  import opened Wrappers
  import opened Integers
  import opened Sums
  import opened Transactions
  import opened Ledger
  import opened LedgerLaws
  import opened Escrow
  import opened EscrowLaws
  import opened Workflow
  import opened Coupling
  import S = EscrowSteps

  // ----- Each payment, from the request to the block -----

  /** Funding takes the total from the investor, and puts it under the contract's ID in the names of its parties. */
  lemma FundingLocksTheTotal(a: Authority, w: World, nonce: int64, now: int)
    requires Next(a, w, FundingCommitted(nonce), now).Some?
    ensures var c, s, s' := w.contract, w.ledger, Next(a, w, FundingCommitted(nonce), now).value.ledger;
            && s'.balances == s.balances[c.investor := Sub(Get(s.balances, c.investor), c.totalAmount)]
            && s'.nonces == s.nonces[c.investor := Add(Get(s.nonces, c.investor), 1)]
            && s'.locked == s.locked[c.id := EscrowLock(c.id, c.investor, c.founder, c.totalAmount, LOCKED)]
  {
  }

  /** A release or award credits its recipient with its amount, and the lock is that much lighter. */
  lemma PaymentEffect(t: Tx, s: State)
    requires t.kind in {ReleaseMilestone, Arbitrate} && CheckRules(t, s).Pass?
    ensures Effect(t, s).balances == s.balances[t.to := Add(Get(s.balances, t.to), t.amount)] && Effect(t, s).nonces == s.nonces
    ensures t.contractId in s.locked && t.contractId in Effect(t, s).locked
    ensures Effect(t, s).locked[t.contractId].amount == Sub(s.locked[t.contractId].amount, t.amount)
  {
  }

  /** A refund credits its recipient with all the lock holds. */
  lemma RefundEffect(t: Tx, s: State)
    requires t.kind.Refund? && CheckRules(t, s).Pass?
    ensures t.contractId in s.locked && t.contractId in Effect(t, s).locked
    ensures Effect(t, s).balances == s.balances[t.to := Add(Get(s.balances, t.to), s.locked[t.contractId].amount)]
    ensures Effect(t, s).nonces == s.nonces
    ensures Effect(t, s).locked[t.contractId].amount == 0 && Effect(t, s).locked[t.contractId].status == REFUNDED
  {
  }

  /** What a handler has just submitted can be committed at once. */
  lemma LastCanBeCommitted(a: Authority, w: World, t: Tx, w1: World, now: int)
    requires CheckRules(t, w.ledger).Pass? && w1.ledger == w.ledger && w1.pool == w.pool + [t]
    ensures Next(a, w1, Committed(|w.pool|), now).Some?
    ensures Next(a, w1, Committed(|w.pool|), now).value.ledger == Effect(t, w.ledger)
  {
  }

  /** An award that is accepted and committed credits the amount to the party it was asked for, and to nobody else. */
  lemma AwardPaysTheWinner(a: Authority, w: World, id: string, awardTo: string, amount: int64, terminate: bool, nonce: int64,
                           now: int, w1: World)
    requires Next(a, w, ArbitrationIssued(id, awardTo, amount, terminate, nonce), now) == Some(w1)
    ensures Next(a, w1, Committed(|w.pool|), now).Some?
    ensures var s, s' := w.ledger, Next(a, w1, Committed(|w.pool|), now).value.ledger;
            && s'.balances == s.balances[awardTo := Add(Get(s.balances, awardTo), amount)]
            && s'.nonces == s.nonces
            && w.contract.id in s.locked && w.contract.id in s'.locked
            && s'.locked[w.contract.id].amount == Sub(s.locked[w.contract.id].amount, amount)
  {
    hide ResolveArbitration, CheckRules, Effect;
    S.BuildersBuild(a.k, w.contract, id, a.address, awardTo, amount, nonce, now);
    var t := BuildArbitrationTx(a.k, w.contract, id, a.address, awardTo, amount, nonce, now).value;
    assert Canon(t).to == awardTo && Canon(t).contractId == w.contract.id;
    LastCanBeCommitted(a, w, t, w1, now);
    PaymentEffect(t, w.ledger);
  }

  /** A release that is accepted and committed credits the milestone's amount to the founder, and nothing to anybody else. */
  lemma ReleasePaysTheFounder(a: Authority, w: World, id: string, i: nat, nonce: int64, now: int, w1: World)
    requires Next(a, w, ReleaseIssued(id, nonce), now) == Some(w1) && S.IsFirst(w.contract.milestones, id, i)
    ensures Next(a, w1, Committed(|w.pool|), now).Some?
    ensures var c, s, s' := w.contract, w.ledger, Next(a, w1, Committed(|w.pool|), now).value.ledger;
            && s'.balances == s.balances[c.founder := Add(Get(s.balances, c.founder), c.milestones[i].amount)]
            && s'.nonces == s.nonces
            && c.id in s.locked && c.id in s'.locked
            && s'.locked[c.id].amount == Sub(s.locked[c.id].amount, c.milestones[i].amount)
  {
    hide ApproveMilestone, CheckRules, Effect;
    S.FindIsFirstIff(w.contract.milestones, id);
    S.BuildersBuild(a.k, w.contract, id, a.address, "", 0, nonce, now);
    var t := BuildMilestoneReleaseTx(a.k, w.contract, id, a.address, nonce, now).value;
    assert Canon(t).to == w.contract.founder && Canon(t).amount == w.contract.milestones[i].amount;
    LastCanBeCommitted(a, w, t, w1, now);
    PaymentEffect(t, w.ledger);
  }

  /** A refund that is accepted and committed credits all the lock holds to the investor. */
  lemma RefundPaysTheInvestor(a: Authority, w: World, nonce: int64, now: int, w1: World)
    requires Next(a, w, RefundIssued(nonce), now) == Some(w1)
    ensures Next(a, w1, Committed(|w.pool|), now).Some?
    ensures var c, s, s' := w.contract, w.ledger, Next(a, w1, Committed(|w.pool|), now).value.ledger;
            && c.id in s.locked && c.id in s'.locked
            && s'.balances == s.balances[c.investor := Add(Get(s.balances, c.investor), s.locked[c.id].amount)]
            && s'.nonces == s.nonces
            && s'.locked[c.id].amount == 0 && s'.locked[c.id].status == REFUNDED
  {
    hide CheckRules, Effect, RemainingAmount;
    S.BuildersBuild(a.k, w.contract, "", a.address, "", 0, nonce, now);
    var t := BuildRefundTx(a.k, w.contract, a.address, nonce, now).value;
    assert Canon(t).to == w.contract.investor && Canon(t).contractId == w.contract.id;
    LastCanBeCommitted(a, w, t, w1, now);
    RefundEffect(t, w.ledger);
  }

  // ----- Orderly runs, event by event -----

  ghost predicate Reaches(a: Authority, w: World, es: seq<Event>, now: int, w': World)
    decreases |es|
  {
    if |es| == 0 then w' == w else
      Orderly(w, es[0]) && Next(a, w, es[0], now).Some? && Reaches(a, Next(a, w, es[0], now).value, es[1..], now, w')
  }

  lemma OneEvent(a: Authority, w: World, e: Event, now: int, w': World)
    requires Orderly(w, e) && Next(a, w, e, now) == Some(w')
    ensures Reaches(a, w, [e], now, w')
  {
    assert Reaches(a, w', [e][1..], now, w');
  }

  lemma {:induction false} ReachesOn(a: Authority, w: World, es: seq<Event>, w1: World, es': seq<Event>, now: int, w2: World)
    requires Reaches(a, w, es, now, w1) && Reaches(a, w1, es', now, w2)
    ensures Reaches(a, w, es + es', now, w2)
    decreases |es|
  {
    hide Orderly, Next;
    if |es| == 0 {
      assert es + es' == es';
    } else {
      var mid := Next(a, w, es[0], now).value;
      ReachesOn(a, mid, es[1..], w1, es', now, w2);
      assert (es + es')[1..] == es[1..] + es';
    }
  }

  // ----- One milestone, from submission to payment -----

  /** In progress with nothing in flight, and every milestone under its own ID. */
  ghost predicate Ready(w: World) {
    Coupled(w) && w.pool == [] && S.DistinctMilestones(w.contract.milestones)
  }

  lemma MilestoneIsPaid(a: Authority, w: World, i: nat, nonce: int64, now: int) returns (es: seq<Event>, w': World)
    requires Ready(w) && w.contract.state == StateInProgress
    requires i < |w.contract.milestones| && w.contract.milestones[i].status == MilestonePending
    ensures Reaches(a, w, es, now, w') && Ready(w') && w'.contract.state in {StateInProgress, StateCompleted}
    ensures SumBy(Rank(), w'.contract.milestones) < SumBy(Rank(), w.contract.milestones)
    ensures PaidOn(w, w', w.contract.milestones[i].amount)
    ensures SumBy(Outstanding(), w'.contract.milestones) == SumBy(Outstanding(), w.contract.milestones) - w.contract.milestones[i].amount
  {
    var id := w.contract.milestones[i].id;
    var w1 := SubmitsWork(a, w, i, now);
    var w2 := IssuesRelease(a, w1, i, nonce, now);
    w' := CommitsRelease(a, w1, w2, id, i, nonce, now);
    es := ([WorkSubmitted(id)] + [ReleaseIssued(id, nonce)]) + [Committed(0)];
    hide Orderly, Next, Coupled;
    OneEvent(a, w, WorkSubmitted(id), now, w1);
    OneEvent(a, w1, ReleaseIssued(id, nonce), now, w2);
    OneEvent(a, w2, Committed(0), now, w');
    ReachesOn(a, w, [WorkSubmitted(id)], w1, [ReleaseIssued(id, nonce)], now, w2);
    ReachesOn(a, w, [WorkSubmitted(id)] + [ReleaseIssued(id, nonce)], w2, [Committed(0)], now, w');
  }

  /** The founder has this much more, everybody else and the deal are as before. */
  predicate PaidOn(w: World, w': World, amount: int64) {
    && w'.contract.founder == w.contract.founder && w'.contract.id == w.contract.id
    && w'.ledger.balances == w.ledger.balances[w.contract.founder := Add(Get(w.ledger.balances, w.contract.founder), amount)]
  }

  /** Milestone i of a ready contract is under review. */
  ghost predicate UnderReview(w: World, i: nat) {
    && Ready(w) && w.contract.state == StateMilestoneReview && i < |w.contract.milestones|
    && w.contract.milestones[i].status == MilestoneSubmitted
    && S.IsFirst(w.contract.milestones, w.contract.milestones[i].id, i)
  }

  lemma SubmitsWork(a: Authority, w: World, i: nat, now: int) returns (w1: World)
    requires Ready(w) && w.contract.state == StateInProgress
    requires i < |w.contract.milestones| && w.contract.milestones[i].status == MilestonePending
    ensures var e := WorkSubmitted(w.contract.milestones[i].id);
            Orderly(w, e) && Next(a, w, e, now) == Some(w1)
    ensures UnderReview(w1, i) && w1.ledger == w.ledger && |w1.contract.milestones| == |w.contract.milestones|
    ensures w1.contract.milestones[i].id == w.contract.milestones[i].id
    ensures w1.contract.milestones[i].amount == w.contract.milestones[i].amount
    ensures w1.contract.founder == w.contract.founder && w1.contract.id == w.contract.id
    ensures SumBy(Rank(), w1.contract.milestones) < SumBy(Rank(), w.contract.milestones)
    ensures SumBy(Outstanding(), w1.contract.milestones) == SumBy(Outstanding(), w.contract.milestones)
  {
    var c, id := w.contract, w.contract.milestones[i].id;
    SubmitCouples(w, id, now);
    CoupledIsGrounded(w);
    var reviewed := S.MilestoneUnderReview(c, i, now);
    w1 := w.(contract := reviewed);
    assert S.IsFirst(c.milestones, id, i);
    S.FindIsFirstIff(c.milestones, id);
    var m := c.milestones[i].(status := MilestoneSubmitted, submittedAt := now);
    assert reviewed == WithStatus(c.(state := StateMilestoneReview, updatedAt := now), i, m);
    RestampKeepsAmounts(c.milestones, i, m);
    ActionLowersRank(c, Submit(id), now, reviewed);
  }

  lemma IssuesRelease(a: Authority, w: World, i: nat, nonce: int64, now: int) returns (w2: World)
    requires UnderReview(w, i)
    ensures var e := ReleaseIssued(w.contract.milestones[i].id, nonce);
            Orderly(w, e) && Next(a, w, e, now) == Some(w2)
    ensures Coupled(w2) && |w2.pool| == 1 && w2.pool[0].kind.ReleaseMilestone? && w2.ledger == w.ledger
    ensures LockOf(w2).Some? && LockOf(w2).value.status == LOCKED
    ensures S.DistinctMilestones(w2.contract.milestones) && w2.contract.state in {StateInProgress, StateCompleted}
    ensures w2.contract.founder == w.contract.founder && w2.contract.id == w.contract.id
    ensures SumBy(Rank(), w2.contract.milestones) < SumBy(Rank(), w.contract.milestones)
    ensures SumBy(Outstanding(), w2.contract.milestones) == SumBy(Outstanding(), w.contract.milestones) - w.contract.milestones[i].amount
  {
    var c, id := w.contract, w.contract.milestones[i].id;
    CoupledIsGrounded(w);
    S.FindIsFirstIff(c.milestones, id);
    assert Find(c.milestones, id) == Some(i);
    assert FlightOf([]) == GROUND;
    ReleasePassesIff(a, w, id, nonce, now);
    ReleaseIssuedKeeps(a, w, id, nonce, now);
    hide Coupled, CheckRules, ApproveMilestone, Consistent;
    Approved(c, id, i, now);
    w2 := Next(a, w, ReleaseIssued(id, nonce), now).value;
  }

  lemma Approved(c: Contract, id: string, i: nat, now: int)
    requires Consistent(c) && S.DistinctMilestones(c.milestones) && S.IsFirst(c.milestones, id, i)
    requires c.state == StateMilestoneReview && c.milestones[i].status == MilestoneSubmitted
    ensures var c' := ApproveMilestone(c, id, now).0;
            && S.DistinctMilestones(c'.milestones) && c'.state in {StateInProgress, StateCompleted}
            && c'.founder == c.founder && c'.id == c.id
            && SumBy(Rank(), c'.milestones) < SumBy(Rank(), c.milestones)
            && SumBy(Outstanding(), c'.milestones) == SumBy(Outstanding(), c.milestones) - c.milestones[i].amount
  {
    S.FindIsFirstIff(c.milestones, id);
    assert Find(c.milestones, id) == Some(i);
    ApproveKeeps(c, id, now);
    S.ApproveIs(c, id, i, now);
    ActionLowersRank(c, Approve(id), now, ApproveMilestone(c, id, now).0);
  }

  lemma CommitsRelease(a: Authority, w: World, w2: World, id: string, i: nat, nonce: int64, now: int) returns (w': World)
    requires UnderReview(w, i) && id == w.contract.milestones[i].id
    requires Next(a, w, ReleaseIssued(id, nonce), now) == Some(w2)
    requires Coupled(w2) && |w2.pool| == 1 && w2.pool[0].kind.ReleaseMilestone?
    requires S.DistinctMilestones(w2.contract.milestones) && w2.contract.founder == w.contract.founder && w2.contract.id == w.contract.id
    ensures Orderly(w2, Committed(0)) && Next(a, w2, Committed(0), now) == Some(w')
    ensures Ready(w') && w'.contract == w2.contract && PaidOn(w, w', w.contract.milestones[i].amount)
  {
    hide Coupled, CheckRules, Effect, ApproveMilestone;
    assert w.pool == [];
    ReleasePaysTheFounder(a, w, id, i, nonce, now, w2);
    CommittedKeepsIff(a, w2, 0, now);
    w' := Next(a, w2, Committed(0), now).value;
  }

  // ----- The whole contract -----

  /** Nobody's balance but the founder's has changed. */
  ghost predicate OthersKept(s: State, s': State, founder: string) {
    forall x :: x != founder ==> Get(s'.balances, x) == Get(s.balances, x)
  }

  /**
   * From every ready contract in progress an orderly run reaches COMPLETED, with the lock RELEASED and empty, the founder
   * paid all that remained (up to whole turns of an int64), and nobody else touched.
   */
  lemma {:induction false} CanBePaidInFull(a: Authority, w: World, nonce: int64, now: int) returns (es: seq<Event>, w': World)
    requires Ready(w) && w.contract.state == StateInProgress
    ensures Reaches(a, w, es, now, w') && w'.contract.state == StateCompleted && w'.contract.founder == w.contract.founder
    ensures LockOf(w').Some? && LockOf(w').value.status == RELEASED && LockOf(w').value.amount == 0
    ensures Congruent(Get(w'.ledger.balances, w.contract.founder),
                      Get(w.ledger.balances, w.contract.founder) + SumBy(Outstanding(), w.contract.milestones))
    ensures OthersKept(w.ledger, w'.ledger, w.contract.founder)
    decreases SumBy(Rank(), w.contract.milestones)
  {
    hide Coupled, Orderly, Next, Reaches;
    var i := NextToDo(w);
    var es1, w1 := MilestoneIsPaid(a, w, i, nonce, now);
    RankBound(w1.contract.milestones);
    if w1.contract.state == StateCompleted {
      es, w' := es1, w1;
      CompletedIsPaid(w1);
      CongruentRefl(Get(w1.ledger.balances, w.contract.founder));
    } else {
      var es2;
      es2, w' := CanBePaidInFull(a, w1, nonce, now);
      ReachesOn(a, w, es1, w1, es2, now, w');
      es := es1 + es2;
    }
    PaidAdds(w, w1, w', w.contract.milestones[i].amount);
  }

  lemma NextToDo(w: World) returns (i: nat)
    requires Ready(w) && w.contract.state == StateInProgress
    ensures i < |w.contract.milestones| && w.contract.milestones[i].status == MilestonePending
  {
    CoupledIsGrounded(w);
    InProgressHasPending(w.contract);
    i :| 0 <= i < |w.contract.milestones| && w.contract.milestones[i].status == MilestonePending;
  }

  lemma CompletedIsPaid(w: World)
    requires Ready(w) && w.contract.state == StateCompleted
    ensures LockOf(w).Some? && LockOf(w).value.status == RELEASED && LockOf(w).value.amount == 0
    ensures SumBy(Outstanding(), w.contract.milestones) == 0
  {
    CoupledReads(w);
    CoupledIsGrounded(w);
    CoupledFacts(w);
  }

  lemma PaidAdds(w: World, w1: World, w': World, amount: int64)
    requires PaidOn(w, w1, amount) && OthersKept(w1.ledger, w'.ledger, w.contract.founder)
    requires SumBy(Outstanding(), w1.contract.milestones) == SumBy(Outstanding(), w.contract.milestones) - amount
    requires Congruent(Get(w'.ledger.balances, w.contract.founder),
                       Get(w1.ledger.balances, w.contract.founder) + SumBy(Outstanding(), w1.contract.milestones))
    ensures Congruent(Get(w'.ledger.balances, w.contract.founder),
                      Get(w.ledger.balances, w.contract.founder) + SumBy(Outstanding(), w.contract.milestones))
    ensures OthersKept(w.ledger, w'.ledger, w.contract.founder)
  {
    var before, mid, after := Get(w.ledger.balances, w.contract.founder), Get(w1.ledger.balances, w.contract.founder),
                              Get(w'.ledger.balances, w.contract.founder);
    assert mid == Add(before, amount);
    var k: int :| after == mid + SumBy(Outstanding(), w1.contract.milestones) + Turns(k);
    var turn := if before + amount > MAX then -1 else if before + amount < MIN then 1 else 0;
    assert after == before + SumBy(Outstanding(), w.contract.milestones) + Turns(k + turn);
  }

  /** From the draft: signed, funded by an investor who can pay, confirmed; the investor is charged the total, once. */
  lemma DraftCanStart(a: Authority, w: World, nonce: int64, now: int) returns (es: seq<Event>, w': World)
    requires Ready(w) && w.contract.state == StateDraft && w.contract.id !in w.ledger.locked
    requires Get(w.ledger.balances, w.contract.investor) >= w.contract.totalAmount
    requires Get(w.ledger.nonces, w.contract.investor) == nonce
    ensures Reaches(a, w, es, now, w') && Ready(w') && w'.contract.state == StateInProgress
    ensures w'.contract == w.contract.(state := StateInProgress, updatedAt := now)
    ensures w'.ledger.balances == w.ledger.balances[w.contract.investor := Sub(Get(w.ledger.balances, w.contract.investor), w.contract.totalAmount)]
  {
    var reviewed := w.(contract := w.contract.(state := StatePendingSignature, updatedAt := now));
    var signed := w.(contract := w.contract.(state := StateSigned, updatedAt := now));
    AdvanceKeepsIff(w, StatePendingSignature, now);
    AdvanceKeepsIff(reviewed, StateSigned, now);
    CoupledIsGrounded(signed);
    var funded := SignedIsFunded(a, signed, nonce, now);
    w' := FundedIsStarted(a, signed, funded, now);
    OneEvent(a, w, Advanced(StatePendingSignature), now, reviewed);
    OneEvent(a, reviewed, Advanced(StateSigned), now, signed);
    hide Coupled, Orderly, Next, Reaches;
    OneEvent(a, signed, FundingCommitted(nonce), now, funded);
    OneEvent(a, funded, FundingConfirmed, now, w');
    ReachesOn(a, w, [Advanced(StatePendingSignature)], reviewed, [Advanced(StateSigned)], now, signed);
    ReachesOn(a, signed, [FundingCommitted(nonce)], funded, [FundingConfirmed], now, w');
    es := ([Advanced(StatePendingSignature)] + [Advanced(StateSigned)]) + ([FundingCommitted(nonce)] + [FundingConfirmed]);
    ReachesOn(a, w, [Advanced(StatePendingSignature)] + [Advanced(StateSigned)], signed,
              [FundingCommitted(nonce)] + [FundingConfirmed], now, w');
  }

  lemma SignedIsFunded(a: Authority, w: World, nonce: int64, now: int) returns (funded: World)
    requires Ready(w) && w.contract.state == StateSigned && w.contract.id !in w.ledger.locked
    requires Get(w.ledger.balances, w.contract.investor) >= w.contract.totalAmount
    requires Get(w.ledger.nonces, w.contract.investor) == nonce
    ensures Orderly(w, FundingCommitted(nonce)) && Next(a, w, FundingCommitted(nonce), now) == Some(funded)
    ensures Ready(funded) && funded.contract == w.contract
    ensures LockOf(funded) == Some(EscrowLock(w.contract.id, w.contract.investor, w.contract.founder, w.contract.totalAmount, LOCKED))
    ensures funded.ledger.balances == w.ledger.balances[w.contract.investor := Sub(Get(w.ledger.balances, w.contract.investor), w.contract.totalAmount)]
  {
    TotalIsPositive(w);
    FundingPassesIff(a.k, w.contract, w.ledger, nonce, now);
    FundingKeeps(a, w, nonce, now);
    FundingLocksTheTotal(a, w, nonce, now);
    hide Coupled, CheckRules, Effect;
    funded := Next(a, w, FundingCommitted(nonce), now).value;
  }

  lemma TotalIsPositive(w: World)
    requires Coupled(w)
    ensures w.contract.totalAmount > 0
  {
    var ms := w.contract.milestones;
    SumCovers(Face(), ms, 0);
    assert Face()(ms[0]) == ms[0].amount > 0;
  }

  lemma FundedIsStarted(a: Authority, w: World, funded: World, now: int) returns (w': World)
    requires Ready(funded) && funded.contract.state == StateSigned && w.contract == funded.contract
    requires LockOf(funded) == Some(EscrowLock(w.contract.id, w.contract.investor, w.contract.founder, w.contract.totalAmount, LOCKED))
    ensures Orderly(funded, FundingConfirmed) && Next(a, funded, FundingConfirmed, now) == Some(w')
    ensures Ready(w') && w'.ledger == funded.ledger
    ensures w'.contract == w.contract.(state := StateInProgress, updatedAt := now)
  {
    CoupledIsGrounded(funded);
    ConfirmCouplesIff(funded, now);
    hide Coupled;
    w' := Next(a, funded, FundingConfirmed, now).value;
  }

  /**
   * End to end: a new contract with distinct milestone IDs, over any reachable ledger where the investor can pay, can be
   * driven to COMPLETED by orderly events, the investor charged the total and the founder paid the total.
   */
  lemma NewContractCanBeCompleted(a: Authority, id: string, investor: string, founder: string, ms: seq<Milestone>, s: State,
                                  nonce: int64, now: int) returns (es: seq<Event>, w': World)
    requires WellFormed(s) && id != "" && investor != "" && id !in s.locked && investor != founder
    requires AmountsOk(ms) && |ms| > 0 && AllAre(ms, MilestonePending) && S.DistinctMilestones(ms)
    requires Get(s.balances, investor) >= SumBy(Face(), ms) && Get(s.nonces, investor) == nonce
    ensures NewContract(id, investor, founder, ms, now).Ok?
    ensures Reaches(a, World(NewContract(id, investor, founder, ms, now).value, s, [], 0, 0), es, now, w')
    ensures w'.contract.state == StateCompleted
    ensures LockOf(w').Some? && LockOf(w').value.status == RELEASED && LockOf(w').value.amount == 0
    ensures Get(w'.ledger.balances, investor) == Get(s.balances, investor) - SumBy(Face(), ms)
    ensures Congruent(Get(w'.ledger.balances, founder), Get(s.balances, founder) + SumBy(Face(), ms))
  {
    NewContractCoupled(id, investor, founder, ms, now, s);
    SumsAreExact(ms);
    PendingOutstanding(ms);
    hide Coupled, Reaches, TotalAmount, AmountsOk;
    es, w' := DraftCanBeCompleted(a, World(NewContract(id, investor, founder, ms, now).value, s, [], 0, 0), nonce, now);
  }

  lemma DraftCanBeCompleted(a: Authority, w: World, nonce: int64, now: int) returns (es: seq<Event>, w': World)
    requires Ready(w) && w.contract.state == StateDraft && w.contract.id !in w.ledger.locked
    requires w.contract.investor != w.contract.founder
    requires Get(w.ledger.balances, w.contract.investor) >= w.contract.totalAmount > 0
    requires Get(w.ledger.nonces, w.contract.investor) == nonce
    ensures Reaches(a, w, es, now, w') && w'.contract.state == StateCompleted
    ensures LockOf(w').Some? && LockOf(w').value.status == RELEASED && LockOf(w').value.amount == 0
    ensures Get(w'.ledger.balances, w.contract.investor) == Get(w.ledger.balances, w.contract.investor) - w.contract.totalAmount
    ensures Congruent(Get(w'.ledger.balances, w.contract.founder),
                      Get(w.ledger.balances, w.contract.founder) + SumBy(Outstanding(), w.contract.milestones))
  {
    hide Ready, Reaches, Congruent, LockOf;
    var es1, w1 := DraftCanStart(a, w, nonce, now);
    var es2;
    es2, w' := CanBePaidInFull(a, w1, nonce, now);
    ReachesOn(a, w, es1, w1, es2, now, w');
    es := es1 + es2;
  }
}
