/** Exactly when each contract operation succeeds, what it then changes, and that a contract can always be completed. */
module EscrowSteps {
  import opened Wrappers
  import opened Integers
  import opened Sums
  import opened Transactions
  import opened Escrow
  import opened EscrowLaws
  import L = Ledger
  import W = Workflow

  // ----- Lookup and lifecycle -----

  /** Position `i` holds the first milestone with this ID. */
  predicate IsFirst(ms: seq<Milestone>, id: string, i: nat) {
    i < |ms| && ms[i].id == id && forall k :: 0 <= k < i ==> ms[k].id != id
  }

  lemma {:induction false} FindIsFirstIff(ms: seq<Milestone>, id: string)
    ensures forall i: nat :: Find(ms, id) == Some(i) <==> IsFirst(ms, id, i)
    ensures Find(ms, id) == None <==> forall i :: 0 <= i < |ms| ==> ms[i].id != id
  {
    if |ms| == 0 {
    } else {
      FindIsFirstIff(ms[1..], id);
      forall i: nat
        ensures Find(ms, id) == Some(i) <==> IsFirst(ms, id, i)
      {
        assert i > 0 && ms[0].id != id ==> (IsFirst(ms, id, i) <==> IsFirst(ms[1..], id, i - 1));
      }
    }
  }

  /** The moves of the lifecycle, as pairs. */
  const LIFECYCLE: set<(ContractState, ContractState)> :=
    {(StateDraft, StatePendingSignature), (StatePendingSignature, StateSigned), (StatePendingSignature, StateDraft),
     (StateSigned, StateFunded), (StateFunded, StateInProgress),
     (StateInProgress, StateMilestoneReview), (StateInProgress, StateTerminated),
     (StateMilestoneReview, StateInProgress), (StateMilestoneReview, StateCompleted), (StateMilestoneReview, StateDisputed),
     (StateDisputed, StateInProgress), (StateDisputed, StateTerminated)}

  lemma TransitionIff(from: ContractState, to: ContractState)
    ensures Transition(from, to).Pass? <==> (from, to) in LIFECYCLE
    ensures Transition(from, to) == Fail(UnknownState) <==> from.Unlisted?
  {
  }

  /** A move changes the state and the time stamp; a refused one changes nothing. */
  lemma AdvanceIs(c: Contract, to: ContractState, now: int)
    ensures (c.state, to) in LIFECYCLE ==> Advance(c, to, now) == (c.(state := to, updatedAt := now), None)
    ensures (c.state, to) !in LIFECYCLE ==>
              Advance(c, to, now) == (c, Some(if c.state.Unlisted? then UnknownState else IllegalTransition))
  {
    TransitionIff(c.state, to);
  }

  // ----- Milestones -----

  /** The contract with its first milestone of this ID moved from one status to the next. */
  ghost predicate Moved(c: Contract, c': Contract, id: string, from: MilestoneStatus, to: MilestoneStatus, state: ContractState, now: int) {
    exists i: nat ::
      && IsFirst(c.milestones, id, i) && c.milestones[i].status == from
      && c' == c.(state := state, updatedAt := now, milestones := c.milestones[i := Stamped(c.milestones[i], to, now)])
  }

  /** The milestone in its next status; a submission is stamped. */
  function Stamped(m: Milestone, to: MilestoneStatus, now: int): Milestone {
    if to == MilestoneSubmitted then m.(status := to, submittedAt := now) else m.(status := to)
  }

  /** A submission succeeds exactly IN_PROGRESS, of a milestone that is pending, wherever it stands in the list. */
  lemma SubmitIff(c: Contract, id: string, now: int)
    ensures SubmitMilestone(c, id, now).1.None? <==>
              c.state == StateInProgress && exists i: nat :: IsFirst(c.milestones, id, i) && c.milestones[i].status == MilestonePending
    ensures SubmitMilestone(c, id, now).1.None? ==>
              Moved(c, SubmitMilestone(c, id, now).0, id, MilestonePending, MilestoneSubmitted, StateMilestoneReview, now)
    ensures SubmitMilestone(c, id, now).1.Some? ==> SubmitMilestone(c, id, now).0 == c
    ensures SubmitMilestone(c, id, now).1 == Some(MilestoneNotFound) <==> forall i :: 0 <= i < |c.milestones| ==> c.milestones[i].id != id
  {
    FindIsFirstIff(c.milestones, id);
    AdvanceIs(c, StateMilestoneReview, now);
    if Find(c.milestones, id).Some? {
      assert IsFirst(c.milestones, id, Find(c.milestones, id).value);
    }
  }

  /** A dispute succeeds exactly under review, of the milestone that is submitted. */
  lemma DisputeIff(c: Contract, id: string, now: int)
    ensures DisputeMilestone(c, id, now).1.None? <==>
              && c.state == StateMilestoneReview
              && exists i: nat :: IsFirst(c.milestones, id, i) && c.milestones[i].status == MilestoneSubmitted
    ensures DisputeMilestone(c, id, now).1.None? ==>
              Moved(c, DisputeMilestone(c, id, now).0, id, MilestoneSubmitted, MilestoneDisputed, StateDisputed, now)
    ensures DisputeMilestone(c, id, now).1.Some? ==> DisputeMilestone(c, id, now).0 == c
  {
    FindIsFirstIff(c.milestones, id);
    AdvanceIs(c, StateDisputed, now);
    if Find(c.milestones, id).Some? {
      assert IsFirst(c.milestones, id, Find(c.milestones, id).value);
    }
  }

  /** An approval under review marks the first milestone of the ID, and ends the contract exactly when all are approved. */
  lemma ApproveIs(c: Contract, id: string, i: nat, now: int)
    requires AmountsOk(c.milestones) && c.state == StateMilestoneReview && IsFirst(c.milestones, id, i)
    ensures var (c', error) := ApproveMilestone(c, id, now);
            && error == None
            && c'.milestones == c.milestones[i := c.milestones[i].(status := MilestoneApproved, approvedAt := now)]
            && c' == c.(milestones := c'.milestones, updatedAt := now,
                        state := if AllAre(c'.milestones, MilestoneApproved) then StateCompleted else StateInProgress)
  {
    FindIsFirstIff(c.milestones, id);
    var ms' := c.milestones[i := c.milestones[i].(status := MilestoneApproved, approvedAt := now)];
    RestampKeepsAmounts(c.milestones, i, ms'[i]);
    NothingRemainsIff(ms');
  }

  /** Arbitration that ends the contract touches no milestone; any other marks the one named and resumes what is left. */
  lemma ResolveIs(c: Contract, id: string, i: nat, now: int)
    requires AmountsOk(c.milestones) && c.state == StateDisputed && IsFirst(c.milestones, id, i)
    ensures ResolveArbitration(c, id, true, now) == (c.(state := StateTerminated, updatedAt := now), None)
    ensures var (c', error) := ResolveArbitration(c, id, false, now);
            && c'.milestones == c.milestones[i := c.milestones[i].(status := MilestoneApproved, approvedAt := now)]
            && if AllAre(c'.milestones, MilestoneApproved)
               then error == Some(IllegalTransition) && c' == c.(milestones := c'.milestones)
               else error == None && c' == c.(milestones := c'.milestones, updatedAt := now, state := StateInProgress)
  {
    FindIsFirstIff(c.milestones, id);
    var ms' := c.milestones[i := c.milestones[i].(status := MilestoneApproved, approvedAt := now)];
    RestampKeepsAmounts(c.milestones, i, ms'[i]);
    NothingRemainsIff(ms');
  }

  /** A new contract has the parties and milestones asked for, in that order, all pending, and their total. */
  lemma CreatedAsRequested(id: string, investor: string, founder: string, wanted: seq<W.MilestoneRequest>, now: int)
    ensures var r := NewContract(id, investor, founder, W.Requested(id, wanted), now);
            && (r.Ok? <==> TotalAmount(W.Requested(id, wanted)) > 0)
            && (r.Ok? ==>
                  && r.value.id == id && r.value.investor == investor && r.value.founder == founder
                  && r.value.state == StateDraft && r.value.createdAt == r.value.updatedAt == now && r.value.totalAmount == TotalAmount(W.Requested(id, wanted))
                  && |r.value.milestones| == |wanted|
                  && forall i :: 0 <= i < |wanted| ==>
                       && r.value.milestones[i].id == wanted[i].id
                       && r.value.milestones[i].title == wanted[i].title
                       && r.value.milestones[i].amount == wanted[i].amount
                       && r.value.milestones[i].contractId == id
                       && r.value.milestones[i].status == MilestonePending)
  {
  }

  /** Confirmation needs a lock of the right amount and a signed contract, in this order, and then starts it. */
  lemma ConfirmationIs(c: Contract, s: L.State, now: int)
    ensures W.ConfirmFunded(c, s, now) ==
            if c.id !in s.locked then (c, W.NoLockYet)
            else if s.locked[c.id].amount != c.totalAmount then (c, W.AmountMismatch)
            else if c.state == StateSigned then (c.(state := StateInProgress, updatedAt := now), W.Done)
            else (c, W.UpdateFailed(if c.state.Unlisted? then UnknownState else IllegalTransition))
  {
  }

  // ----- Transaction builders -----

  /** A fresh transaction: these canonical fields, their hash as ID, and no signature yet. */
  predicate IsFresh(k: Crypto, t: Tx, fields: Canonical) {
    Canon(t) == fields && t.id == k.Sha(k.TxBytes(fields)) && t.publicKey == "" && t.signature == ""
  }

  /** Each builder refuses for one reason, or states sender, recipient, amount, contract and milestone as it should. */
  lemma BuildersBuild(k: Crypto, c: Contract, id: string, authority: string, awardTo: string, amount: int64, nonce: int64, now: int)
    ensures match BuildFundingTx(k, c, nonce, now)
            case Err(e) => e == NotSigned && c.state != StateSigned
            case Ok(t) =>
              && c.state == StateSigned
              && IsFresh(k, t, Canonical(Lock, c.investor, c.founder, c.totalAmount, c.id, "", nonce, now))
    ensures match BuildMilestoneReleaseTx(k, c, id, authority, nonce, now)
            case Err(e) => e == if Find(c.milestones, id).None? then MilestoneNotFound else WrongMilestoneStatus
            case Ok(t) =>
              exists i: nat ::
                && IsFirst(c.milestones, id, i) && c.milestones[i].status == MilestoneSubmitted
                && IsFresh(k, t, Canonical(ReleaseMilestone, authority, c.founder, c.milestones[i].amount, c.id, id, nonce, now))
    ensures IsSubmitted(c, id) ==> BuildMilestoneReleaseTx(k, c, id, authority, nonce, now).Ok?
    ensures match BuildArbitrationTx(k, c, id, authority, awardTo, amount, nonce, now)
            case Err(e) =>
              if c.state != StateDisputed then e == NotDisputed else e == NotAParty && awardTo !in {c.founder, c.investor}
            case Ok(t) =>
              && c.state == StateDisputed && awardTo in {c.founder, c.investor}
              && IsFresh(k, t, Canonical(Arbitrate, authority, awardTo, amount, c.id, id, nonce, now))
    ensures match BuildRefundTx(k, c, authority, nonce, now)
            case Err(e) => e == NothingToRefund && RemainingAmount(c.milestones) <= 0
            case Ok(t) =>
              && RemainingAmount(c.milestones) > 0
              && IsFresh(k, t, Canonical(Refund, authority, c.investor, RemainingAmount(c.milestones), c.id, "", nonce, now))
  {
    FindIsFirstIff(c.milestones, id);
    if Find(c.milestones, id).Some? {
      assert IsFirst(c.milestones, id, Find(c.milestones, id).value);
    }
  }

  // ----- Every contract can be completed -----

  predicate DistinctMilestones(ms: seq<Milestone>) {
    forall i, j :: 0 <= i < j < |ms| ==> ms[i].id != ms[j].id
  }

  /** One milestone, submitted and approved: the contract goes on, or is complete. */
  lemma MilestoneDone(c: Contract, i: nat, now: int) returns (reviewed: Contract, done: Contract)
    requires Consistent(c) && c.state == StateInProgress && DistinctMilestones(c.milestones)
    requires i < |c.milestones| && c.milestones[i].status == MilestonePending
    ensures Takes(c, Submit(c.milestones[i].id), now, reviewed) && Takes(reviewed, Approve(c.milestones[i].id), now, done)
    ensures Consistent(done) && DistinctMilestones(done.milestones) && done.state in {StateInProgress, StateCompleted}
    ensures SumBy(Rank(), done.milestones) < SumBy(Rank(), c.milestones)
  {
    var id := c.milestones[i].id;
    reviewed := MilestoneUnderReview(c, i, now);
    FindIsFirstIff(reviewed.milestones, id);
    assert Find(reviewed.milestones, id) == Some(i);
    ApproveKeeps(reviewed, id, now);
    ApproveIs(reviewed, id, i, now);
    done := ApproveMilestone(reviewed, id, now).0;
    ActionLowersRank(c, Submit(id), now, reviewed);
    ActionLowersRank(reviewed, Approve(id), now, done);
  }

  lemma MilestoneUnderReview(c: Contract, i: nat, now: int) returns (reviewed: Contract)
    requires Consistent(c) && c.state == StateInProgress && DistinctMilestones(c.milestones)
    requires i < |c.milestones| && c.milestones[i].status == MilestonePending
    ensures reviewed == SubmitMilestone(c, c.milestones[i].id, now).0 && SubmitMilestone(c, c.milestones[i].id, now).1 == None
    ensures Consistent(reviewed) && reviewed.state == StateMilestoneReview && DistinctMilestones(reviewed.milestones)
    ensures |reviewed.milestones| == |c.milestones| && IsFirst(reviewed.milestones, c.milestones[i].id, i)
    ensures reviewed.milestones[i].status == MilestoneSubmitted
  {
    var id := c.milestones[i].id;
    assert IsFirst(c.milestones, id, i);
    SubmitIff(c, id, now);
    SubmitKeeps(c, id, now);
    FindIsFirstIff(c.milestones, id);
    reviewed := SubmitMilestone(c, id, now).0;
    assert reviewed.milestones == c.milestones[i := Stamped(c.milestones[i], MilestoneSubmitted, now)];
  }

  /** From any consistent contract in progress, with distinct IDs, submissions and approvals reach COMPLETED. */
  lemma {:induction false} CanComplete(c: Contract, now: int) returns (cs: seq<Contract>, acts: seq<Action>, times: seq<int>)
    requires Consistent(c) && c.state == StateInProgress && DistinctMilestones(c.milestones)
    ensures ActionRun(cs, acts, times) && cs[0] == c && cs[|acts|].state == StateCompleted
    ensures forall k :: 0 <= k < |acts| ==> acts[k].Submit? || acts[k].Approve?
    decreases SumBy(Rank(), c.milestones)
  {
    hide Takes, Consistent, ActionRun, DistinctMilestones;
    InProgressHasPending(c);
    var i :| 0 <= i < |c.milestones| && c.milestones[i].status == MilestonePending;
    var id := c.milestones[i].id;
    var reviewed, done := MilestoneDone(c, i, now);
    RankBound(done.milestones);
    if done.state == StateCompleted {
      cs, acts, times := [done], [], [];
      NoAction(done);
    } else {
      cs, acts, times := CanComplete(done, now);
    }
    cs, acts, times := TwoMoreActions(c, Submit(id), reviewed, Approve(id), now, cs, acts, times);
  }

  lemma TwoMoreActions(c: Contract, a: Action, mid: Contract, b: Action, now: int, cs: seq<Contract>, acts: seq<Action>, times: seq<int>)
    returns (cs': seq<Contract>, acts': seq<Action>, times': seq<int>)
    requires ActionRun(cs, acts, times) && Takes(c, a, now, mid) && Takes(mid, b, now, cs[0])
    ensures ActionRun(cs', acts', times') && cs'[0] == c && acts' == [a, b] + acts && cs'[|acts'|] == cs[|acts|]
  {
    hide Takes;
    OneMoreAction(mid, b, now, cs, acts, times);
    OneMoreAction(c, a, now, [mid] + cs, [b] + acts, [now] + times);
    cs', acts', times' := [c] + ([mid] + cs), [a] + ([b] + acts), [now] + ([now] + times);
  }

  lemma NoAction(c: Contract)
    ensures ActionRun([c], [], [])
  {
  }

  lemma OneMoreAction(c: Contract, a: Action, now: int, cs: seq<Contract>, acts: seq<Action>, times: seq<int>)
    requires ActionRun(cs, acts, times) && Takes(c, a, now, cs[0])
    ensures ActionRun([c] + cs, [a] + acts, [now] + times)
  {
    hide Takes;
    var cs', acts', times' := [c] + cs, [a] + acts, [now] + times;
    forall i | 0 <= i < |acts'|
      ensures Takes(cs'[i], acts'[i], times'[i], cs'[i + 1])
    {
      if i > 0 {
        assert Takes(cs[i - 1], acts[i - 1], times[i - 1], cs[i - 1 + 1]);
      }
    }
  }
}
