/** What the workflow keeps between a contract's state and its milestones, and why it ends. */
module EscrowLaws {
  import opened Wrappers
  import opened Integers
  import opened Sums
  import opened Escrow

  // ----- Amounts -----

  function Face(): Milestone -> int {
    (m: Milestone) => m.amount
  }

  function Outstanding(): Milestone -> int {
    (m: Milestone) => if m.status != MilestoneApproved then m.amount else 0
  }

  /** Positive amounts whose sum an int64 can hold. */
  ghost predicate AmountsOk(ms: seq<Milestone>) {
    (forall i :: 0 <= i < |ms| ==> ms[i].amount > 0) && SumBy(Face(), ms) <= MAX
  }

  /** The loops compute the exact sums. */
  lemma {:induction false} SumsAreExact(ms: seq<Milestone>)
    requires AmountsOk(ms)
    ensures TotalAmount(ms) == SumBy(Face(), ms) >= 0
    ensures RemainingAmount(ms) == SumBy(Outstanding(), ms)
    ensures 0 <= SumBy(Outstanding(), ms) <= SumBy(Face(), ms)
  {
    if |ms| == 0 {
    } else {
      SumsAreExact(ms[..|ms| - 1]);
    }
  }

  /** In general a loop computes its sum up to whole turns of an int64. */
  lemma {:induction false} TotalsAreCongruent(ms: seq<Milestone>)
    ensures Congruent(TotalAmount(ms), SumBy(Face(), ms))
    ensures Congruent(RemainingAmount(ms), SumBy(Outstanding(), ms))
  {
    if |ms| == 0 {
      CongruentRefl(0);
    } else {
      var front, m := ms[..|ms| - 1], ms[|ms| - 1];
      TotalsAreCongruent(front);
      AddCongruent(TotalAmount(front), m.amount, SumBy(Face(), front));
      AddCongruent(RemainingAmount(front), m.amount, SumBy(Outstanding(), front));
    }
  }

  /** So it is the true sum exactly when an int64 can hold that sum, whatever the amounts and the sums on the way. */
  lemma TotalIsExactIff(ms: seq<Milestone>)
    ensures TotalAmount(ms) == SumBy(Face(), ms) <==> Fits(SumBy(Face(), ms))
    ensures RemainingAmount(ms) == SumBy(Outstanding(), ms) <==> Fits(SumBy(Outstanding(), ms))
  {
    TotalsAreCongruent(ms);
    var total, remaining := SumBy(Face(), ms), SumBy(Outstanding(), ms);
    CongruentRefl(total);
    CongruentRefl(remaining);
    if Fits(total) {
      CongruentUnique(TotalAmount(ms), total, total);
    }
    if Fits(remaining) {
      CongruentUnique(RemainingAmount(ms), remaining, remaining);
    }
  }

  /** An input outside the condition: three milestones of 2^63 - 1 pass NewContract with a wrapped total. */
  lemma TotalCanWrap(m: Milestone, now: int)
    requires m.amount == MAX
    ensures NewContract("c", "i", "f", [m, m, m], now).Ok?
    ensures NewContract("c", "i", "f", [m, m, m], now).value.totalAmount == MAX - 2
  {
    var two := [m, m];
    assert two[..1] == [m] && [m][..0] == [];
    assert TotalAmount([m]) == MAX;
    assert TotalAmount(two) == -2;
    assert [m, m, m][..2] == two;
  }

  // ----- Consistency of state and milestones -----

  predicate AllAre(ms: seq<Milestone>, s: MilestoneStatus) {
    forall i :: 0 <= i < |ms| ==> ms[i].status == s
  }

  predicate NoneAre(ms: seq<Milestone>, s: MilestoneStatus) {
    forall i :: 0 <= i < |ms| ==> ms[i].status != s
  }

  predicate OneIs(ms: seq<Milestone>, s: MilestoneStatus, i: nat) {
    i < |ms| && ms[i].status == s && forall j :: 0 <= j < |ms| && j != i ==> ms[j].status != s
  }

  ghost predicate ExactlyOne(ms: seq<Milestone>, s: MilestoneStatus) {
    exists i :: OneIs(ms, s, i)
  }

  ghost predicate Consistent(c: Contract) {
    var ms := c.milestones;
    && AmountsOk(ms) && |ms| > 0
    && match c.state
       case StateInProgress =>
         NoneAre(ms, MilestoneSubmitted) && NoneAre(ms, MilestoneDisputed) && !AllAre(ms, MilestoneApproved)
       case StateMilestoneReview =>
         ExactlyOne(ms, MilestoneSubmitted) && NoneAre(ms, MilestoneDisputed)
       case StateDisputed =>
         NoneAre(ms, MilestoneSubmitted) && (ExactlyOne(ms, MilestoneDisputed) || AllAre(ms, MilestoneApproved))
       case StateCompleted =>
         AllAre(ms, MilestoneApproved)
       case StateTerminated =>
         NoneAre(ms, MilestoneSubmitted)
       case Unlisted(_) =>
         false
       case _ =>
         AllAre(ms, MilestonePending)
  }

  /** Terminal states are COMPLETED and TERMINATED: the known states out of which no move is legal. */
  lemma TerminalIff(s: ContractState)
    ensures IsTerminal(s) <==> s in {StateCompleted, StateTerminated}
    ensures IsTerminal(s) <==> !s.Unlisted? && forall to :: Transition(s, to).Fail?
  {
    if !IsTerminal(s) && !s.Unlisted? {
      assert Transition(s, ValidTransitions(s).value[0]).Pass?;
    }
  }

  lemma InProgressHasPending(c: Contract)
    requires Consistent(c) && c.state == StateInProgress
    ensures exists i :: 0 <= i < |c.milestones| && c.milestones[i].status == MilestonePending
  {
    var i :| 0 <= i < |c.milestones| && c.milestones[i].status != MilestoneApproved;
    assert c.milestones[i].status == MilestonePending;
  }

  /** Nothing remains exactly when everything is approved. */
  lemma NothingRemainsIff(ms: seq<Milestone>)
    requires AmountsOk(ms)
    ensures RemainingAmount(ms) == 0 <==> AllAre(ms, MilestoneApproved)
  {
    SumsAreExact(ms);
    if AllAre(ms, MilestoneApproved) {
      SumIsZero(ms);
    } else {
      var i :| 0 <= i < |ms| && ms[i].status != MilestoneApproved;
      SumCovers(Outstanding(), ms, i);
      assert Outstanding()(ms[i]) == ms[i].amount > 0;
    }
  }

  lemma {:induction false} SumIsZero(ms: seq<Milestone>)
    requires AllAre(ms, MilestoneApproved)
    ensures SumBy(Outstanding(), ms) == 0
  {
    if |ms| == 0 {
    } else {
      SumIsZero(ms[..|ms| - 1]);
    }
  }

  /** Changing a status and its stamps leaves the amounts as they are. */
  lemma RestampKeepsAmounts(ms: seq<Milestone>, i: nat, m: Milestone)
    requires AmountsOk(ms) && i < |ms| && m.amount == ms[i].amount
    ensures AmountsOk(ms[i := m])
    ensures SumBy(Outstanding(), ms[i := m]) == SumBy(Outstanding(), ms) - Outstanding()(ms[i]) + Outstanding()(m)
  {
    SumUpdate(Face(), ms, i, m);
    SumUpdate(Outstanding(), ms, i, m);
  }

  lemma SubmitKeeps(c: Contract, id: string, now: int)
    requires Consistent(c)
    ensures Consistent(SubmitMilestone(c, id, now).0)
    ensures SubmitMilestone(c, id, now).1.None? ==>
              c.state == StateInProgress && SubmitMilestone(c, id, now).0.state == StateMilestoneReview
  {
    var (c', error) := SubmitMilestone(c, id, now);
    if error.None? {
      var i := Find(c.milestones, id).value;
      RestampKeepsAmounts(c.milestones, i, c'.milestones[i]);
      assert OneIs(c'.milestones, MilestoneSubmitted, i);
    }
  }

  lemma DisputeKeeps(c: Contract, id: string, now: int)
    requires Consistent(c)
    ensures Consistent(DisputeMilestone(c, id, now).0)
    ensures DisputeMilestone(c, id, now).1.None? ==>
              c.state == StateMilestoneReview && DisputeMilestone(c, id, now).0.state == StateDisputed
  {
    var (c', error) := DisputeMilestone(c, id, now);
    if error.None? {
      var i := Find(c.milestones, id).value;
      var k: nat :| OneIs(c.milestones, MilestoneSubmitted, k);
      assert k == i;
      RestampKeepsAmounts(c.milestones, i, c'.milestones[i]);
      assert OneIs(c'.milestones, MilestoneDisputed, i);
    }
  }

  /** The milestone a release transaction can be built for. */
  predicate IsSubmitted(c: Contract, id: string) {
    var i := Find(c.milestones, id);
    i.Some? && c.milestones[i.value].status == MilestoneSubmitted
  }

  /** Under the builder's guard an approval never fails: COMPLETED if it was the last milestone, else IN_PROGRESS. */
  lemma ApproveKeeps(c: Contract, id: string, now: int)
    requires Consistent(c) && IsSubmitted(c, id)
    ensures c.state == StateMilestoneReview
    ensures Consistent(ApproveMilestone(c, id, now).0) && ApproveMilestone(c, id, now).1.None?
    ensures ApproveMilestone(c, id, now).0.state in {StateInProgress, StateCompleted}
    ensures SumBy(Outstanding(), ApproveMilestone(c, id, now).0.milestones) ==
            SumBy(Outstanding(), c.milestones) - c.milestones[Find(c.milestones, id).value].amount
  {
    var i := Find(c.milestones, id).value;
    assert c.state == StateMilestoneReview;
    var k: nat :| OneIs(c.milestones, MilestoneSubmitted, k);
    assert k == i;
    var c' := ApproveMilestone(c, id, now).0;
    RestampKeepsAmounts(c.milestones, i, c'.milestones[i]);
    NothingRemainsIff(c'.milestones);
  }

  predicate IsDisputed(c: Contract, id: string) {
    var i := Find(c.milestones, id);
    i.Some? && c.milestones[i.value].status == MilestoneDisputed
  }

  lemma ResolveDisputedKeeps(c: Contract, id: string, now: int)
    requires Consistent(c) && c.state == StateDisputed && IsDisputed(c, id)
    ensures var (c', error) := ResolveArbitration(c, id, false, now);
            && Consistent(c')
            && SumBy(Outstanding(), c'.milestones) ==
               SumBy(Outstanding(), c.milestones) - c.milestones[Find(c.milestones, id).value].amount
            && (if AllAre(c'.milestones, MilestoneApproved) then error == Some(IllegalTransition) && c'.state == StateDisputed
                else error == None && c'.state == StateInProgress)
  {
    var i := Find(c.milestones, id).value;
    var k: nat :| OneIs(c.milestones, MilestoneDisputed, k);
    assert k == i;
    var (c', error) := ResolveArbitration(c, id, false, now);
    RestampKeepsAmounts(c.milestones, i, c'.milestones[i]);
    NothingRemainsIff(c'.milestones);
  }

  /**
   * A non-terminating arbitration keeps the contract consistent exactly when it names the disputed milestone, or when
   * nothing is left to approve and it changes nothing but a time stamp: otherwise an unknown ID, or any other milestone,
   * resumes the contract with the dispute still standing.
   */
  lemma ResolveKeepsIff(c: Contract, id: string, now: int)
    requires Consistent(c) && c.state == StateDisputed
    ensures Consistent(ResolveArbitration(c, id, false, now).0) <==>
            IsDisputed(c, id) || AllAre(c.milestones, MilestoneApproved)
  {
    if IsDisputed(c, id) {
      ResolveDisputedKeeps(c, id, now);
    } else if AllAre(c.milestones, MilestoneApproved) {
      LastArbitrationIsStuck(c, id, now);
      var found := Find(c.milestones, id);
      if found.Some? {
        RestampKeepsAmounts(c.milestones, found.value, ResolveArbitration(c, id, false, now).0.milestones[found.value]);
      }
    } else {
      var k: nat :| OneIs(c.milestones, MilestoneDisputed, k);
      var c' := ResolveArbitration(c, id, false, now).0;
      var found := Find(c.milestones, id);
      assert found.Some? ==> found.value != k;
      assert c'.milestones[k].status == MilestoneDisputed;
      if found.Some? {
        RestampKeepsAmounts(c.milestones, found.value, c'.milestones[found.value]);
      }
      NothingRemainsIff(c'.milestones);
      assert c'.state == StateInProgress;
    }
  }

  /**
   * A resolution of a DISPUTED contract fails exactly when no milestone but the one it names is left to approve, and
   * then everything is approved while the contract stays DISPUTED. Any ID, so also a repeated resolution.
   */
  lemma LastArbitrationIsStuck(c: Contract, id: string, now: int)
    requires Consistent(c) && c.state == StateDisputed
    ensures ResolveArbitration(c, id, false, now).1.Some? <==>
            forall j :: 0 <= j < |c.milestones| && c.milestones[j].status != MilestoneApproved ==> Find(c.milestones, id) == Some(j)
    ensures ResolveArbitration(c, id, false, now).1.Some? ==>
              && ResolveArbitration(c, id, false, now).1 == Some(IllegalTransition)
              && AllAre(ResolveArbitration(c, id, false, now).0.milestones, MilestoneApproved)
              && ResolveArbitration(c, id, false, now).0.state == StateDisputed
  {
    var ms, found := c.milestones, Find(c.milestones, id);
    var ms' := ResolveArbitration(c, id, false, now).0.milestones;
    if found.Some? {
      RestampKeepsAmounts(ms, found.value, ms'[found.value]);
      assert ms' == ms[found.value := ms'[found.value]] && ms'[found.value].status == MilestoneApproved;
    }
    NothingRemainsIff(ms');
    assert forall j :: 0 <= j < |ms| && found != Some(j) ==> ms'[j] == ms[j];
    assert AllAre(ms', MilestoneApproved) <==>
           forall j :: 0 <= j < |ms| && ms[j].status != MilestoneApproved ==> found == Some(j);
  }

  /** The stuck state is reachable from any contract with one milestone: submit, dispute, resolve. */
  lemma OneMilestoneGetsStuck(c: Contract, m: Milestone, now: int)
    requires c.state == StateInProgress && c.milestones == [m] && m.status == MilestonePending && m.amount > 0
    ensures var (reviewed, e1) := SubmitMilestone(c, m.id, now);
            var (disputed, e2) := DisputeMilestone(reviewed, m.id, now);
            var (resolved, e3) := ResolveArbitration(disputed, m.id, false, now);
            && e1 == None && e2 == None && e3 == Some(IllegalTransition)
            && resolved.state == StateDisputed && AllAre(resolved.milestones, MilestoneApproved)
            && ResolveArbitration(resolved, m.id, false, now).1 == Some(IllegalTransition)
  {
    var reviewed := SubmitMilestone(c, m.id, now).0;
    assert reviewed.milestones == [m.(status := MilestoneSubmitted, submittedAt := now)];
    var disputed := DisputeMilestone(reviewed, m.id, now).0;
    assert disputed.milestones == [reviewed.milestones[0].(status := MilestoneDisputed)];
    var resolved := ResolveArbitration(disputed, m.id, false, now).0;
    assert resolved.milestones == [disputed.milestones[0].(status := MilestoneApproved, approvedAt := now)];
    assert RemainingAmount(resolved.milestones) == 0 by {
      assert resolved.milestones[..0] == [];
    }
    assert resolved.milestones[0 := resolved.milestones[0].(status := MilestoneApproved, approvedAt := now)] == resolved.milestones;
  }

  // ----- Termination -----

  function Rank(): Milestone -> int {
    (m: Milestone) =>
      match m.status
      case MilestonePending => 3
      case MilestoneSubmitted => 2
      case MilestoneDisputed => 1
      case MilestoneApproved => 0
  }

  datatype Action = Submit(id: string) | Approve(id: string) | Dispute(id: string) | Resolve(id: string)

  /** An action of the workflow that takes effect; a resolution may report the last-milestone error. */
  predicate Takes(c: Contract, a: Action, now: int, c': Contract) {
    match a
    case Submit(id) => SubmitMilestone(c, id, now) == (c', None)
    case Approve(id) => IsSubmitted(c, id) && ApproveMilestone(c, id, now) == (c', None)
    case Dispute(id) => DisputeMilestone(c, id, now) == (c', None)
    case Resolve(id) => c.state == StateDisputed && IsDisputed(c, id) && ResolveArbitration(c, id, false, now).0 == c'
  }

  lemma ActionKeeps(c: Contract, a: Action, now: int, c': Contract)
    requires Consistent(c) && Takes(c, a, now, c')
    ensures Consistent(c')
  {
    match a
    case Submit(id) => SubmitKeeps(c, id, now);
    case Approve(id) => ApproveKeeps(c, id, now);
    case Dispute(id) => DisputeKeeps(c, id, now);
    case Resolve(id) => ResolveDisputedKeeps(c, id, now);
  }

  /** Every run of actions keeps state and milestones consistent, whatever is awarded and whatever happens on chain. */
  lemma {:induction false} RunConsistent(cs: seq<Contract>, acts: seq<Action>, times: seq<int>, n: nat)
    requires ActionRun(cs, acts, times) && n < |cs| && Consistent(cs[0])
    ensures Consistent(cs[n])
  {
    hide Takes, Consistent;
    if n == 0 {
    } else {
      var i := n - 1;
      RunConsistent(cs, acts, times, i);
      assert Takes(cs[i], acts[i], times[i], cs[i + 1]);
      ActionKeeps(cs[i], acts[i], times[i], cs[n]);
    }
  }

  lemma ActionLowersRank(c: Contract, a: Action, now: int, c': Contract)
    requires Takes(c, a, now, c')
    ensures 0 <= SumBy(Rank(), c'.milestones) < SumBy(Rank(), c.milestones)
    ensures |c'.milestones| == |c.milestones|
  {
    var i := Find(c.milestones, a.id).value;
    assert c'.milestones == c.milestones[i := c'.milestones[i]];
    SumUpdate(Rank(), c.milestones, i, c'.milestones[i]);
    SumNonNegative(Rank(), c'.milestones);
  }

  lemma {:induction false} RankBound(ms: seq<Milestone>)
    ensures 0 <= SumBy(Rank(), ms) <= 3 * |ms|
  {
    if |ms| == 0 {
    } else {
      RankBound(ms[..|ms| - 1]);
    }
  }

  ghost predicate ActionRun(cs: seq<Contract>, acts: seq<Action>, times: seq<int>) {
    && |cs| == |acts| + 1 == |times| + 1
    && forall i :: 0 <= i < |acts| ==> Takes(cs[i], acts[i], times[i], cs[i + 1])
  }

  lemma {:induction false} RunLowersRank(cs: seq<Contract>, acts: seq<Action>, times: seq<int>, n: nat)
    requires ActionRun(cs, acts, times) && n < |cs|
    ensures n <= SumBy(Rank(), cs[0].milestones) - SumBy(Rank(), cs[n].milestones)
    ensures |cs[n].milestones| == |cs[0].milestones|
  {
    if n == 0 {
    } else {
      RunLowersRank(cs, acts, times, n - 1);
      ActionLowersRank(cs[n - 1], acts[n - 1], times[n - 1], cs[n]);
    }
  }

  /** With k milestones at most 3k submissions, approvals, disputes and resolutions can take effect. */
  lemma WorkflowEnds(cs: seq<Contract>, acts: seq<Action>, times: seq<int>)
    requires ActionRun(cs, acts, times)
    ensures |acts| <= 3 * |cs[0].milestones|
  {
    RunLowersRank(cs, acts, times, |acts|);
    RankBound(cs[0].milestones);
    RankBound(cs[|acts|].milestones);
  }
}
