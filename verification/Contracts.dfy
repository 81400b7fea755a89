/** Contracts as the node keeps them: an object per contract, and one per milestone, updated in place. */
module Contracts {
  import opened Wrappers
  import opened Integers
  import opened Transactions
  import E = Escrow

  class Milestone {
    const id: string
    const contractId: string
    const title: string
    const amount: int64
    var status: E.MilestoneStatus
    var submittedAt: int
    var approvedAt: int

    /** NewMilestone: PENDING, never submitted, never approved. */
    constructor (id: string, contractId: string, title: string, amount: int64)
      ensures Value() == E.Milestone(id, contractId, title, amount, E.MilestonePending, 0, 0)
    {
      this.id, this.contractId, this.title, this.amount := id, contractId, title, amount;
      status, submittedAt, approvedAt := E.MilestonePending, 0, 0;
    }

    function Value(): E.Milestone
      reads this
    {
      E.Milestone(id, contractId, title, amount, status, submittedAt, approvedAt)
    }
  }

  function Values(ms: seq<Milestone>): (values: seq<E.Milestone>)
    reads ms
    ensures |values| == |ms|
    ensures forall i :: 0 <= i < |ms| ==> values[i] == ms[i].Value()
  {
    if ms == [] then [] else Values(ms[..|ms| - 1]) + [ms[|ms| - 1].Value()]
  }

  predicate Distinct(ms: seq<Milestone>) {
    forall i, j :: 0 <= i < j < |ms| ==> ms[i] != ms[j]
  }

  /** What is not yet approved. */
  method RemainingAmount(milestones: seq<Milestone>) returns (total: int64)
    ensures total == E.RemainingAmount(Values(milestones))
  {
    total := 0;
    ghost var vs := Values(milestones);
    for i := 0 to |milestones|
      invariant total == E.RemainingAmount(vs[..i])
    {
      assert vs[..i + 1][..i] == vs[..i];
      var m := milestones[i];
      if m.status != E.MilestoneApproved {
        total := Add(total, m.amount);
      }
    }
    assert vs[..|vs|] == vs;
  }

  method TotalAmount(milestones: seq<Milestone>) returns (total: int64)
    ensures total == E.TotalAmount(Values(milestones))
  {
    total := 0;
    ghost var vs := Values(milestones);
    for i := 0 to |milestones|
      invariant total == E.TotalAmount(vs[..i])
    {
      assert vs[..i + 1][..i] == vs[..i];
      total := Add(total, milestones[i].amount);
    }
    assert vs[..|vs|] == vs;
  }

  class Contract {
    const id: string
    const investor: string
    const founder: string
    const totalAmount: int64
    const milestones: seq<Milestone>
    const createdAt: int
    var state: E.ContractState
    var updatedAt: int

    constructor (id: string, investor: string, founder: string, totalAmount: int64, milestones: seq<Milestone>, now: int)
      ensures this.id == id && this.milestones == milestones
      ensures Value() == E.Contract(id, investor, founder, totalAmount, E.StateDraft, Values(milestones), now, now)
    {
      this.id, this.investor, this.founder := id, investor, founder;
      this.totalAmount, this.milestones, this.createdAt := totalAmount, milestones, now;
      state, updatedAt := E.StateDraft, now;
    }

    /** No milestone object appears twice. */
    ghost predicate Valid() {
      Distinct(milestones)
    }

    ghost function Footprint(): set<object> {
      {this} + (set m: Milestone | m in milestones :: m)
    }

    function Value(): E.Contract
      reads this, milestones
    {
      E.Contract(id, investor, founder, totalAmount, state, Values(milestones), createdAt, updatedAt)
    }

    method Advance(to: E.ContractState, now: int) returns (error: Option<E.EscrowError>)
      modifies this
      ensures (Value(), error) == E.Advance(old(Value()), to, now)
    {
      var move := E.Transition(state, to);
      if move.Fail? {
        return Some(move.error);
      }
      state := to;
      updatedAt := now;
      error := None;
    }

    /** The first milestone with this ID, or null. */
    method FindMilestone(milestoneId: string) returns (m: Milestone?)
      ensures match E.Find(Value().milestones, milestoneId)
              case None => m == null
              case Some(i) => m == milestones[i] && m in milestones
    {
      ghost var vs := Values(milestones);
      for i := 0 to |milestones|
        invariant forall k :: 0 <= k < i ==> vs[k].id != milestoneId
      {
        if milestones[i].id == milestoneId {
          FoundAt(vs, milestoneId, i);
          return milestones[i];
        }
      }
      m := null;
    }

    method SubmitMilestone(milestoneId: string, now: int) returns (error: Option<E.EscrowError>)
      requires Valid()
      modifies Footprint()
      ensures (Value(), error) == E.SubmitMilestone(old(Value()), milestoneId, now)
    {
      hide Values, E.Find, E.Transition, E.RemainingAmount;
      ghost var was := Values(milestones);
      var m := FindMilestone(milestoneId);
      if m == null {
        return Some(E.MilestoneNotFound);
      }
      if m.status != E.MilestonePending {
        return Some(E.WrongMilestoneStatus);
      }
      var refusal := Advance(E.StateMilestoneReview, now);
      if refusal.Some? {
        return refusal;
      }
      m.status := E.MilestoneSubmitted;
      m.submittedAt := now;
      assert Values(milestones) == was[E.Find(was, milestoneId).value := m.Value()];
      error := None;
    }

    method DisputeMilestone(milestoneId: string, now: int) returns (error: Option<E.EscrowError>)
      requires Valid()
      modifies Footprint()
      ensures (Value(), error) == E.DisputeMilestone(old(Value()), milestoneId, now)
    {
      hide Values, E.Find, E.Transition, E.RemainingAmount;
      ghost var was := Values(milestones);
      var m := FindMilestone(milestoneId);
      if m == null {
        return Some(E.MilestoneNotFound);
      }
      if m.status != E.MilestoneSubmitted {
        return Some(E.WrongMilestoneStatus);
      }
      var refusal := Advance(E.StateDisputed, now);
      if refusal.Some? {
        return refusal;
      }
      m.status := E.MilestoneDisputed;
      assert Values(milestones) == was[E.Find(was, milestoneId).value := m.Value()];
      error := None;
    }

    method ApproveMilestone(milestoneId: string, now: int) returns (error: Option<E.EscrowError>)
      requires Valid()
      modifies Footprint()
      ensures (Value(), error) == E.ApproveMilestone(old(Value()), milestoneId, now)
    {
      hide Values, E.Find, E.AfterApproval, E.Advance;
      ghost var was := Values(milestones);
      var m := FindMilestone(milestoneId);
      if m == null {
        return Some(E.MilestoneNotFound);
      }
      m.status := E.MilestoneApproved;
      m.approvedAt := now;
      assert Values(milestones) == was[E.Find(was, milestoneId).value := m.Value()];
      error := AfterApproval(now);
    }

    method AfterApproval(now: int) returns (error: Option<E.EscrowError>)
      modifies this
      ensures (Value(), error) == E.AfterApproval(old(Value()), now)
    {
      var remaining := RemainingAmount(milestones);
      if remaining == 0 {
        error := Advance(E.StateCompleted, now);
      } else {
        error := Advance(E.StateInProgress, now);
      }
    }

    method ResolveArbitration(milestoneId: string, terminate: bool, now: int) returns (error: Option<E.EscrowError>)
      requires Valid()
      modifies Footprint()
      ensures (Value(), error) == E.ResolveArbitration(old(Value()), milestoneId, terminate, now)
    {
      hide Values, E.Find, E.AfterApproval, E.Advance;
      if terminate {
        error := Advance(E.StateTerminated, now);
        return;
      }
      ghost var was := Values(milestones);
      var m := FindMilestone(milestoneId);
      if m != null {
        m.status := E.MilestoneApproved;
        m.approvedAt := now;
        assert Values(milestones) == was[E.Find(was, milestoneId).value := m.Value()];
      }
      error := AfterApproval(now);
    }

    // ----- Transaction builders: they only read -----

    method BuildFundingTx(k: Crypto, investorNonce: int64, now: int) returns (tx: Result<Tx, E.EscrowError>)
      ensures tx == E.BuildFundingTx(k, Value(), investorNonce, now)
    {
      if state != E.StateSigned {
        return Err(E.NotSigned);
      }
      tx := Ok(NewTransaction(k, Lock, investor, founder, totalAmount, id, "", investorNonce, now));
    }

    method BuildMilestoneReleaseTx(k: Crypto, milestoneId: string, authority: string, nonce: int64, now: int)
      returns (tx: Result<Tx, E.EscrowError>)
      ensures tx == E.BuildMilestoneReleaseTx(k, Value(), milestoneId, authority, nonce, now)
    {
      var m := FindMilestone(milestoneId);
      if m == null {
        return Err(E.MilestoneNotFound);
      }
      if m.status != E.MilestoneSubmitted {
        return Err(E.WrongMilestoneStatus);
      }
      tx := Ok(NewTransaction(k, ReleaseMilestone, authority, founder, m.amount, id, milestoneId, nonce, now));
    }

    method BuildArbitrationTx(k: Crypto, milestoneId: string, authority: string, awardTo: string, amount: int64,
                              nonce: int64, now: int)
      returns (tx: Result<Tx, E.EscrowError>)
      ensures tx == E.BuildArbitrationTx(k, Value(), milestoneId, authority, awardTo, amount, nonce, now)
    {
      if state != E.StateDisputed {
        return Err(E.NotDisputed);
      }
      if awardTo != founder && awardTo != investor {
        return Err(E.NotAParty);
      }
      tx := Ok(NewTransaction(k, Arbitrate, authority, awardTo, amount, id, milestoneId, nonce, now));
    }

    method BuildRefundTx(k: Crypto, authority: string, nonce: int64, now: int) returns (tx: Result<Tx, E.EscrowError>)
      ensures tx == E.BuildRefundTx(k, Value(), authority, nonce, now)
    {
      var remaining := RemainingAmount(milestones);
      if remaining <= 0 {
        return Err(E.NothingToRefund);
      }
      tx := Ok(NewTransaction(k, Refund, authority, investor, remaining, id, "", nonce, now));
    }
  }

  /** A DRAFT contract over these milestones, unless their total is not positive. */
  method NewContract(id: string, investor: string, founder: string, milestones: seq<Milestone>, now: int)
    returns (c: Contract?)
    ensures c == null <==> E.NewContract(id, investor, founder, Values(milestones), now).Err?
    ensures c != null ==> fresh(c) && c.id == id && c.milestones == milestones
    ensures c != null && Distinct(milestones) ==> c.Valid()
    ensures c != null ==> E.NewContract(id, investor, founder, Values(milestones), now) == Ok(c.Value())
  {
    var total := TotalAmount(milestones);
    if total <= 0 {
      return null;
    }
    c := new Contract(id, investor, founder, total, milestones, now);
  }

  lemma {:induction false} FoundAt(ms: seq<E.Milestone>, id: string, i: nat)
    requires i < |ms| && ms[i].id == id
    requires forall k :: 0 <= k < i ==> ms[k].id != id
    ensures E.Find(ms, id) == Some(i)
  {
    if i == 0 {
    } else {
      FoundAt(ms[1..], id, i - 1);
    }
  }
}
