/** Investment contracts: the nine-state lifecycle, the milestones, and the transactions built from them. */
module Escrow {
  import opened Wrappers
  import opened Integers
  import opened Sums
  import opened Transactions

  // ----- Lifecycle -----

  /** The strings of the nine states. */
  const LISTED_STATES: set<string> :=
    {"DRAFT", "PENDING_SIGNATURE", "SIGNED", "FUNDED", "IN_PROGRESS", "MILESTONE_REVIEW", "DISPUTED", "COMPLETED",
     "TERMINATED"}

  type OtherState = s: string | s !in LISTED_STATES witness ""

  /** The nine states, or any other string a caller may ask for. */
  datatype ContractState =
    | StateDraft | StatePendingSignature | StateSigned | StateFunded | StateInProgress
    | StateMilestoneReview | StateDisputed | StateCompleted | StateTerminated | Unlisted(name: OtherState)

  datatype EscrowError =
    | UnknownState | IllegalTransition | MilestoneNotFound | WrongMilestoneStatus
    | NotSigned | NotDisputed | NotAParty | NothingToRefund | TotalNotPositive

  /** The legal moves; None for a state the table does not list. */
  function ValidTransitions(from: ContractState): Option<seq<ContractState>> {
    match from
    case StateDraft => Some([StatePendingSignature])
    case StatePendingSignature => Some([StateSigned, StateDraft])
    case StateSigned => Some([StateFunded])
    case StateFunded => Some([StateInProgress])
    case StateInProgress => Some([StateMilestoneReview, StateTerminated])
    case StateMilestoneReview => Some([StateInProgress, StateCompleted, StateDisputed])
    case StateDisputed => Some([StateInProgress, StateTerminated])
    case StateCompleted => Some([])
    case StateTerminated => Some([])
    case Unlisted(_) => None
  }

  predicate IsTerminal(s: ContractState) {
    ValidTransitions(s) == Some([])
  }

  function Transition(from: ContractState, to: ContractState): Outcome<EscrowError> {
    match ValidTransitions(from)
    case None => Fail(UnknownState)
    case Some(allowed) => if to in allowed then Pass else Fail(IllegalTransition)
  }

  // ----- Milestones and contracts -----

  datatype MilestoneStatus = MilestonePending | MilestoneSubmitted | MilestoneApproved | MilestoneDisputed

  datatype Milestone = Milestone(
    id: string, contractId: string, title: string, amount: int64,
    status: MilestoneStatus, submittedAt: int, approvedAt: int)

  datatype Contract = Contract(
    id: string, investor: string, founder: string, totalAmount: int64,
    state: ContractState, milestones: seq<Milestone>, createdAt: int, updatedAt: int)

  /** The sum of what is not yet approved, with the wrap-around of each addition. */
  function RemainingAmount(ms: seq<Milestone>): int64 {
    if |ms| == 0 then 0 else
    var m := ms[|ms| - 1];
    var front := RemainingAmount(ms[..|ms| - 1]);
    if m.status != MilestoneApproved then Add(front, m.amount) else front
  }

  function TotalAmount(ms: seq<Milestone>): int64 {
    if |ms| == 0 then 0 else Add(TotalAmount(ms[..|ms| - 1]), ms[|ms| - 1].amount)
  }

  function NewContract(id: string, investor: string, founder: string, ms: seq<Milestone>, now: int): Result<Contract, EscrowError> {
    if TotalAmount(ms) <= 0 then Err(TotalNotPositive)
    else Ok(Contract(id, investor, founder, TotalAmount(ms), StateDraft, ms, now, now))
  }

  /** The position of the first milestone with this ID. */
  function Find(ms: seq<Milestone>, id: string): (r: Option<nat>)
    ensures r.Some? ==> r.value < |ms| && ms[r.value].id == id
  {
    if |ms| == 0 then None
    else if ms[0].id == id then Some(0)
    else match Find(ms[1..], id) case None => None case Some(i) => Some(i + 1)
  }

  function WithStatus(c: Contract, i: nat, m: Milestone): Contract
    requires i < |c.milestones|
  {
    c.(milestones := c.milestones[i := m])
  }

  // ----- Operations: the contract afterwards, and the error if there was one -----

  function Advance(c: Contract, to: ContractState, now: int): (Contract, Option<EscrowError>) {
    match Transition(c.state, to)
    case Fail(error) => (c, Some(error))
    case Pass => (c.(state := to, updatedAt := now), None)
  }

  function SubmitMilestone(c: Contract, id: string, now: int): (Contract, Option<EscrowError>) {
    match Find(c.milestones, id)
    case None => (c, Some(MilestoneNotFound))
    case Some(i) =>
      var m := c.milestones[i];
      if m.status != MilestonePending then (c, Some(WrongMilestoneStatus)) else
      var (moved, error) := Advance(c, StateMilestoneReview, now);
      if error.Some? then (c, error)
      else (WithStatus(moved, i, m.(status := MilestoneSubmitted, submittedAt := now)), None)
  }

  function DisputeMilestone(c: Contract, id: string, now: int): (Contract, Option<EscrowError>) {
    match Find(c.milestones, id)
    case None => (c, Some(MilestoneNotFound))
    case Some(i) =>
      var m := c.milestones[i];
      if m.status != MilestoneSubmitted then (c, Some(WrongMilestoneStatus)) else
      var (moved, error) := Advance(c, StateDisputed, now);
      if error.Some? then (c, error)
      else (WithStatus(moved, i, m.(status := MilestoneDisputed)), None)
  }

  /** Back to IN_PROGRESS while anything remains, to COMPLETED otherwise. */
  function AfterApproval(c: Contract, now: int): (Contract, Option<EscrowError>) {
    Advance(c, if RemainingAmount(c.milestones) == 0 then StateCompleted else StateInProgress, now)
  }

  /** No guard on the milestone's status, and the milestone stays approved when the transition is refused. */
  function ApproveMilestone(c: Contract, id: string, now: int): (Contract, Option<EscrowError>) {
    match Find(c.milestones, id)
    case None => (c, Some(MilestoneNotFound))
    case Some(i) =>
      AfterApproval(WithStatus(c, i, c.milestones[i].(status := MilestoneApproved, approvedAt := now)), now)
  }

  /** An unknown milestone ID is skipped, and DISPUTED to COMPLETED is not a legal move. */
  function ResolveArbitration(c: Contract, id: string, terminate: bool, now: int): (Contract, Option<EscrowError>) {
    if terminate then Advance(c, StateTerminated, now) else
    match Find(c.milestones, id)
    case None => AfterApproval(c, now)
    case Some(i) =>
      AfterApproval(WithStatus(c, i, c.milestones[i].(status := MilestoneApproved, approvedAt := now)), now)
  }

  // ----- Transaction builders -----

  function BuildFundingTx(k: Crypto, c: Contract, investorNonce: int64, now: int): Result<Tx, EscrowError> {
    if c.state != StateSigned then Err(NotSigned)
    else Ok(NewTransaction(k, Lock, c.investor, c.founder, c.totalAmount, c.id, "", investorNonce, now))
  }

  function BuildMilestoneReleaseTx(k: Crypto, c: Contract, id: string, authority: string, nonce: int64, now: int): Result<Tx, EscrowError> {
    match Find(c.milestones, id)
    case None => Err(MilestoneNotFound)
    case Some(i) =>
      if c.milestones[i].status != MilestoneSubmitted then Err(WrongMilestoneStatus)
      else Ok(NewTransaction(k, ReleaseMilestone, authority, c.founder, c.milestones[i].amount, c.id, id, nonce, now))
  }

  function BuildArbitrationTx(k: Crypto, c: Contract, id: string, authority: string, awardTo: string, amount: int64,
                              nonce: int64, now: int): Result<Tx, EscrowError>
  {
    if c.state != StateDisputed then Err(NotDisputed)
    else if awardTo != c.founder && awardTo != c.investor then Err(NotAParty)
    else Ok(NewTransaction(k, Arbitrate, authority, awardTo, amount, c.id, id, nonce, now))
  }

  /** Looks at the remaining amount only, not at the contract's state. */
  function BuildRefundTx(k: Crypto, c: Contract, authority: string, nonce: int64, now: int): Result<Tx, EscrowError> {
    var remaining := RemainingAmount(c.milestones);
    if remaining <= 0 then Err(NothingToRefund)
    else Ok(NewTransaction(k, Refund, authority, c.investor, remaining, c.id, "", nonce, now))
  }
}
