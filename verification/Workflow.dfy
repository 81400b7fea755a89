/** The escrow workflow: what the API handlers do, and one contract with the ledger as a state machine. */
module Workflow {
  import opened Wrappers
  import opened Integers
  import opened Sums
  import opened Transactions
  import opened Ledger
  import opened Escrow
  import C = Consensus

  // ----- The handlers: contract and mempool afterwards, and how the request ended -----

  /** The escrow authority that signs releases, refunds and awards. */
  datatype Authority = Authority(k: Crypto, address: string, privateKey: string, publicKey: string)

  datatype Reply =
    | Done | BuildFailed(escrow: EscrowError) | SigningFailed | TxRejected(tx: TxError)
    | UpdateFailed(escrow: EscrowError) | NoLockYet | AmountMismatch

  function Ended(error: Option<EscrowError>): Reply {
    match error case None => Done case Some(e) => UpdateFailed(e)
  }

  /** Sign, validate against the current state, and put in the mempool. */
  function SignAndSubmit(a: Authority, s: State, pool: C.Mempool, built: Result<Tx, EscrowError>): (C.Mempool, Reply) {
    match built
    case Err(e) => (pool, BuildFailed(e))
    case Ok(t) =>
      match SignTx(a.k, t, a.privateKey, a.publicKey)
      case None => (pool, SigningFailed)
      case Some(signed) =>
        match ValidateTransaction(a.k, signed, s)
        case Fail(e) => (pool, TxRejected(e))
        case Pass => (if signed.id in pool then pool else pool[signed.id := signed], Done)
  }

  datatype MilestoneRequest = MilestoneRequest(id: string, title: string, amount: int64)

  /** handleCreateContract: PENDING milestones in the order requested. */
  function Requested(contractId: string, wanted: seq<MilestoneRequest>): seq<Milestone> {
    seq(|wanted|, i requires 0 <= i < |wanted| =>
      Milestone(wanted[i].id, contractId, wanted[i].title, wanted[i].amount, MilestonePending, 0, 0))
  }

  /** handleConfirmFunded: the lock must exist with the contract's total; then two transitions in a row. */
  function ConfirmFunded(c: Contract, s: State, now: int): (Contract, Reply) {
    if c.id !in s.locked then (c, NoLockYet)
    else if s.locked[c.id].amount != c.totalAmount then (c, AmountMismatch)
    else
      var (funded, error) := Advance(c, StateFunded, now);
      if error.Some? then (c, UpdateFailed(error.value)) else
      var (started, error') := Advance(funded, StateInProgress, now);
      (started, Ended(error'))
  }

  /** handleReleaseMilestone: the transaction is submitted first, the milestone approved second. */
  function ReleaseHandler(a: Authority, c: Contract, s: State, pool: C.Mempool, id: string, nonce: int64, now: int): (Contract, C.Mempool, Reply) {
    var (pool', reply) := SignAndSubmit(a, s, pool, BuildMilestoneReleaseTx(a.k, c, id, a.address, nonce, now));
    if reply != Done then (c, pool', reply) else
    var (c', error) := ApproveMilestone(c, id, now);
    (c', pool', Ended(error))
  }

  function ArbitrateHandler(a: Authority, c: Contract, s: State, pool: C.Mempool, id: string, awardTo: string,
                            amount: int64, terminate: bool, nonce: int64, now: int): (Contract, C.Mempool, Reply)
  {
    var (pool', reply) := SignAndSubmit(a, s, pool, BuildArbitrationTx(a.k, c, id, a.address, awardTo, amount, nonce, now));
    if reply != Done then (c, pool', reply) else
    var (c', error) := ResolveArbitration(c, id, terminate, now);
    (c', pool', Ended(error))
  }

  /** handleRefund: nothing looks at the contract's state before the refund is on its way. */
  function RefundHandler(a: Authority, c: Contract, s: State, pool: C.Mempool, nonce: int64, now: int): (Contract, C.Mempool, Reply) {
    var (pool', reply) := SignAndSubmit(a, s, pool, BuildRefundTx(a.k, c, a.address, nonce, now));
    if reply != Done then (c, pool', reply) else
    var (c', error) := Advance(c, StateTerminated, now);
    (c', pool', Ended(error))
  }

  /** A key pair that owns the authority's address: its signatures verify. */
  ghost predicate Trusted(a: Authority) {
    KeyPair(a.k, a.privateKey, a.publicKey) && a.publicKey != "" && a.k.Address(a.publicKey) == a.address
  }

  /** With good keys a submitted transaction is refused only by the ledger's rules. */
  lemma SubmitsIff(a: Authority, s: State, pool: C.Mempool, t: Tx)
    requires Trusted(a) && t.from == a.address
    ensures SignAndSubmit(a, s, pool, Ok(t)).1 ==
            match CheckRules(t, s) case Pass => Done case Fail(e) => TxRejected(e)
  {
    SignedIsValid(a.k, t, a.privateKey, a.publicKey);
    var signed := SignTx(a.k, t, a.privateKey, a.publicKey).value;
    SameRules(t, signed, s);
  }

  // ----- One contract and the ledger, as a state machine -----

  /**
   * `pool`: releases, awards and refunds that a handler has submitted and no block has committed yet. For the record,
   * `awarded` is what awards that ended the contract were for, and `lost` what releases and awards were for that the
   * mempool lost before any block held them.
   */
  datatype World = World(contract: Contract, ledger: State, pool: seq<Tx>, awarded: int, lost: int)

  datatype Event =
    | Advanced(to: ContractState)
    | FundingCommitted(nonce: int64)
    | FundingConfirmed
    | WorkSubmitted(id: string)
    | WorkDisputed(id: string)
    | ReleaseIssued(id: string, nonce: int64)
    | ArbitrationIssued(id: string, awardTo: string, amount: int64, terminate: bool, nonce: int64)
    | RefundIssued(nonce: int64)
    | Committed(i: nat)
    | Dropped(i: nat)
    | PoolLost
    | Foreign(tx: Tx)

  /** A transaction that reads or writes the lock of contract `cid`. */
  predicate TouchesLock(t: Tx, cid: string) {
    t.contractId == cid && t.kind in {Lock, ReleaseMilestone, Refund, FreezeDispute, Arbitrate}
  }

  /** A handler's submission: into the pool if the ledger would accept it now, and the contract moves at once. */
  function Issued(w: World, built: Result<Tx, EscrowError>, moved: Contract): Option<World> {
    match built
    case Err(_) => None
    case Ok(t) =>
      if CheckRules(t, w.ledger).Pass? then Some(w.(contract := moved, pool := w.pool + [t])) else None
  }

  /** A block commits a transaction if the ledger accepts it. */
  function Commit(s: State, t: Tx): Option<State> {
    if CheckRules(t, s).Pass? then Some(Effect(t, s)) else None
  }

  /** What a transaction in flight will take out of the lock by its own amount; a refund takes what is left. */
  function Claim(): Tx -> int {
    (t: Tx) => if t.kind.Refund? then 0 else t.amount
  }

  /**
   * The next world, or None when the event cannot happen. `Dropped`: a transaction leaves the mempool uncommitted, as when
   * a block holds another one under its ID. `PoolLost`: the node restarts, with an empty mempool. `Foreign`: a block
   * commits a transaction that no handler of this contract made.
   */
  function Next(a: Authority, w: World, e: Event, now: int): Option<World> {
    var c := w.contract;
    match e
    case Advanced(to) =>
      Some(w.(contract := Advance(c, to, now).0))
    case FundingCommitted(nonce) =>
      (match BuildFundingTx(a.k, c, nonce, now)
       case Err(_) => None
       case Ok(t) => if Commit(w.ledger, t).Some? then Some(w.(ledger := Effect(t, w.ledger))) else None)
    case FundingConfirmed =>
      Some(w.(contract := ConfirmFunded(c, w.ledger, now).0))
    case WorkSubmitted(id) =>
      Some(w.(contract := SubmitMilestone(c, id, now).0))
    case WorkDisputed(id) =>
      Some(w.(contract := DisputeMilestone(c, id, now).0))
    case ReleaseIssued(id, nonce) =>
      Issued(w, BuildMilestoneReleaseTx(a.k, c, id, a.address, nonce, now), ApproveMilestone(c, id, now).0)
    case ArbitrationIssued(id, awardTo, amount, terminate, nonce) =>
      Issued(if terminate then w.(awarded := w.awarded + amount) else w,
             BuildArbitrationTx(a.k, c, id, a.address, awardTo, amount, nonce, now),
             ResolveArbitration(c, id, terminate, now).0)
    case RefundIssued(nonce) =>
      Issued(w, BuildRefundTx(a.k, c, a.address, nonce, now), Advance(c, StateTerminated, now).0)
    case Committed(i) =>
      if i < |w.pool| && Commit(w.ledger, w.pool[i]).Some?
      then Some(w.(ledger := Effect(w.pool[i], w.ledger), pool := Without(w.pool, i))) else None
    case Dropped(i) =>
      if i < |w.pool| then Some(w.(pool := Without(w.pool, i), lost := w.lost + Claim()(w.pool[i]))) else None
    case PoolLost =>
      Some(w.(pool := [], lost := w.lost + SumBy(Claim(), w.pool)))
    case Foreign(t) =>
      if Commit(w.ledger, t).Some? then Some(w.(ledger := Effect(t, w.ledger))) else None
  }

  // ----- The handlers take the machine's steps -----

  /** The reply of a handler whose transaction was built and accepted. */
  predicate Submitted(reply: Reply) {
    reply.Done? || reply.UpdateFailed?
  }

  /** The mempool holds this transaction, signed or not, under its ID. */
  predicate Carries(pool: C.Mempool, t: Tx) {
    t.id in pool && Canon(pool[t.id]) == Canon(t)
  }

  /**
   * A request moves the contract exactly when the machine has a next world, and then as the machine says, with the
   * ledger untouched and the transaction in flight. It is in the mempool, signed and valid, unless its ID was taken by
   * another one: nobody looks at what Add returns. `error` is what the contract's own step reports.
   */
  ghost predicate Follows(a: Authority, w: World, pool: C.Mempool, built: Result<Tx, EscrowError>, error: Option<EscrowError>,
                          out: (Contract, C.Mempool, Reply), next: Option<World>)
  {
    match next
    case None =>
      && !Submitted(out.2) && out.0 == w.contract && out.1 == pool
      && (built.Err? ==> out.2 == BuildFailed(built.error))
      && (built.Ok? ==> CheckRules(built.value, w.ledger).Fail? && out.2 == TxRejected(CheckRules(built.value, w.ledger).error))
    case Some(w') =>
      && Submitted(out.2) && (out.2.Done? <==> error.None?) && (out.2.UpdateFailed? ==> error == Some(out.2.escrow))
      && built.Ok?
      && w'.contract == out.0 && w'.ledger == w.ledger && w'.pool == w.pool + [built.value]
      && (Carries(out.1, built.value) <==> built.value.id !in pool || Carries(pool, built.value))
      && (built.value.id !in pool ==> ValidateTransaction(a.k, out.1[built.value.id], w.ledger).Pass?)
      && (forall id :: id in pool ==> id in out.1 && out.1[id] == pool[id])
      && (forall id :: id in out.1 ==> id in pool || id == built.value.id)
  }

  lemma ReleaseFollowsNext(a: Authority, w: World, pool: C.Mempool, id: string, nonce: int64, now: int)
    requires Trusted(a)
    ensures Follows(a, w, pool, BuildMilestoneReleaseTx(a.k, w.contract, id, a.address, nonce, now),
                    ApproveMilestone(w.contract, id, now).1,
                    ReleaseHandler(a, w.contract, w.ledger, pool, id, nonce, now), Next(a, w, ReleaseIssued(id, nonce), now))
  {
    hide CheckRules, SignAndSubmit, ApproveMilestone;
    SubmissionEnds(a, w.ledger, pool, BuildMilestoneReleaseTx(a.k, w.contract, id, a.address, nonce, now));
  }

  lemma ArbitrationFollowsNext(a: Authority, w: World, pool: C.Mempool, id: string, awardTo: string, amount: int64,
                               terminate: bool, nonce: int64, now: int)
    requires Trusted(a)
    ensures Follows(a, w, pool, BuildArbitrationTx(a.k, w.contract, id, a.address, awardTo, amount, nonce, now),
                    ResolveArbitration(w.contract, id, terminate, now).1,
                    ArbitrateHandler(a, w.contract, w.ledger, pool, id, awardTo, amount, terminate, nonce, now),
                    Next(a, w, ArbitrationIssued(id, awardTo, amount, terminate, nonce), now))
  {
    hide CheckRules, SignAndSubmit, ResolveArbitration;
    SubmissionEnds(a, w.ledger, pool, BuildArbitrationTx(a.k, w.contract, id, a.address, awardTo, amount, nonce, now));
  }

  lemma RefundFollowsNext(a: Authority, w: World, pool: C.Mempool, nonce: int64, now: int)
    requires Trusted(a)
    ensures Follows(a, w, pool, BuildRefundTx(a.k, w.contract, a.address, nonce, now),
                    Advance(w.contract, StateTerminated, now).1,
                    RefundHandler(a, w.contract, w.ledger, pool, nonce, now), Next(a, w, RefundIssued(nonce), now))
  {
    hide CheckRules, SignAndSubmit;
    SubmissionEnds(a, w.ledger, pool, BuildRefundTx(a.k, w.contract, a.address, nonce, now));
  }

  lemma SubmissionEnds(a: Authority, s: State, pool: C.Mempool, built: Result<Tx, EscrowError>)
    requires Trusted(a) && (built.Ok? ==> built.value.from == a.address)
    ensures var (pool', reply) := SignAndSubmit(a, s, pool, built);
            if built.Ok? && CheckRules(built.value, s).Pass? then
              && reply == Done
              && (Carries(pool', built.value) <==> built.value.id !in pool || Carries(pool, built.value))
              && (built.value.id !in pool ==> ValidateTransaction(a.k, pool'[built.value.id], s).Pass?)
              && (forall id :: id in pool ==> id in pool' && pool'[id] == pool[id])
              && (forall id :: id in pool' ==> id in pool || id == built.value.id)
            else
              && !Submitted(reply) && pool' == pool
              && reply == match built case Err(e) => BuildFailed(e) case Ok(t) => TxRejected(CheckRules(t, s).error)
  {
    if built.Ok? {
      SubmitsIff(a, s, pool, built.value);
      SignedIsValid(a.k, built.value, a.privateKey, a.publicKey);
    }
  }

  /** What is committed in the end is the signed transaction; it does what the unsigned one would. */
  lemma SignedCommitsAlike(a: Authority, s: State, t: Tx)
    requires Trusted(a) && t.from == a.address
    ensures var signed := SignTx(a.k, t, a.privateKey, a.publicKey);
            signed.Some? && ValidateTransaction(a.k, signed.value, s) == CheckRules(t, s) && Commit(s, signed.value) == Commit(s, t)
  {
    SignedIsValid(a.k, t, a.privateKey, a.publicKey);
    var signed := SignTx(a.k, t, a.privateKey, a.publicKey).value;
    SameRules(t, signed, s);
  }
}
