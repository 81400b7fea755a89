/** Which handlers can leave a contract changed in memory and unsaved: they save only if their every step went through. */
module ContractRecords {
  import opened Wrappers
  import opened Integers
  import opened Transactions
  import opened Ledger
  import opened Escrow
  import opened EscrowLaws
  import opened Workflow
  import opened Coupling
  import C = Consensus

  /** Confirmation saves or changes nothing. */
  lemma ConfirmationIsSaved(c: Contract, s: State, now: int)
    ensures var (c', reply) := ConfirmFunded(c, s, now); reply.Done? || c' == c
  {
  }

  /** So does a release of a consistent contract: what its builder lets through cannot fail later. */
  lemma ReleaseIsSaved(a: Authority, c: Contract, s: State, pool: C.Mempool, id: string, nonce: int64, now: int)
    requires Consistent(c)
    ensures var (c', _, reply) := ReleaseHandler(a, c, s, pool, id, nonce, now); reply.Done? || c' == c
  {
    hide Consistent, CheckRules;
    if BuildMilestoneReleaseTx(a.k, c, id, a.address, nonce, now).Ok? {
      ApproveKeeps(c, id, now);
    }
  }

  /** And a refund. */
  lemma RefundIsSaved(a: Authority, c: Contract, s: State, pool: C.Mempool, nonce: int64, now: int)
    ensures var (c', _, reply) := RefundHandler(a, c, s, pool, nonce, now); reply.Done? || c' == c
  {
  }

  /**
   * Arbitration is the exception: it changes the contract without saving it exactly when the award is on its way, the
   * contract is not to end, and the milestone it names is the last one left to approve, or bears an older stamp.
   */
  lemma ArbitrationIsUnsavedIff(a: Authority, c: Contract, s: State, pool: C.Mempool, id: string, awardTo: string,
                                amount: int64, terminate: bool, nonce: int64, now: int)
    requires Consistent(c)
    ensures var (c', _, reply) := ArbitrateHandler(a, c, s, pool, id, awardTo, amount, terminate, nonce, now);
            !reply.Done? && c' != c <==>
              && SignAndSubmit(a, s, pool, BuildArbitrationTx(a.k, c, id, a.address, awardTo, amount, nonce, now)).1.Done?
              && !terminate
              && Find(c.milestones, id).Some?
              && (forall j :: 0 <= j < |c.milestones| && c.milestones[j].status != MilestoneApproved ==> Find(c.milestones, id) == Some(j))
              && Stamped(c, Find(c.milestones, id).value, now) != c
  {
    hide Consistent, CheckRules, SignAndSubmit;
    var built := BuildArbitrationTx(a.k, c, id, a.address, awardTo, amount, nonce, now);
    SubmissionNeedsBuilt(a, s, pool, built);
    if built.Ok? && !terminate {
      assert c.state == StateDisputed;
      LastArbitrationIsStuck(c, id, now);
      Resolved(c, id, now);
    }
  }

  function Stamped(c: Contract, i: nat, now: int): Contract
    requires i < |c.milestones|
  {
    WithStatus(c, i, c.milestones[i].(status := MilestoneApproved, approvedAt := now))
  }

  lemma SubmissionNeedsBuilt(a: Authority, s: State, pool: C.Mempool, built: Result<Tx, EscrowError>)
    ensures SignAndSubmit(a, s, pool, built).1.Done? ==> built.Ok?
    ensures !SignAndSubmit(a, s, pool, built).1.UpdateFailed?
  {
  }

  lemma Resolved(c: Contract, id: string, now: int)
    ensures var (c', error) := ResolveArbitration(c, id, false, now);
            error.Some? ==> c' == if Find(c.milestones, id).Some? then Stamped(c, Find(c.milestones, id).value, now) else c
  {
  }

  /**
   * A node that then restarts from its store has the dispute back while the award is in flight, and contract and lock
   * apart. That holds of any award that is not to end the contract, if the approval is lost.
   */
  lemma UnsavedApprovalDecouples(a: Authority, w: World, id: string, awardTo: string, amount: int64, nonce: int64, now: int)
    requires Coupled(w) && Next(a, w, ArbitrationIssued(id, awardTo, amount, false, nonce), now).Some?
    ensures !Coupled(Next(a, w, ArbitrationIssued(id, awardTo, amount, false, nonce), now).value.(contract := w.contract))
  {
    var t := BuildArbitrationTx(a.k, w.contract, id, a.address, awardTo, amount, nonce, now).value;
    FlightSnoc(w.pool, t);
  }
}
