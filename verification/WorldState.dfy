/** The world state as the node keeps it: maps updated in place and lock objects shared by reference. */
module WorldState {
  import opened Wrappers
  import opened Integers
  import opened Transactions
  import L = Ledger

  class EscrowLock {
    var contractId: string
    var investor: string
    var founder: string
    var amount: int64
    var status: L.LockStatus

    constructor (contractId: string, investor: string, founder: string, amount: int64, status: L.LockStatus)
      ensures Value() == L.EscrowLock(contractId, investor, founder, amount, status)
    {
      this.contractId := contractId;
      this.investor := investor;
      this.founder := founder;
      this.amount := amount;
      this.status := status;
    }

    function Value(): L.EscrowLock
      reads this
    {
      L.EscrowLock(contractId, investor, founder, amount, status)
    }
  }

  /** Copies a map key by key, in any order. */
  method CopyMap(m: map<string, int64>) returns (copy: map<string, int64>)
    ensures copy == m
  {
    copy := map[];
    var keys := m.Keys;
    while keys != {}
      invariant keys <= m.Keys && copy.Keys == m.Keys - keys
      invariant forall k :: k in copy ==> copy[k] == m[k]
      decreases |keys|
    {
      var k :| k in keys;
      copy := copy[k := m[k]];
      keys := keys - {k};
    }
  }

  class State {
    var balances: map<string, int64>
    var locked: map<string, EscrowLock>
    var nonces: map<string, int64>

    /** No two contracts share a lock object. */
    ghost predicate Valid()
      reads this
    {
      forall k1, k2 :: k1 in locked && k2 in locked && k1 != k2 ==> locked[k1] != locked[k2]
    }

    ghost function Footprint(): set<object>
      reads this
    {
      {this} + locked.Values
    }

    /** The abstract state. */
    function Value(): L.State
      reads this, locked.Values
    {
      L.State(balances, map k | k in locked :: locked[k].Value(), nonces)
    }

    /** NewState: an empty state. */
    constructor ()
      ensures Valid() && fresh(Footprint())
      ensures Value() == L.Initial(map[])
    {
      balances, locked, nonces := map[], map[], map[];
    }

    /** Fills `locked` with fresh copies of another state's lock objects, one key at a time. */
    method CopyLocks(source: State)
      requires source.Valid() && locked == map[] && this != source
      modifies this`locked
      ensures Valid() && fresh(locked.Values)
      ensures locked.Keys == source.locked.Keys
      ensures forall k :: k in locked ==> locked[k].Value() == source.locked[k].Value()
    {
      var keys := source.locked.Keys;
      while keys != {}
        invariant keys <= source.locked.Keys
        invariant locked.Keys == source.locked.Keys - keys
        invariant Valid()
        invariant forall k :: k in locked ==> fresh(locked[k])
        invariant forall k :: k in locked ==> locked[k].Value() == source.locked[k].Value()
        decreases |keys|
      {
        var k :| k in keys;
        var l := source.locked[k];
        var lockCopy := new EscrowLock(l.contractId, l.investor, l.founder, l.amount, l.status);
        locked := locked[k := lockCopy];
        keys := keys - {k};
      }
    }

    /** A copy whose lock objects are all new, so that nothing done to this state shows in it. */
    method Clone() returns (copy: State)
      requires Valid()
      ensures copy.Valid() && fresh(copy.Footprint())
      ensures copy.Value() == Value()
    {
      copy := new State();
      copy.balances := CopyMap(balances);
      copy.nonces := CopyMap(nonces);
      copy.CopyLocks(this);
      assert copy.Value().locked == Value().locked;
    }

    /** After one lock object has changed, the abstract state differs at that contract only. */
    twostate lemma OneLockChanged(cid: string)
      requires old(Valid()) && cid in old(locked) && locked == old(locked)
      requires forall k :: k in locked && k != cid ==> unchanged(locked[k])
      ensures Value().locked == old(Value()).locked[cid := locked[cid].Value()]
    {
    }

    twostate lemma NoLockChanged()
      requires locked == old(locked) && forall k :: k in locked ==> unchanged(locked[k])
      ensures Value().locked == old(Value()).locked
    {
    }

    /** LOCK creates a new lock object for its contract. */
    method AddLock(t: Tx)
      requires Valid() && t.kind.Lock?
      modifies this
      ensures Valid() && fresh(Footprint() - old(Footprint()))
      ensures Value() == L.Effect(t, old(Value()))
    {
      ghost var before := Value();
      balances := L.Debit(balances, t.from, t.amount);
      var lock := new EscrowLock(t.contractId, t.from, t.to, t.amount, L.LOCKED);
      locked := locked[t.contractId := lock];
      nonces := L.Credit(nonces, t.from, 1);
      assert Value().locked == before.locked[t.contractId := lock.Value()];
    }

    /** The four types that change a lock object in place. */
    method ApplyToLock(t: Tx)
      requires Valid() && L.LockPresent(t, Value())
      requires t.kind in {ReleaseMilestone, Refund, FreezeDispute, Arbitrate}
      modifies this`balances, locked[t.contractId]
      ensures Value() == L.Effect(t, old(Value()))
    {
      var lock := locked[t.contractId];
      match t.kind {
        case ReleaseMilestone =>
          lock.amount := Sub(lock.amount, t.amount);
          balances := L.Credit(balances, t.to, t.amount);
          if lock.amount == 0 {
            lock.status := L.RELEASED;
          }
        case Refund =>
          var refundAmount := lock.amount;
          balances := L.Credit(balances, t.to, refundAmount);
          lock.amount := 0;
          lock.status := L.REFUNDED;
        case FreezeDispute =>
          lock.status := L.FROZEN;
        case Arbitrate =>
          lock.amount := Sub(lock.amount, t.amount);
          balances := L.Credit(balances, t.to, t.amount);
          if lock.amount == 0 {
            lock.status := L.RELEASED;
          } else {
            lock.status := L.LOCKED;
          }
      }
      OneLockChanged(t.contractId);
    }

    /**
     * Mutates the state by one validated transaction. The result is false only for an unknown type, which
     * validation never lets through.
     */
    method ApplyTransaction(t: Tx) returns (known: bool)
      requires Valid() && L.LockPresent(t, Value())
      modifies Footprint()
      ensures Valid() && fresh(Footprint() - old(Footprint()))
      ensures known == !t.kind.Unknown?
      ensures Value() == L.Effect(t, old(Value()))
    {
      known := !t.kind.Unknown?;
      if t.kind.Mint? {
        balances := L.Credit(balances, t.to, t.amount);
        NoLockChanged();
      } else if t.kind.Transfer? {
        balances := L.Debit(balances, t.from, t.amount);
        balances := L.Credit(balances, t.to, t.amount);
        nonces := L.Credit(nonces, t.from, 1);
        NoLockChanged();
      } else if t.kind.Lock? {
        AddLock(t);
      } else if !t.kind.Unknown? {
        ApplyToLock(t);
      }
    }
  }
}
