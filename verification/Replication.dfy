/** N validator nodes over an unreliable network, as atomic steps; and the agreement of their chains. */
module Replication {
  import opened Wrappers
  import opened Integers
  import opened Transactions
  import opened Ledger
  import opened LedgerLaws
  import opened Blocks
  import opened History
  import opened Consensus
  import opened EmptyAddress

  // ----- One node -----

  datatype BlockReply = Ignored | OutOfOrder | Refused(error: AcceptError) | Accepted

  /** handleReceiveBlock: old blocks are ignored, gaps refused, the next block goes to the engine. */
  function ReceiveBlock(c: Crypto, vs: ValidatorSet, e: EngineState, b: Block): (EngineState, BlockReply)
    requires |e.chain.blocks| > 0
  {
    var latest := Tip(e.chain);
    if b.index <= latest.index then (e, Ignored)
    else if b.index != latest.index + 1 then (e, OutOfOrder)
    else match AcceptBlock(c, vs, e, b)
         case Err(error) => (e, Refused(error))
         case Ok(e') => (e', Accepted)
  }

  datatype TxReply = AlreadyPending | TxRefused(error: TxError) | Admitted

  /** handleReceiveTx: a new transaction that is valid now enters the mempool. */
  function ReceiveTx(c: Crypto, e: EngineState, t: Tx): (EngineState, TxReply) {
    if t.id in e.mempool then (e, AlreadyPending) else
    match ValidateTransaction(c, t, e.chain.state)
    case Fail(error) => (e, TxRefused(error))
    case Pass => (e.(mempool := e.mempool[t.id := t]), Admitted)
  }

  /** A TRANSFER or LOCK that the chain holds never enters the mempool again, under any ID, key or signature. */
  lemma CommittedIsNotReadmitted(c: Crypto, allocations: map<string, int64>, e: EngineState, full: State, i: nat, again: Tx)
    requires Derived(c, allocations, Chain(e.chain.blocks, full)) && SameBut(full, e.chain.state)
    requires i < |AllTxs(e.chain.blocks)| <= MAX
    requires Canon(again) == Canon(AllTxs(e.chain.blocks)[i]) && (again.kind.Transfer? || again.kind.Lock?)
    ensures ReceiveTx(c, e, again).0 == e && !ReceiveTx(c, e, again).1.Admitted?
  {
    assert again.kind == Canon(again).kind;
    CommittedIsNeverValidAgain(c, Initial(allocations), AllTxs(e.chain.blocks), i, again);
    RulesAreBlind(again, full, e.chain.state);
  }

  /** A proposal leaves the node only once its own chain has accepted it. */
  function SelfAccept(c: Crypto, vs: ValidatorSet, e: EngineState, proposal: Result<Block, ProposeError>): (EngineState, Option<Block>)
    requires |e.chain.blocks| > 0
  {
    match proposal
    case Err(_) => (e, None)
    case Ok(b) =>
      match AcceptBlock(c, vs, e, b)
      case Err(_) => (e, None)
      case Ok(e') => (e', Some(b))
  }

  /** One production tick: propose in turn, self-accept, and only then hand the block out. */
  function Produce(c: Crypto, vs: ValidatorSet, localId: string, privateKey: string,
                   e: EngineState, pending: seq<Tx>, timestamp: int): (EngineState, Option<Block>)
    requires |e.chain.blocks| > 0
  {
    SelfAccept(c, vs, e, ProposeBlock(c, vs, localId, privateKey, e, pending, timestamp))
  }

  // ----- The network -----

  /**
   * What the nodes share. `open` says whether third parties may put blocks of their own on the wire; `hashed` is
   * the set of byte strings hashed in the run, on which the hash is assumed free of collisions.
   */
  datatype Params = Params(
    c: Crypto,
    vs: ValidatorSet,
    keys: seq<string>,
    allocations: map<string, int64>,
    genesisTime: int,
    open: bool,
    hashed: set<string>)

  /**
   * Blocks on the wire stay there: delivery in any order, twice, or never. `released` lists the signed hashes, `lossy`
   * the nodes that have restarted while they held a balance under the empty address, which the store does not give back.
   */
  datatype System = System(nodes: seq<EngineState>, wire: set<Block>, released: set<(string, string)>, lossy: set<nat>)

  /**
   * A tick, a delivery, a transaction from anyone, a restart from the store, or a block made by a third party. A restart
   * loses the mempool and a balance held under the empty address, and nothing else (Storage.RestartRoundTrip).
   */
  datatype Event =
    | Tick(node: nat, pending: seq<Tx>, timestamp: int)
    | Deliver(node: nat, block: Block)
    | Submit(node: nat, tx: Tx)
    | Restart(node: nat)
    | Inject(block: Block)

  ghost predicate Legal(p: Params) {
    && DistinctIds(p.vs)
    && |p.keys| == |p.vs|
    && (p.open ==> Ideal(p.c, p.hashed) && HashedIn(p.c, p.hashed, GenesisBlock(p.c, p.genesisTime)))
  }

  function Start(p: Params): System {
    System(seq(|p.vs|, _ => EngineState(NewChain(p.c, p.allocations, p.genesisTime), map[])), {}, {}, {})
  }

  /** A verifying signature on a hash exists only if its owner released it. */
  predicate Unforged(p: Params, s: System, b: Block) {
    forall i :: 0 <= i < |p.vs| && p.vs[i].id == b.validatorId && p.c.Verify(p.vs[i].publicKey, b.hash, b.signature) ==>
      (b.validatorId, b.hash) in s.released
  }

  ghost predicate Shape(p: Params, s: System) {
    |s.nodes| == |p.vs| && forall i :: 0 <= i < |s.nodes| ==> |s.nodes[i].chain.blocks| > 0
  }

  ghost predicate Enabled(p: Params, s: System, ev: Event) {
    match ev
    case Tick(i, pending, timestamp) =>
      && i < |s.nodes|
      && IsPending(s.nodes[i].mempool, MAX_TXS_PER_BLOCK, pending)
      && (p.open && Shape(p, s) && Legal(p) ==>
            var r := Produce(p.c, p.vs, p.vs[i].id, p.keys[i], s.nodes[i], pending, timestamp);
            r.1.Some? ==> HashedIn(p.c, p.hashed, r.1.value))
    case Deliver(i, b) => i < |s.nodes| && b in s.wire
    case Submit(i, _) => i < |s.nodes|
    case Restart(i) => i < |s.nodes|
    case Inject(b) => p.open && HashedIn(p.c, p.hashed, b) && Unforged(p, s, b)
  }

  function Restarted(e: EngineState): EngineState {
    EngineState(Chain(e.chain.blocks, Reloaded(e.chain.state)), map[])
  }

  /** The restart of a node costs it a balance exactly when it holds one under the empty address. */
  function Losing(s: System, i: nat): set<nat>
    requires i < |s.nodes|
  {
    if "" in s.nodes[i].chain.state.balances then {i} else {}
  }

  /** One atomic step. A re-broadcast after an accepted delivery is already on the wire. */
  ghost function Act(p: Params, s: System, ev: Event): System
    requires Legal(p) && Shape(p, s) && Enabled(p, s, ev)
  {
    match ev
    case Tick(i, pending, timestamp) =>
      var (e, out) := Produce(p.c, p.vs, p.vs[i].id, p.keys[i], s.nodes[i], pending, timestamp);
      if out.None? then s
      else System(s.nodes[i := e], s.wire + {out.value}, s.released + {(p.vs[i].id, out.value.hash)}, s.lossy)
    case Deliver(i, b) =>
      s.(nodes := s.nodes[i := ReceiveBlock(p.c, p.vs, s.nodes[i], b).0])
    case Submit(i, t) =>
      s.(nodes := s.nodes[i := ReceiveTx(p.c, s.nodes[i], t).0])
    case Restart(i) =>
      s.(nodes := s.nodes[i := Restarted(s.nodes[i])], lossy := s.lossy + Losing(s, i))
    case Inject(b) =>
      s.(wire := s.wire + {b})
  }

  // ----- The invariant -----

  /** Over a closed network two copies are the same block; over an open one they have the same hash. */
  predicate Match(p: Params, x: Block, y: Block) {
    if p.open then x.hash == y.hash else x == y
  }

  type Nodes = seq<EngineState>

  /** The chain of the validator whose turn height h is. */
  function OwnerBlocks(p: Params, ns: Nodes, h: nat): seq<Block>
    requires |ns| == |p.vs|
  {
    ns[h % |p.vs|].chain.blocks
  }

  /** The block is, at its height, in its proposer's own chain. */
  predicate Backed(p: Params, ns: Nodes, b: Block, h: nat)
    requires |ns| == |p.vs|
  {
    h < |OwnerBlocks(p, ns, h)| && Match(p, b, OwnerBlocks(p, ns, h)[h])
  }

  /** The chain as it is without any restart: the blocks, and the fold of all their transactions. */
  function Unbroken(p: Params, blocks: seq<Block>): Option<Chain> {
    match Run(p.c, Initial(p.allocations), AllTxs(blocks))
    case None => None
    case Some(state) => Some(Chain(blocks, state))
  }

  /** The node's blocks are sound; its state is their fold, the balance of the empty address aside unless `exact`. */
  ghost predicate NodeOk(p: Params, e: EngineState, exact: bool) {
    && Unbroken(p, e.chain.blocks).Some?
    && Sound(p.c, p.vs, p.allocations, Unbroken(p, e.chain.blocks).value)
    && SameBut(Unbroken(p, e.chain.blocks).value.state, e.chain.state)
    && (exact ==> Unbroken(p, e.chain.blocks).value.state == e.chain.state)
    && e.chain.blocks[0] == GenesisBlock(p.c, p.genesisTime)
    && (p.open ==> forall h :: 0 <= h < |e.chain.blocks| ==> HashedIn(p.c, p.hashed, e.chain.blocks[h]))
  }

  ghost predicate WireOk(p: Params, ns: Nodes, b: Block)
    requires |ns| == |p.vs|
  {
    && (SignedInTurn(p.c, p.vs, b) ==> Backed(p, ns, b, b.index))
    && (p.open ==> HashedIn(p.c, p.hashed, b))
  }

  /** Validator `id` has a block with this hash in its own chain, in its own slot h. */
  predicate ReleasedAt(p: Params, ns: Nodes, id: string, hash: string, h: nat)
    requires |ns| == |p.vs|
  {
    && 1 <= h < |OwnerBlocks(p, ns, h)|
    && OwnerBlocks(p, ns, h)[h].hash == hash
    && OwnerBlocks(p, ns, h)[h].validatorId == id
  }

  ghost predicate ReleasedOk(p: Params, ns: Nodes, id: string, hash: string)
    requires |ns| == |p.vs|
  {
    exists h: nat :: ReleasedAt(p, ns, id, hash, h)
  }

  ghost predicate ChainsOk(p: Params, ns: Nodes, lossy: set<nat>) {
    && |ns| == |p.vs|
    && (forall i :: 0 <= i < |ns| ==> NodeOk(p, ns[i], i !in lossy))
    && (forall i, h :: 0 <= i < |ns| && 1 <= h < |ns[i].chain.blocks| ==> Backed(p, ns, ns[i].chain.blocks[h], h))
  }

  ghost predicate Inv(p: Params, s: System) {
    && Shape(p, s)
    && ChainsOk(p, s.nodes, s.lossy)
    && (forall b :: b in s.wire ==> WireOk(p, s.nodes, b))
    && (forall r :: r in s.released ==> ReleasedOk(p, s.nodes, r.0, r.1))
  }

  /** Growing one chain leaves everything that was backed backed. */
  predicate Extends(ns: Nodes, ns': Nodes) {
    && |ns'| == |ns|
    && forall i :: 0 <= i < |ns| ==> ns[i].chain.blocks <= ns'[i].chain.blocks
  }

  lemma BackedStays(p: Params, ns: Nodes, ns': Nodes, b: Block, h: nat)
    requires |ns| == |p.vs| && Extends(ns, ns') && Backed(p, ns, b, h)
    ensures Backed(p, ns', b, h)
  {
    assert OwnerBlocks(p, ns, h) <= OwnerBlocks(p, ns', h);
  }

  lemma ReleasedStays(p: Params, ns: Nodes, ns': Nodes, id: string, hash: string)
    requires |ns| == |p.vs| && Extends(ns, ns') && ReleasedOk(p, ns, id, hash)
    ensures ReleasedOk(p, ns', id, hash)
  {
    var h: nat :| ReleasedAt(p, ns, id, hash, h);
    assert OwnerBlocks(p, ns, h) <= OwnerBlocks(p, ns', h);
    assert ReleasedAt(p, ns', id, hash, h);
  }

  /** Node i keeps its chain, or appends one block: its own, or one that its owner backs. */
  predicate Moves(p: Params, ns: Nodes, i: nat, e: EngineState)
    requires |ns| == |p.vs| && i < |ns|
  {
    var n := |ns[i].chain.blocks|;
    || e.chain.blocks == ns[i].chain.blocks
    || (&& |e.chain.blocks| == n + 1 && e.chain.blocks[..n] == ns[i].chain.blocks
        && (n % |p.vs| == i || Backed(p, ns, e.chain.blocks[n], n)))
  }

  lemma MovesExtends(p: Params, ns: Nodes, i: nat, e: EngineState)
    requires |ns| == |p.vs| && i < |ns| && Moves(p, ns, i, e)
    ensures Extends(ns, ns[i := e])
  {
    assert ns[i].chain.blocks <= e.chain.blocks;
  }

  lemma MovesBacked(p: Params, ns: Nodes, i: nat, e: EngineState, j: nat, h: nat)
    requires |ns| == |p.vs| && i < |ns| && Moves(p, ns, i, e)
    requires j < |ns| && h < |ns[i := e][j].chain.blocks|
    requires h < |ns[j].chain.blocks| ==> Backed(p, ns, ns[j].chain.blocks[h], h)
    ensures Backed(p, ns[i := e], ns[i := e][j].chain.blocks[h], h)
  {
    var ns' := ns[i := e];
    MovesExtends(p, ns, i, e);
    if h < |ns[j].chain.blocks| {
      assert ns[j].chain.blocks <= ns'[j].chain.blocks;
      BackedStays(p, ns, ns', ns[j].chain.blocks[h], h);
    } else if h % |p.vs| == i {
      assert OwnerBlocks(p, ns', h) == e.chain.blocks;
    } else {
      BackedStays(p, ns, ns', e.chain.blocks[h], h);
    }
  }

  /** Messages and releases stay accounted for when chains only grow. */
  lemma MessagesStay(p: Params, s: System, ns': Nodes)
    requires Inv(p, s) && Extends(s.nodes, ns')
    ensures forall w :: w in s.wire ==> WireOk(p, ns', w)
    ensures forall r :: r in s.released ==> ReleasedOk(p, ns', r.0, r.1)
  {
    forall w | w in s.wire
      ensures WireOk(p, ns', w)
    {
      assert WireOk(p, s.nodes, w);
      if SignedInTurn(p.c, p.vs, w) {
        BackedStays(p, s.nodes, ns', w, w.index);
      }
    }
    forall r | r in s.released
      ensures ReleasedOk(p, ns', r.0, r.1)
    {
      ReleasedStays(p, s.nodes, ns', r.0, r.1);
    }
  }

  lemma OneNodeMoves(p: Params, s: System, i: nat, e: EngineState, lossy: set<nat>)
    requires Inv(p, s) && i < |s.nodes| && NodeOk(p, e, i !in lossy) && Moves(p, s.nodes, i, e)
    requires lossy == s.lossy || lossy == s.lossy + {i}
    ensures Inv(p, s.(nodes := s.nodes[i := e], lossy := lossy))
  {
    hide NodeOk, Backed, WireOk, ReleasedOk, Moves;
    var ns' := s.nodes[i := e];
    MovesExtends(p, s.nodes, i, e);
    MessagesStay(p, s, ns');
    forall j, h | 0 <= j < |ns'| && 1 <= h < |ns'[j].chain.blocks|
      ensures Backed(p, ns', ns'[j].chain.blocks[h], h)
    {
      MovesBacked(p, s.nodes, i, e, j, h);
    }
  }

  /** A proposer's own block goes on the wire, and its signature with it. */
  lemma ReleaseKeeps(p: Params, s: System, b: Block)
    requires Inv(p, s) && WireOk(p, s.nodes, b) && ReleasedOk(p, s.nodes, b.validatorId, b.hash)
    ensures Inv(p, System(s.nodes, s.wire + {b}, s.released + {(b.validatorId, b.hash)}, s.lossy))
  {
    hide ChainsOk, WireOk, ReleasedOk;
    var r0 := (b.validatorId, b.hash);
    assert ReleasedOk(p, s.nodes, r0.0, r0.1);
    forall r | r in s.released + {r0}
      ensures ReleasedOk(p, s.nodes, r.0, r.1)
    {
      if r != r0 {
        assert r in s.released;
      }
    }
  }

  lemma AcceptedNodeOk(p: Params, e: EngineState, exact: bool, b: Block, e': EngineState)
    requires NodeOk(p, e, exact) && AcceptBlock(p.c, p.vs, e, b) == Ok(e')
    requires p.open ==> HashedIn(p.c, p.hashed, b)
    ensures NodeOk(p, e', exact)
    ensures e'.chain.blocks == e.chain.blocks + [b] && b.index == |e.chain.blocks|
    ensures SignedInTurn(p.c, p.vs, b)
  {
    hide AcceptBlock, HashedIn, SignedInTurn, Authored;
    var full := Unbroken(p, e.chain.blocks).value;
    AcceptsAlike(p.c, p.vs, e, full.state, b);
    AcceptKeepsSound(p.c, p.vs, p.allocations, EngineState(full, e.mempool), b);
    assert e'.chain.blocks[0] == e.chain.blocks[0];
  }

  /** A validator's turn is its own: distinct IDs make the proposer's ID its position. */
  lemma TurnIsPosition(p: Params, i: nat, h: nat)
    requires DistinctIds(p.vs) && i < |p.vs| && IsMyTurn(p.vs, p.vs[i].id, h)
    ensures h % |p.vs| == i
  {
    var q := h % |p.vs|;
    assert p.vs[q].id == p.vs[i].id;
  }

  /** What a tick hands out is the block it has just appended, in the node's own slot. */
  lemma ProducedBlock(p: Params, e: EngineState, exact: bool, i: nat, pending: seq<Tx>, timestamp: int)
    requires Legal(p) && i < |p.vs| && NodeOk(p, e, exact)
    ensures var (e', out) := Produce(p.c, p.vs, p.vs[i].id, p.keys[i], e, pending, timestamp);
            if out.None? then e' == e else
              && AcceptBlock(p.c, p.vs, e, out.value) == Ok(e')
              && out.value.validatorId == p.vs[i].id
              && |e.chain.blocks| % |p.vs| == i
  {
    var (e', out) := Produce(p.c, p.vs, p.vs[i].id, p.keys[i], e, pending, timestamp);
    DerivedWellFormed(p.c, p.allocations, Unbroken(p, e.chain.blocks).value);
    if out.Some? {
      TurnIsPosition(p, i, Tip(e.chain).index + 1);
    }
  }

  lemma TickKeeps(p: Params, s: System, i: nat, pending: seq<Tx>, timestamp: int)
    requires Legal(p) && Inv(p, s) && Enabled(p, s, Tick(i, pending, timestamp))
    ensures Inv(p, Act(p, s, Tick(i, pending, timestamp)))
  {
    var before := s.nodes[i];
    var (e, out) := Produce(p.c, p.vs, p.vs[i].id, p.keys[i], before, pending, timestamp);
    assert NodeOk(p, before, i !in s.lossy);
    ProducedBlock(p, before, i !in s.lossy, i, pending, timestamp);
    if out.Some? {
      var b := out.value;
      AcceptedNodeOk(p, before, i !in s.lossy, b, e);
      OneNodeMoves(p, s, i, e, s.lossy);
      var ns := s.nodes[i := e];
      assert OwnerBlocks(p, ns, b.index) == e.chain.blocks;
      assert ReleasedAt(p, ns, b.validatorId, b.hash, b.index);
      ReleaseKeeps(p, s.(nodes := ns), b);
    }
  }

  lemma DeliverKeeps(p: Params, s: System, i: nat, b: Block)
    requires Legal(p) && Inv(p, s) && Enabled(p, s, Deliver(i, b))
    ensures Inv(p, Act(p, s, Deliver(i, b)))
  {
    hide ChainsOk, WireOk, ReleasedOk, AcceptBlock;
    var (e, reply) := ReceiveBlock(p.c, p.vs, s.nodes[i], b);
    if reply.Accepted? {
      AcceptedKeeps(p, s, i, b, e);
    } else {
      assert s.nodes[i := e] == s.nodes;
    }
  }

  lemma AcceptedKeeps(p: Params, s: System, i: nat, b: Block, e: EngineState)
    requires Inv(p, s) && i < |s.nodes| && b in s.wire
    requires AcceptBlock(p.c, p.vs, s.nodes[i], b) == Ok(e)
    ensures Inv(p, s.(nodes := s.nodes[i := e]))
  {
    hide NodeOk, AcceptBlock, SignedInTurn, ReleasedOk, Backed, HashedIn;
    assert WireOk(p, s.nodes, b) && NodeOk(p, s.nodes[i], i !in s.lossy);
    AcceptedNodeOk(p, s.nodes[i], i !in s.lossy, b, e);
    assert Moves(p, s.nodes, i, e);
    OneNodeMoves(p, s, i, e, s.lossy);
  }

  lemma SubmitKeeps(p: Params, s: System, i: nat, t: Tx)
    requires Legal(p) && Inv(p, s) && Enabled(p, s, Submit(i, t))
    ensures Inv(p, Act(p, s, Submit(i, t)))
  {
    hide Inv, ValidateTransaction, Legal;
    SameChainKeeps(p, s, i, ReceiveTx(p.c, s.nodes[i], t).0.mempool);
  }

  /** What a node's mempool holds is of no account. */
  lemma SameChainKeeps(p: Params, s: System, i: nat, mempool: Mempool)
    requires Inv(p, s) && i < |s.nodes|
    ensures Inv(p, s.(nodes := s.nodes[i := s.nodes[i].(mempool := mempool)]))
  {
    var e := s.nodes[i].(mempool := mempool);
    assert NodeOk(p, e, i !in s.lossy) by {
      assert NodeOk(p, s.nodes[i], i !in s.lossy);
    }
    OneNodeMoves(p, s, i, e, s.lossy);
  }

  /** A restart loses a balance that no rule reads, so the node goes on accepting what it would have accepted. */
  lemma RestartKeeps(p: Params, s: System, i: nat)
    requires Legal(p) && Inv(p, s) && Enabled(p, s, Restart(i))
    ensures Inv(p, Act(p, s, Restart(i)))
  {
    hide NodeOk, Legal, WireOk, ReleasedOk, Backed;
    var lossy := s.lossy + Losing(s, i);
    assert NodeOk(p, s.nodes[i], i !in s.lossy);
    RestartedOk(p, s.nodes[i], i !in s.lossy);
    assert (i !in lossy) == (i !in s.lossy && "" !in s.nodes[i].chain.state.balances);
    OneNodeMoves(p, s, i, Restarted(s.nodes[i]), lossy);
  }

  lemma RestartedOk(p: Params, e: EngineState, exact: bool)
    requires NodeOk(p, e, exact)
    ensures NodeOk(p, Restarted(e), exact && "" !in e.chain.state.balances)
  {
    hide Sound, HashedIn;
    ReloadedIsSame(e.chain.state);
  }

  /** A third party's block that would be acceptable carries a released hash, hence a proposer's own content. */
  lemma InjectedIsBacked(p: Params, s: System, b: Block)
    requires Legal(p) && Inv(p, s) && Enabled(p, s, Inject(b)) && SignedInTurn(p.c, p.vs, b)
    ensures Backed(p, s.nodes, b, b.index)
  {
    hide ChainsOk, WireOk, HashedIn, Ideal;
    var r := (b.validatorId, b.hash);
    SignerIs(p.c, p.vs, b);
    assert r in s.released;
    assert ReleasedOk(p, s.nodes, r.0, r.1);
    var h: nat :| ReleasedAt(p, s.nodes, b.validatorId, b.hash, h);
    var own := OwnerBlocks(p, s.nodes, h)[h];
    OwnedBlock(p, s.nodes, s.lossy, h);
    EqualHashEqualContent(p.c, p.hashed, b, own);
    assert HeaderOf(b).index == HeaderOf(own).index;
  }

  lemma OwnedBlock(p: Params, ns: Nodes, lossy: set<nat>, h: nat)
    requires ChainsOk(p, ns, lossy) && 1 <= h < |OwnerBlocks(p, ns, h)|
    ensures var own := OwnerBlocks(p, ns, h)[h];
            own.index == h && SignedInTurn(p.c, p.vs, own) && (p.open ==> HashedIn(p.c, p.hashed, own))
  {
    var owner := ns[h % |p.vs|];
    assert NodeOk(p, owner, h % |p.vs| !in lossy);
    DerivedWellFormed(p.c, p.allocations, Unbroken(p, owner.chain.blocks).value);
  }

  lemma InjectKeeps(p: Params, s: System, b: Block)
    requires Legal(p) && Inv(p, s) && Enabled(p, s, Inject(b))
    ensures Inv(p, Act(p, s, Inject(b)))
  {
    assert WireOk(p, s.nodes, b) by {
      if SignedInTurn(p.c, p.vs, b) {
        InjectedIsBacked(p, s, b);
      }
    }
  }

  lemma StartOk(p: Params)
    requires Legal(p)
    ensures Inv(p, Start(p))
  {
    NewChainDerived(p.c, p.allocations, p.genesisTime);
    assert forall i :: 0 <= i < |p.vs| ==> NodeOk(p, Start(p).nodes[i], true);
  }

  lemma ActKeeps(p: Params, s: System, ev: Event)
    requires Legal(p) && Inv(p, s) && Enabled(p, s, ev)
    ensures Inv(p, Act(p, s, ev))
  {
    match ev
    case Tick(i, pending, timestamp) => TickKeeps(p, s, i, pending, timestamp);
    case Deliver(i, b) => DeliverKeeps(p, s, i, b);
    case Submit(i, t) => SubmitKeeps(p, s, i, t);
    case Restart(i) => RestartKeeps(p, s, i);
    case Inject(b) => InjectKeeps(p, s, b);
  }

  // ----- Runs and agreement -----

  /** `states` is a run: it starts at the start and each step is an enabled event. */
  ghost predicate IsRun(p: Params, states: seq<System>, events: seq<Event>)
    requires Legal(p)
  {
    && |states| == |events| + 1
    && states[0] == Start(p)
    && forall k :: 0 <= k < |events| ==>
         Shape(p, states[k]) && Enabled(p, states[k], events[k]) && states[k + 1] == Act(p, states[k], events[k])
  }

  lemma {:induction false} RunKeepsInv(p: Params, states: seq<System>, events: seq<Event>, k: nat)
    requires Legal(p) && IsRun(p, states, events) && k < |states|
    ensures Inv(p, states[k])
  {
    if k == 0 {
      StartOk(p);
    } else {
      RunKeepsInv(p, states, events, k - 1);
      ActKeeps(p, states[k - 1], events[k - 1]);
    }
  }

  lemma BlocksAgree(p: Params, s: System, i: nat, j: nat, h: nat)
    requires Legal(p) && Inv(p, s) && i < |s.nodes| && j < |s.nodes|
    requires h < |s.nodes[i].chain.blocks| && h < |s.nodes[j].chain.blocks|
    ensures Match(p, s.nodes[i].chain.blocks[h], s.nodes[j].chain.blocks[h])
    ensures SameContent(s.nodes[i].chain.blocks[h], s.nodes[j].chain.blocks[h])
  {
    var x, y := s.nodes[i].chain.blocks[h], s.nodes[j].chain.blocks[h];
    assert NodeOk(p, s.nodes[i], i !in s.lossy) && NodeOk(p, s.nodes[j], j !in s.lossy);
    if h > 0 {
      assert Backed(p, s.nodes, x, h) && Backed(p, s.nodes, y, h);
    }
    if p.open {
      LinkedHashes(p.c, s.nodes[i].chain.blocks, h);
      LinkedHashes(p.c, s.nodes[j].chain.blocks, h);
      EqualHashEqualContent(p.c, p.hashed, x, y);
    }
  }

  /** `exact`: neither node has restarted while it held a balance under the empty address. */
  ghost predicate Agree(p: Params, x: Chain, y: Chain, exact: bool) {
    && (forall h :: 0 <= h < |x.blocks| && h < |y.blocks| ==> SameContent(x.blocks[h], y.blocks[h]))
    && (!p.open ==> x.blocks <= y.blocks || y.blocks <= x.blocks)
    && (|x.blocks| == |y.blocks| ==> SameBut(x.state, y.state) && (exact ==> x.state == y.state))
  }

  lemma InvAgree(p: Params, s: System, i: nat, j: nat)
    requires Legal(p) && Inv(p, s) && i < |s.nodes| && j < |s.nodes|
    ensures Agree(p, s.nodes[i].chain, s.nodes[j].chain, i !in s.lossy && j !in s.lossy)
  {
    hide Backed, WireOk, ReleasedOk, SameContent;
    var x, y := s.nodes[i].chain, s.nodes[j].chain;
    forall h | 0 <= h < |x.blocks| && h < |y.blocks|
      ensures SameContent(x.blocks[h], y.blocks[h])
      ensures !p.open ==> x.blocks[h] == y.blocks[h]
    {
      BlocksAgree(p, s, i, j, h);
    }
    if |x.blocks| == |y.blocks| {
      assert NodeOk(p, s.nodes[i], i !in s.lossy) && NodeOk(p, s.nodes[j], j !in s.lossy);
      SameContentSameState(p.c, p.allocations, Unbroken(p, x.blocks).value, Unbroken(p, y.blocks).value);
    }
  }

  /**
   * Replica agreement. In every state of every run, two nodes' chains have the same content at every common height
   * (over a closed network, the very same blocks, so one chain is a prefix of the other), and nodes at equal height
   * hold equal state; a node that has restarted while it held a balance under the empty address, equal but for that one.
   */
  lemma ReplicasAgree(p: Params, states: seq<System>, events: seq<Event>, k: nat, i: nat, j: nat)
    requires Legal(p) && IsRun(p, states, events) && k < |states|
    requires i < |states[k].nodes| && j < |states[k].nodes|
    ensures Agree(p, states[k].nodes[i].chain, states[k].nodes[j].chain, i !in states[k].lossy && j !in states[k].lossy)
  {
    RunKeepsInv(p, states, events, k);
    InvAgree(p, states[k], i, j);
  }
}
