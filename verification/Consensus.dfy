/** Round-robin proof of authority: proposer selection, proposing and accepting blocks. */
module Consensus {
  import opened Wrappers
  import opened Integers
  import opened Transactions
  import opened Ledger
  import opened LedgerLaws
  import opened Blocks

  datatype Validator = Validator(id: string, publicKey: string, name: string)

  /** The genesis loader refuses an empty list. */
  type ValidatorSet = vs: seq<Validator> | |vs| > 0 witness [Validator("", "", "")]

  ghost predicate DistinctIds(vs: ValidatorSet) {
    forall i, j :: 0 <= i < j < |vs| ==> vs[i].id != vs[j].id
  }

  /** Go's remainder takes the sign of the dividend. */
  function GoRem(x: int, n: int): int
    requires n > 0
  {
    if x >= 0 then x % n else -((-x) % n)
  }

  /** None where indexing the list with a negative remainder panics. */
  function ProposerForHeight(vs: ValidatorSet, height: int): Option<Validator> {
    var i := GoRem(height, |vs|);
    if i < 0 then None else Some(vs[i])
  }

  /** The key of the first entry with this ID. */
  function PublicKeyFor(vs: seq<Validator>, id: string): Option<string> {
    if |vs| == 0 then None
    else if vs[0].id == id then Some(vs[0].publicKey)
    else PublicKeyFor(vs[1..], id)
  }

  /** Position `i` holds the first entry with this ID. */
  predicate IsFirst(vs: seq<Validator>, id: string, i: nat) {
    i < |vs| && vs[i].id == id && forall k :: 0 <= k < i ==> vs[k].id != id
  }

  /** The lookup yields the public key of the first entry with the ID. */
  lemma {:induction false} KeyOfFirst(vs: seq<Validator>, id: string, i: nat)
    requires IsFirst(vs, id, i)
    ensures PublicKeyFor(vs, id) == Some(vs[i].publicKey)
  {
    if i == 0 {
    } else {
      KeyOfFirst(vs[1..], id, i - 1);
    }
  }

  /** And nothing exactly when there is none. */
  lemma {:induction false} KeyIsMissingIff(vs: seq<Validator>, id: string)
    ensures PublicKeyFor(vs, id).None? <==> forall i :: 0 <= i < |vs| ==> vs[i].id != id
    ensures PublicKeyFor(vs, id).Some? ==> exists i: nat :: IsFirst(vs, id, i)
  {
    if |vs| == 0 {
    } else if vs[0].id == id {
      assert IsFirst(vs, id, 0);
    } else {
      KeyIsMissingIff(vs[1..], id);
      if i: nat :| IsFirst(vs[1..], id, i) {
        assert IsFirst(vs, id, i + 1);
      }
    }
  }

  /** With distinct IDs every validator's key is found. */
  lemma EveryKeyIsFound(vs: ValidatorSet, i: nat)
    requires DistinctIds(vs) && i < |vs|
    ensures PublicKeyFor(vs, vs[i].id) == Some(vs[i].publicKey)
  {
    KeyOfFirst(vs, vs[i].id, i);
  }

  /** Non-negative heights go round; of the others only multiples of n have a proposer, the first. */
  lemma ProposerIs(vs: ValidatorSet, height: int)
    ensures height >= 0 ==> ProposerForHeight(vs, height) == Some(vs[height % |vs|])
    ensures height < 0 ==> ProposerForHeight(vs, height) == if (-height) % |vs| == 0 then Some(vs[0]) else None
  {
  }

  /** With distinct IDs a validator is in turn exactly at the heights congruent to its position. */
  lemma InTurnIff(vs: ValidatorSet, i: nat, height: nat)
    requires DistinctIds(vs) && i < |vs|
    ensures IsMyTurn(vs, vs[i].id, height) <==> height % |vs| == i
  {
    var q := height % |vs|;
    assert vs[q].id == vs[i].id <==> q == i;
  }

  // ----- The engine's two operations on a chain and a mempool -----

  type Mempool = map<string, Tx>

  datatype EngineState = EngineState(chain: Chain, mempool: Mempool)

  const MAX_TXS_PER_BLOCK: nat := 200

  datatype AcceptError = UnknownValidator | HeightPanics | WrongProposer | Rejected(error: AddError)

  datatype ProposeError = NotMyTurn | SigningFailed

  predicate IsMyTurn(vs: ValidatorSet, localId: string, height: int) {
    var proposer := ProposerForHeight(vs, height);
    proposer.Some? && proposer.value.id == localId
  }

  /** `txs` lists entries of the pool, each once. */
  predicate Drawn(pool: Mempool, ids: seq<string>, txs: seq<Tx>) {
    && |ids| == |txs|
    && (forall i, j :: 0 <= i < j < |ids| ==> ids[i] != ids[j])
    && (forall i :: 0 <= i < |ids| ==> ids[i] in pool && pool[ids[i]] == txs[i])
  }

  /** What Pending may return: some of the pool, in any order, as many as fit. */
  ghost predicate IsPending(pool: Mempool, max: nat, txs: seq<Tx>) {
    && |txs| == (if |pool| < max then |pool| else max)
    && exists ids: seq<string> :: Drawn(pool, ids, txs)
  }

  /** What is left are the entries whose IDs no transaction of the batch bears. */
  function WithoutBatch(pool: Mempool, txs: seq<Tx>): (rest: Mempool)
    ensures forall id :: id in rest <==> id in pool && forall i :: 0 <= i < |txs| ==> txs[i].id != id
    ensures forall id :: id in rest ==> rest[id] == pool[id]
  {
    pool - (set i | 0 <= i < |txs| :: txs[i].id)
  }

  function ProposeBlock(c: Crypto, vs: ValidatorSet, localId: string, privateKey: string,
                        e: EngineState, pending: seq<Tx>, timestamp: int): Result<Block, ProposeError>
    requires |e.chain.blocks| > 0
  {
    var latest := Tip(e.chain);
    if !IsMyTurn(vs, localId, latest.index + 1) then Err(NotMyTurn) else
    match SignBlock(c, NewBlock(c, latest.index + 1, timestamp, latest.hash, pending, localId), privateKey)
    case None => Err(SigningFailed)
    case Some(b) => Ok(b)
  }

  /** The proposal is made from `pending`, which is what the mempool handed over if it was asked. */
  ghost predicate ProposedFrom(c: Crypto, vs: ValidatorSet, localId: string, privateKey: string, e: EngineState,
                               pending: seq<Tx>, timestamp: int, r: Result<Block, ProposeError>)
    requires |e.chain.blocks| > 0
  {
    && r == ProposeBlock(c, vs, localId, privateKey, e, pending, timestamp)
    && (r != Err(NotMyTurn) ==> IsPending(e.mempool, MAX_TXS_PER_BLOCK, pending))
  }

  /** The checks before the chain sees the block: a known validator, and the one whose turn it is. */
  function ProposerCheck(vs: ValidatorSet, b: Block): Outcome<AcceptError> {
    if PublicKeyFor(vs, b.validatorId).None? then Fail(UnknownValidator) else
    match ProposerForHeight(vs, b.index)
    case None => Fail(HeightPanics)
    case Some(v) => if v.id != b.validatorId then Fail(WrongProposer) else Pass
  }

  function AcceptBlock(c: Crypto, vs: ValidatorSet, e: EngineState, b: Block): Result<EngineState, AcceptError>
    requires |e.chain.blocks| > 0
  {
    if ProposerCheck(vs, b).Fail? then Err(ProposerCheck(vs, b).error) else
    match AddBlock(c, e.chain, b, PublicKeyFor(vs, b.validatorId).value)
    case Err(error) => Err(Rejected(error))
    case Ok(chain) => Ok(EngineState(chain, WithoutBatch(e.mempool, b.txs)))
  }

  /** Which proposers pass, and with what error the others do not. */
  lemma ProposerCheckIs(vs: ValidatorSet, b: Block)
    requires b.index >= 0
    ensures ProposerCheck(vs, b) ==
            if forall i :: 0 <= i < |vs| ==> vs[i].id != b.validatorId then Fail(UnknownValidator)
            else if vs[b.index % |vs|].id != b.validatorId then Fail(WrongProposer)
            else Pass
  {
    KeyIsMissingIff(vs, b.validatorId);
  }

  /**
   * A block the local proposer builds holds what was pending, passes every structural, proposer and signature check on
   * its own chain, is accepted exactly when its transactions run, and is refused for a transaction otherwise.
   */
  lemma ProposedIsAcceptedIff(c: Crypto, vs: ValidatorSet, localId: string, i: nat, privateKey: string,
                              e: EngineState, pending: seq<Tx>, timestamp: int)
    requires |e.chain.blocks| > 0 && Tip(e.chain).index >= 0
    requires IsFirst(vs, localId, i) && KeyPair(c, privateKey, vs[i].publicKey)
    requires vs[(Tip(e.chain).index + 1) % |vs|].id == localId
    ensures var r := ProposeBlock(c, vs, localId, privateKey, e, pending, timestamp);
            && r.Ok?
            && r.value.txs == pending && r.value.timestamp == timestamp && r.value.validatorId == localId
            && r.value.index == Tip(e.chain).index + 1 && r.value.prevHash == Tip(e.chain).hash
            && c.Verify(vs[i].publicKey, r.value.hash, r.value.signature)
            && (AcceptBlock(c, vs, e, r.value).Ok? <==> Run(c, e.chain.state, pending).Some?)
            && (AcceptBlock(c, vs, e, r.value).Err? ==>
                  AcceptBlock(c, vs, e, r.value).error.Rejected? && AcceptBlock(c, vs, e, r.value).error.error.InvalidTx?)
  {
    var latest := Tip(e.chain);
    var unsigned := NewBlock(c, latest.index + 1, timestamp, latest.hash, pending, localId);
    assert c.Sign(privateKey, unsigned.hash).Some?;
    var b := ProposeBlock(c, vs, localId, privateKey, e, pending, timestamp).value;
    assert HeaderOf(b) == HeaderOf(unsigned) && b.hash == unsigned.hash;
    KeyOfFirst(vs, localId, i);
    AddBlockRuns(c, e.chain, b, vs[i].publicKey);
  }

  // ----- Chains that only AcceptBlock extends -----

  /** The block is in its proposer's slot and carries that proposer's signature. */
  ghost predicate SignedInTurn(c: Crypto, vs: ValidatorSet, b: Block) {
    && b.index >= 1
    && vs[b.index % |vs|].id == b.validatorId
    && (exists i: nat :: IsFirst(vs, b.validatorId, i) && c.Verify(vs[i].publicKey, b.hash, b.signature))
    && b.hash == BlockHash(c, HeaderOf(b))
    && b.merkleRoot == MerkleRoot(c, b.txs)
  }

  ghost predicate Authored(c: Crypto, vs: ValidatorSet, blocks: seq<Block>) {
    forall i :: 1 <= i < |blocks| ==> SignedInTurn(c, vs, blocks[i])
  }

  /** Everything known of a chain that started from genesis and grew by AcceptBlock. */
  ghost predicate Sound(c: Crypto, vs: ValidatorSet, allocations: map<string, int64>, ch: Chain) {
    Derived(c, allocations, ch) && Authored(c, vs, ch.blocks)
  }

  lemma AcceptKeepsSound(c: Crypto, vs: ValidatorSet, allocations: map<string, int64>, e: EngineState, b: Block)
    requires Sound(c, vs, allocations, e.chain) && AcceptBlock(c, vs, e, b).Ok?
    ensures Sound(c, vs, allocations, AcceptBlock(c, vs, e, b).value.chain)
    ensures AcceptBlock(c, vs, e, b).value.chain.blocks == e.chain.blocks + [b]
    ensures b.index == |e.chain.blocks| && SignedInTurn(c, vs, b)
  {
    var key := PublicKeyFor(vs, b.validatorId).value;
    KeyIsMissingIff(vs, b.validatorId);
    var i: nat :| IsFirst(vs, b.validatorId, i);
    KeyOfFirst(vs, b.validatorId, i);
    AddBlockRuns(c, e.chain, b, key);
    AddBlockDerived(c, allocations, e.chain, b, key);
    DerivedWellFormed(c, allocations, e.chain);
  }

  /** Any sequence of offered blocks, accepted or refused. */
  function Offer(c: Crypto, vs: ValidatorSet, e: EngineState, offered: seq<Block>): (r: EngineState)
    requires |e.chain.blocks| > 0
    ensures |r.chain.blocks| > 0
  {
    if |offered| == 0 then e else
    var mid := Offer(c, vs, e, offered[..|offered| - 1]);
    var result := AcceptBlock(c, vs, mid, offered[|offered| - 1]);
    if result.Ok? then AddBlockGrows(c, vs, mid, offered[|offered| - 1]); result.value else mid
  }

  lemma AddBlockGrows(c: Crypto, vs: ValidatorSet, e: EngineState, b: Block)
    requires |e.chain.blocks| > 0 && AcceptBlock(c, vs, e, b).Ok?
    ensures AcceptBlock(c, vs, e, b).value.chain.blocks == e.chain.blocks + [b]
  {
  }

  /**
   * Whatever blocks are offered to a new chain, it stays sound: it passes ValidateChain, the block at position i
   * has index i and is signed by the round-robin proposer of i (with its own key, if IDs are distinct), and the state is
   * the fold of all transactions.
   */
  lemma {:induction false} EveryChainIsSound(c: Crypto, vs: ValidatorSet, allocations: map<string, int64>,
                                             timestamp: int, pool: Mempool, offered: seq<Block>)
    ensures var ch := Offer(c, vs, EngineState(NewChain(c, allocations, timestamp), pool), offered).chain;
            && Sound(c, vs, allocations, ch)
            && ChainValid(c, ch.blocks)
            && WellFormed(ch.state)
            && (forall i :: 0 <= i < |ch.blocks| ==> ch.blocks[i].index == i)
            && (DistinctIds(vs) ==> forall h :: 1 <= h < |ch.blocks| ==>
                  && ch.blocks[h].validatorId == vs[h % |vs|].id
                  && c.Verify(vs[h % |vs|].publicKey, ch.blocks[h].hash, ch.blocks[h].signature))
  {
    var start := EngineState(NewChain(c, allocations, timestamp), pool);
    if |offered| == 0 {
      NewChainDerived(c, allocations, timestamp);
    } else {
      var front, b := offered[..|offered| - 1], offered[|offered| - 1];
      EveryChainIsSound(c, vs, allocations, timestamp, pool, front);
      var mid := Offer(c, vs, start, front);
      if AcceptBlock(c, vs, mid, b).Ok? {
        AcceptKeepsSound(c, vs, allocations, mid, b);
      }
    }
    var ch := Offer(c, vs, start, offered).chain;
    DerivedChainIsValid(c, allocations, ch);
    DerivedWellFormed(c, allocations, ch);
    if DistinctIds(vs) {
      forall h | 1 <= h < |ch.blocks|
        ensures ch.blocks[h].validatorId == vs[h % |vs|].id
        ensures c.Verify(vs[h % |vs|].publicKey, ch.blocks[h].hash, ch.blocks[h].signature)
      {
        SignerIs(c, vs, ch.blocks[h]);
      }
    }
  }

  /** Signed in turn, with distinct IDs: by the key of the validator at that position. */
  lemma SignerIs(c: Crypto, vs: ValidatorSet, b: Block)
    requires DistinctIds(vs) && SignedInTurn(c, vs, b)
    ensures b.validatorId == vs[b.index % |vs|].id
    ensures c.Verify(vs[b.index % |vs|].publicKey, b.hash, b.signature)
  {
    var i: nat :| IsFirst(vs, b.validatorId, i) && c.Verify(vs[i].publicKey, b.hash, b.signature);
    assert i == b.index % |vs|;
  }

  // ----- Fairness -----

  /** How many of the k heights from `start` fall to position j of n. */
  function Slots(n: nat, j: nat, start: nat, k: nat): nat
    requires j < n
  {
    if k == 0 then 0 else Slots(n, j, start, k - 1) + (if (start + k - 1) % n == j then 1 else 0)
  }

  lemma {:induction false} SlotsSplit(n: nat, j: nat, start: nat, a: nat, b: nat)
    requires j < n
    ensures Slots(n, j, start, a + b) == Slots(n, j, start, a) + Slots(n, j, start + a, b)
    decreases b
  {
    if b == 0 {
    } else {
      SlotsSplit(n, j, start, a, b - 1);
      assert a + b - 1 == a + (b - 1) && start + (a + b) - 1 == start + a + b - 1;
    }
  }

  lemma {:induction false} FirstRound(n: nat, j: nat, k: nat)
    requires j < n && k <= n
    ensures Slots(n, j, 0, k) == if j < k then 1 else 0
  {
    if k == 0 {
    } else {
      FirstRound(n, j, k - 1);
      Small(k - 1, n);
    }
  }

  lemma DivModUnique(x: int, n: int, q: int, r: int)
    requires 0 <= r < n && x == n * q + r
    ensures x / n == q && x % n == r
  {
    var d := x / n - q;
    assert x == n * (x / n) + x % n;
    assert n * d == n * (x / n) - n * q == r - x % n;
    assert d >= 1 ==> n * d >= n;
    assert d <= -1 ==> n * d <= -n;
  }

  lemma TurnShift(x: nat, n: nat)
    requires n > 0
    ensures (x + n) % n == x % n && (x + n) / n == x / n + 1
  {
    assert x + n == n * (x / n + 1) + x % n;
    DivModUnique(x + n, n, x / n + 1, x % n);
  }

  lemma Small(x: nat, n: nat)
    requires x < n
    ensures x / n == 0 && x % n == x
  {
    DivModUnique(x, n, 0, x);
  }

  lemma OneSlot(n: nat, j: nat, start: nat)
    requires j < n
    ensures Slots(n, j, start, 1) == if start % n == j then 1 else 0
  {
    assert Slots(n, j, start, 0) == 0 && start + 1 - 1 == start;
  }

  /** Every full round holds exactly one turn of each validator, wherever it starts. */
  lemma {:induction false} FullRound(n: nat, j: nat, start: nat)
    requires j < n
    ensures Slots(n, j, start, n) == 1
  {
    if start == 0 {
      FirstRound(n, j, n);
    } else {
      var s := start - 1;
      FullRound(n, j, s);
      SlotsSplit(n, j, s, 1, n);
      SlotsSplit(n, j, s, n, 1);
      OneSlot(n, j, s);
      OneSlot(n, j, s + n);
      TurnShift(s, n);
    }
  }

  /** Over k consecutive heights a validator proposes at least floor(k/n) and at most ceil(k/n) times. */
  lemma {:induction false} RoundRobinFair(n: nat, j: nat, start: nat, k: nat)
    requires j < n
    ensures k / n <= Slots(n, j, start, k) <= (k + n - 1) / n
    decreases k
  {
    FullRound(n, j, start);
    if k < n {
      SlotsSplit(n, j, start, k, n - k);
      Small(k, n);
      if k > 0 {
        Small(k - 1, n);
        TurnShift(k - 1, n);
      } else {
        Small(n - 1, n);
      }
    } else {
      var rest := k - n;
      SlotsSplit(n, j, start, n, rest);
      RoundRobinFair(n, j, start + n, rest);
      TurnShift(rest, n);
      TurnShift(rest + n - 1, n);
    }
  }

  /** How many blocks of a segment name this validator. */
  function BlocksBy(blocks: seq<Block>, id: string): nat {
    if |blocks| == 0 then 0
    else BlocksBy(blocks[..|blocks| - 1], id) + (if blocks[|blocks| - 1].validatorId == id then 1 else 0)
  }

  lemma SlotOwner(c: Crypto, vs: ValidatorSet, allocations: map<string, int64>, ch: Chain, h: nat, j: nat)
    requires Sound(c, vs, allocations, ch) && DistinctIds(vs) && j < |vs| && 1 <= h < |ch.blocks|
    ensures ch.blocks[h].validatorId == vs[j].id <==> h % |vs| == j
  {
    DerivedWellFormed(c, allocations, ch);
    assert SignedInTurn(c, vs, ch.blocks[h]) && ch.blocks[h].index == h;
    var q := h % |vs|;
    assert vs[q].id == vs[j].id <==> q == j;
  }

  lemma {:induction false} SegmentSlots(c: Crypto, vs: ValidatorSet, allocations: map<string, int64>, ch: Chain,
                                        lo: nat, hi: nat, j: nat)
    requires Sound(c, vs, allocations, ch) && DistinctIds(vs) && j < |vs|
    requires 1 <= lo <= hi <= |ch.blocks|
    ensures BlocksBy(ch.blocks[lo..hi], vs[j].id) == Slots(|vs|, j, lo, hi - lo)
    decreases hi
  {
    hide Sound;
    if lo == hi {
    } else {
      SegmentSlots(c, vs, allocations, ch, lo, hi - 1, j);
      SlotOwner(c, vs, allocations, ch, hi - 1, j);
      assert ch.blocks[lo..hi][hi - lo - 1] == ch.blocks[hi - 1];
      assert ch.blocks[lo..hi][..hi - lo - 1] == ch.blocks[lo..hi - 1];
    }
  }

  /** So any segment of an accepted chain is shared out fairly among the validators. */
  lemma ChainIsFair(c: Crypto, vs: ValidatorSet, allocations: map<string, int64>, ch: Chain, lo: nat, hi: nat, j: nat)
    requires Sound(c, vs, allocations, ch) && DistinctIds(vs) && j < |vs|
    requires 1 <= lo <= hi <= |ch.blocks|
    ensures (hi - lo) / |vs| <= BlocksBy(ch.blocks[lo..hi], vs[j].id) <= (hi - lo + |vs| - 1) / |vs|
  {
    SegmentSlots(c, vs, allocations, ch, lo, hi, j);
    RoundRobinFair(|vs|, j, lo, hi - lo);
  }
}
