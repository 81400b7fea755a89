/** Blocks, their hashes, and the chain as a value. */
module Blocks {
  import opened Wrappers
  import opened Integers
  import opened Transactions
  import opened Ledger
  import opened LedgerLaws

  datatype Block = Block(
    index: int,
    timestamp: int,
    prevHash: string,
    hash: string,
    merkleRoot: string,
    txs: seq<Tx>,
    validatorId: string,
    signature: string)

  datatype BlockError = WrongIndex | WrongPrevHash | WrongHash | WrongMerkleRoot | BadBlockSignature

  datatype AddError = InvalidBlock(block: BlockError) | InvalidTx(position: nat, tx: TxError)

  const GENESIS_PREV_HASH := "0000000000000000000000000000000000000000000000000000000000000000"
  const GENESIS_VALIDATOR := "genesis"
  const EMPTY_MARK := "empty"

  // ----- Hashing -----

  /** The transaction hashes written one after the other. */
  function Combined(c: Crypto, txs: seq<Tx>): string {
    if |txs| == 0 then "" else Combined(c, txs[..|txs| - 1]) + TxHash(c, txs[|txs| - 1])
  }

  /** The byte string whose digest is the Merkle root. */
  function MerkleInput(c: Crypto, txs: seq<Tx>): string {
    if |txs| == 0 then EMPTY_MARK else Combined(c, txs)
  }

  function MerkleRoot(c: Crypto, txs: seq<Tx>): string {
    c.Sha(MerkleInput(c, txs))
  }

  method CalculateMerkleRoot(c: Crypto, txs: seq<Tx>) returns (root: string)
    ensures root == MerkleRoot(c, txs)
  {
    if |txs| == 0 {
      return c.Sha(EMPTY_MARK);
    }
    var combined := "";
    for i := 0 to |txs|
      invariant combined == Combined(c, txs[..i])
    {
      assert txs[..i + 1][..i] == txs[..i];
      combined := combined + TxHash(c, txs[i]);
    }
    assert txs[..|txs|] == txs;
    root := c.Sha(combined);
  }

  function HeaderOf(b: Block): Header {
    Header(b.index, b.timestamp, b.prevHash, b.merkleRoot, b.validatorId)
  }

  function BlockHash(c: Crypto, h: Header): string {
    c.Sha(c.HeaderBytes(h))
  }

  /** An unsigned block: Merkle root first, then the hash that covers it. */
  function NewBlock(c: Crypto, index: int, timestamp: int, prevHash: string, txs: seq<Tx>, validatorId: string): Block {
    var root := MerkleRoot(c, txs);
    Block(index, timestamp, prevHash, BlockHash(c, Header(index, timestamp, prevHash, root, validatorId)),
          root, txs, validatorId, "")
  }

  function GenesisBlock(c: Crypto, timestamp: int): Block {
    NewBlock(c, 0, timestamp, GENESIS_PREV_HASH, [], GENESIS_VALIDATOR)
  }

  function SignBlock(c: Crypto, b: Block, privateKey: string): Option<Block> {
    match c.Sign(privateKey, b.hash)
    case None => None
    case Some(sig) => Some(b.(signature := sig))
  }

  // ----- Validation -----

  function ValidateBlock(c: Crypto, b: Block, prev: Block, publicKey: string): Outcome<BlockError> {
    if b.index != prev.index + 1 then Fail(WrongIndex)
    else if b.prevHash != prev.hash then Fail(WrongPrevHash)
    else if BlockHash(c, HeaderOf(b)) != b.hash then Fail(WrongHash)
    else if MerkleRoot(c, b.txs) != b.merkleRoot then Fail(WrongMerkleRoot)
    else if !c.Verify(publicKey, b.hash, b.signature) then Fail(BadBlockSignature)
    else Pass
  }

  datatype Chain = Chain(blocks: seq<Block>, state: State)

  function Tip(ch: Chain): Block
    requires |ch.blocks| > 0
  {
    ch.blocks[|ch.blocks| - 1]
  }

  /** Where the validate-then-apply loop stops, if it does. */
  function FirstFailure(c: Crypto, s: State, txs: seq<Tx>): (n: nat)
    ensures n <= |txs|
    ensures Run(c, s, txs[..n]).Some?
    ensures n < |txs| ==> Step(c, Run(c, s, txs[..n]).value, txs[n]).None?
  {
    if |txs| == 0 then 0 else
    var front := txs[..|txs| - 1];
    var n := FirstFailure(c, s, front);
    assert front[..|front|] == front;
    if n < |front| then
      assert front[..n] == txs[..n]; n
    else if Step(c, Run(c, s, front).value, txs[|txs| - 1]).None? then
      assert front[..n] == txs[..n] == front; n
    else
      assert txs[..|txs|] == txs; |txs|
  }

  /** Append a block, or report why not and leave the chain alone. */
  function AddBlock(c: Crypto, ch: Chain, b: Block, publicKey: string): Result<Chain, AddError>
    requires |ch.blocks| > 0
  {
    var check := ValidateBlock(c, b, Tip(ch), publicKey);
    if check.Fail? then Err(InvalidBlock(check.error)) else
    var n := FirstFailure(c, ch.state, b.txs);
    var mid := Run(c, ch.state, b.txs[..n]).value;
    if n < |b.txs| then Err(InvalidTx(n, ValidateTransaction(c, b.txs[n], mid).error))
    else Ok(Chain(ch.blocks + [b], mid))
  }

  lemma AddBlockRuns(c: Crypto, ch: Chain, b: Block, publicKey: string)
    requires |ch.blocks| > 0
    ensures AddBlock(c, ch, b, publicKey).Ok? <==>
            ValidateBlock(c, b, Tip(ch), publicKey).Pass? && Run(c, ch.state, b.txs).Some?
    ensures AddBlock(c, ch, b, publicKey).Ok? ==>
            AddBlock(c, ch, b, publicKey).value == Chain(ch.blocks + [b], Run(c, ch.state, b.txs).value)
  {
    var n := FirstFailure(c, ch.state, b.txs);
    if n < |b.txs| {
      if Run(c, ch.state, b.txs).Some? {
        RunPrefix(c, ch.state, b.txs, n);
        assert false;
      }
    } else {
      assert b.txs[..n] == b.txs;
    }
  }

  /** Which test a refused block failed first. */
  lemma BlockRefusalIs(c: Crypto, b: Block, prev: Block, publicKey: string)
    ensures var r := ValidateBlock(c, b, prev, publicKey);
            var index, link := b.index == prev.index + 1, b.prevHash == prev.hash;
            var hash := b.hash == c.Sha(c.HeaderBytes(Header(b.index, b.timestamp, b.prevHash, b.merkleRoot, b.validatorId)));
            var root, signature := b.merkleRoot == MerkleRoot(c, b.txs), c.Verify(publicKey, b.hash, b.signature);
            && (r.Pass? <==> index && link && hash && root && signature)
            && (r == Fail(WrongIndex) <==> !index)
            && (r == Fail(WrongPrevHash) <==> index && !link)
            && (r == Fail(WrongHash) <==> index && link && !hash)
            && (r == Fail(WrongMerkleRoot) <==> index && link && hash && !root)
  {
  }

  /** A refused block is reported with the test it failed, or with its first transaction that does not validate in its place. */
  lemma AddBlockErrorIs(c: Crypto, ch: Chain, b: Block, publicKey: string)
    requires |ch.blocks| > 0 && AddBlock(c, ch, b, publicKey).Err?
    ensures var error := AddBlock(c, ch, b, publicKey).error;
            && (error.InvalidBlock? ==> ValidateBlock(c, b, Tip(ch), publicKey) == Fail(error.block))
            && (error.InvalidTx? ==>
                  && ValidateBlock(c, b, Tip(ch), publicKey).Pass?
                  && error.position < |b.txs| && Run(c, ch.state, b.txs[..error.position]).Some?
                  && ValidateTransaction(c, b.txs[error.position], Run(c, ch.state, b.txs[..error.position]).value) == Fail(error.tx))
  {
  }

  // ----- Chains built from genesis -----

  /** Genesis: height 0, no transactions, a predecessor hash as wide as a digest, hashed like any block, unsigned. */
  lemma GenesisIs(c: Crypto, timestamp: int)
    ensures var g := GenesisBlock(c, timestamp);
            && g.index == 0 && g.txs == [] && g.validatorId == "genesis" && g.timestamp == timestamp && g.signature == ""
            && |g.prevHash| == HASH_WIDTH
            && g.merkleRoot == c.Sha("empty")
            && g.hash == c.Sha(c.HeaderBytes(Header(0, timestamp, g.prevHash, g.merkleRoot, "genesis")))
  {
  }

  function AllTxs(blocks: seq<Block>): seq<Tx> {
    if |blocks| == 0 then [] else AllTxs(blocks[..|blocks| - 1]) + blocks[|blocks| - 1].txs
  }

  /** What `b` must satisfy to follow `prev`, signature aside. */
  predicate Follows(c: Crypto, b: Block, prev: Block) {
    && b.index == prev.index + 1
    && b.prevHash == prev.hash
    && b.hash == BlockHash(c, HeaderOf(b))
    && b.merkleRoot == MerkleRoot(c, b.txs)
  }

  predicate Linked(c: Crypto, blocks: seq<Block>) {
    && |blocks| > 0
    && blocks[0] == GenesisBlock(c, blocks[0].timestamp)
    && forall i :: 1 <= i < |blocks| ==> Follows(c, blocks[i], blocks[i - 1])
  }

  /** The state is the fold of every transaction in the blocks over the genesis allocations. */
  predicate Derived(c: Crypto, allocations: map<string, int64>, ch: Chain) {
    Linked(c, ch.blocks) && Run(c, Initial(allocations), AllTxs(ch.blocks)) == Some(ch.state)
  }

  function NewChain(c: Crypto, allocations: map<string, int64>, timestamp: int): Chain {
    Chain([GenesisBlock(c, timestamp)], Initial(allocations))
  }

  lemma NewChainDerived(c: Crypto, allocations: map<string, int64>, timestamp: int)
    ensures Derived(c, allocations, NewChain(c, allocations, timestamp))
  {
    var blocks := NewChain(c, allocations, timestamp).blocks;
    assert blocks[..0] == [] && AllTxs(blocks) == [];
  }

  /** Appending an accepted block keeps the state equal to the fold over all blocks. */
  lemma AddBlockDerived(c: Crypto, allocations: map<string, int64>, ch: Chain, b: Block, publicKey: string)
    requires Derived(c, allocations, ch) && AddBlock(c, ch, b, publicKey).Ok?
    ensures Derived(c, allocations, AddBlock(c, ch, b, publicKey).value)
  {
    AddBlockRuns(c, ch, b, publicKey);
    var blocks := ch.blocks + [b];
    assert blocks[..|ch.blocks|] == ch.blocks;
    RunConcat(c, Initial(allocations), AllTxs(ch.blocks), b.txs);
  }

  /** Reachable states satisfy the lock machine's invariant, and every index is a position. */
  lemma DerivedWellFormed(c: Crypto, allocations: map<string, int64>, ch: Chain)
    requires Derived(c, allocations, ch)
    ensures WellFormed(ch.state)
    ensures forall i :: 0 <= i < |ch.blocks| ==> ch.blocks[i].index == i
  {
    RunKeeps(c, Initial(allocations), AllTxs(ch.blocks));
    LinkedIndex(c, ch.blocks, |ch.blocks| - 1);
  }

  lemma {:induction false} LinkedIndex(c: Crypto, blocks: seq<Block>, n: nat)
    requires Linked(c, blocks) && n < |blocks|
    ensures forall i :: 0 <= i <= n ==> blocks[i].index == i
  {
    if n == 0 {
    } else {
      LinkedIndex(c, blocks, n - 1);
      assert Follows(c, blocks[n], blocks[n - 1]);
    }
  }

  /** What ValidateChain tests on startup. */
  predicate ChainValid(c: Crypto, blocks: seq<Block>) {
    forall i :: 1 <= i < |blocks| ==>
      blocks[i].prevHash == blocks[i - 1].hash && BlockHash(c, HeaderOf(blocks[i])) == blocks[i].hash
  }

  lemma DerivedChainIsValid(c: Crypto, allocations: map<string, int64>, ch: Chain)
    requires Derived(c, allocations, ch)
    ensures ChainValid(c, ch.blocks)
  {
    forall i | 1 <= i < |ch.blocks|
      ensures ch.blocks[i].prevHash == ch.blocks[i - 1].hash
      ensures BlockHash(c, HeaderOf(ch.blocks[i])) == ch.blocks[i].hash
    {
      assert Follows(c, ch.blocks[i], ch.blocks[i - 1]);
    }
  }
}
