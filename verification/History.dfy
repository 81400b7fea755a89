/** The hash of the latest block fixes the whole history and the state. */
module History {
  import opened Wrappers
  import opened Integers
  import opened Transactions
  import opened Ledger
  import opened Blocks

  /** Every byte string that hashing `b` involves belongs to `hashed`. */
  ghost predicate HashedIn(c: Crypto, hashed: set<string>, b: Block) {
    && c.HeaderBytes(HeaderOf(b)) in hashed
    && MerkleInput(c, b.txs) in hashed
    && forall i :: 0 <= i < |b.txs| ==> c.TxBytes(Canon(b.txs[i])) in hashed
  }

  /** The idealised hash: fixed width, faithful encodings, no collision among the strings hashed. */
  ghost predicate Ideal(c: Crypto, hashed: set<string>) {
    FixedWidth(c) && InjectiveEncodings(c) && CollisionFreeOn(c, hashed)
  }

  predicate SameTxs(xs: seq<Tx>, ys: seq<Tx>) {
    |xs| == |ys| && forall i :: 0 <= i < |xs| ==> Canon(xs[i]) == Canon(ys[i])
  }

  /** Equal in everything the block hash commits to. */
  predicate SameContent(x: Block, y: Block) {
    HeaderOf(x) == HeaderOf(y) && x.hash == y.hash && SameTxs(x.txs, y.txs)
  }

  lemma {:induction false} CombinedWidth(c: Crypto, txs: seq<Tx>)
    requires FixedWidth(c)
    ensures |Combined(c, txs)| == HASH_WIDTH * |txs|
  {
    if |txs| == 0 {
    } else {
      CombinedWidth(c, txs[..|txs| - 1]);
    }
  }

  /** Concatenating fixed-width digests loses nothing. */
  lemma {:induction false} CombinedInjective(c: Crypto, xs: seq<Tx>, ys: seq<Tx>)
    requires FixedWidth(c) && Combined(c, xs) == Combined(c, ys)
    ensures |xs| == |ys|
    ensures forall i :: 0 <= i < |xs| ==> TxHash(c, xs[i]) == TxHash(c, ys[i])
  {
    CombinedWidth(c, xs);
    CombinedWidth(c, ys);
    if |xs| == 0 {
    } else {
      var n := |xs| - 1;
      var x, y := Combined(c, xs[..n]), Combined(c, ys[..n]);
      CombinedWidth(c, xs[..n]);
      CombinedWidth(c, ys[..n]);
      assert x == Combined(c, xs)[..|x|] == Combined(c, ys)[..|y|] == y;
      assert TxHash(c, xs[n]) == Combined(c, xs)[|x|..] == Combined(c, ys)[|y|..] == TxHash(c, ys[n]);
      CombinedInjective(c, xs[..n], ys[..n]);
      forall i | 0 <= i < |xs|
        ensures TxHash(c, xs[i]) == TxHash(c, ys[i])
      {
        if i < n {
          assert xs[..n][i] == xs[i] && ys[..n][i] == ys[i];
        }
      }
    }
  }

  /** The mark of an empty block is not the digest list of any other. */
  lemma MerkleInputInjective(c: Crypto, xs: seq<Tx>, ys: seq<Tx>)
    requires FixedWidth(c) && MerkleInput(c, xs) == MerkleInput(c, ys)
    ensures |xs| == |ys|
    ensures forall i :: 0 <= i < |xs| ==> TxHash(c, xs[i]) == TxHash(c, ys[i])
  {
    CombinedWidth(c, xs);
    CombinedWidth(c, ys);
    assert |EMPTY_MARK| == 5;
    if |xs| != 0 && |ys| != 0 {
      CombinedInjective(c, xs, ys);
    }
  }

  /** One block: equal hashes mean equal headers and equal canonical transactions. */
  lemma EqualHashEqualContent(c: Crypto, hashed: set<string>, x: Block, y: Block)
    requires Ideal(c, hashed) && HashedIn(c, hashed, x) && HashedIn(c, hashed, y)
    requires x.hash == BlockHash(c, HeaderOf(x)) && y.hash == BlockHash(c, HeaderOf(y))
    requires x.merkleRoot == MerkleRoot(c, x.txs) && y.merkleRoot == MerkleRoot(c, y.txs)
    requires x.hash == y.hash
    ensures SameContent(x, y)
  {
    assert HeaderOf(x) == HeaderOf(y);
    assert HeaderOf(x).merkleRoot == HeaderOf(y).merkleRoot;
    assert MerkleInput(c, x.txs) == MerkleInput(c, y.txs);
    MerkleInputInjective(c, x.txs, y.txs);
  }

  lemma LinkedHashes(c: Crypto, blocks: seq<Block>, i: nat)
    requires Linked(c, blocks) && i < |blocks|
    ensures blocks[i].hash == BlockHash(c, HeaderOf(blocks[i]))
    ensures blocks[i].merkleRoot == MerkleRoot(c, blocks[i].txs)
  {
    if i > 0 {
      assert Follows(c, blocks[i], blocks[i - 1]);
    }
  }

  /** Two linked chains with the same hash at their ends agree from genesis on. */
  lemma {:induction false} TipHashFixesBlocks(c: Crypto, hashed: set<string>, xs: seq<Block>, ys: seq<Block>)
    requires Ideal(c, hashed) && Linked(c, xs) && Linked(c, ys)
    requires forall i :: 0 <= i < |xs| ==> HashedIn(c, hashed, xs[i])
    requires forall i :: 0 <= i < |ys| ==> HashedIn(c, hashed, ys[i])
    requires xs[|xs| - 1].hash == ys[|ys| - 1].hash
    ensures |xs| == |ys|
    ensures forall i :: 0 <= i < |xs| ==> SameContent(xs[i], ys[i])
  {
    hide HashedIn, Ideal, BlockHash, MerkleRoot;
    var m, n := |xs| - 1, |ys| - 1;
    LinkedHashes(c, xs, m);
    LinkedHashes(c, ys, n);
    EqualHashEqualContent(c, hashed, xs[m], ys[n]);
    LinkedIndex(c, xs, m);
    LinkedIndex(c, ys, n);
    assert HeaderOf(xs[m]).index == HeaderOf(ys[n]).index;
    if m > 0 {
      assert Follows(c, xs[m], xs[m - 1]) && Follows(c, ys[n], ys[n - 1]);
      assert HeaderOf(xs[m]).prevHash == HeaderOf(ys[n]).prevHash;
      TipHashFixesBlocks(c, hashed, xs[..m], ys[..n]);
      forall i | 0 <= i < |xs|
        ensures SameContent(xs[i], ys[i])
      {
        if i < m {
          assert SameContent(xs[..m][i], ys[..n][i]);
        }
      }
    }
  }

  lemma SameTxsConcat(x: seq<Tx>, y: seq<Tx>, x': seq<Tx>, y': seq<Tx>)
    requires SameTxs(x, y) && SameTxs(x', y')
    ensures SameTxs(x + x', y + y')
  {
  }

  lemma {:induction false} SameContentSameTxs(xs: seq<Block>, ys: seq<Block>)
    requires |xs| == |ys| && forall i :: 0 <= i < |xs| ==> SameContent(xs[i], ys[i])
    ensures SameTxs(AllTxs(xs), AllTxs(ys))
  {
    if |xs| == 0 {
    } else {
      var n := |xs| - 1;
      hide SameTxs;
      SameContentSameTxs(xs[..n], ys[..n]);
      assert SameContent(xs[n], ys[n]);
      SameTxsConcat(AllTxs(xs[..n]), AllTxs(ys[..n]), xs[n].txs, ys[n].txs);
    }
  }

  /** Chains whose blocks have the same content have the same state. */
  lemma SameContentSameState(c: Crypto, allocations: map<string, int64>, x: Chain, y: Chain)
    requires Derived(c, allocations, x) && Derived(c, allocations, y)
    requires |x.blocks| == |y.blocks|
    requires forall i :: 0 <= i < |x.blocks| ==> SameContent(x.blocks[i], y.blocks[i])
    ensures x.state == y.state
  {
    SameContentSameTxs(x.blocks, y.blocks);
    RunDependsOnCanonical(c, Initial(allocations), AllTxs(x.blocks), AllTxs(y.blocks));
  }

  /** Equal tip hashes: equal length, headers, canonical transactions at every height, and equal state. */
  lemma TipHashFixesHistory(c: Crypto, hashed: set<string>, allocations: map<string, int64>, x: Chain, y: Chain)
    requires Ideal(c, hashed) && Derived(c, allocations, x) && Derived(c, allocations, y)
    requires forall i :: 0 <= i < |x.blocks| ==> HashedIn(c, hashed, x.blocks[i])
    requires forall i :: 0 <= i < |y.blocks| ==> HashedIn(c, hashed, y.blocks[i])
    requires Tip(x).hash == Tip(y).hash
    ensures |x.blocks| == |y.blocks|
    ensures forall i :: 0 <= i < |x.blocks| ==> SameContent(x.blocks[i], y.blocks[i])
    ensures x.state == y.state
  {
    TipHashFixesBlocks(c, hashed, x.blocks, y.blocks);
    SameContentSameState(c, allocations, x, y);
  }
}
