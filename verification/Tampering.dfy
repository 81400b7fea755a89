/** What the startup walk over the hash links finds, and what it does not look at. */
module Tampering {
  import opened Wrappers
  import opened Transactions
  import opened Ledger
  import opened Blocks
  import opened History

  /**
   * A block after genesis replaced under its old hash passes exactly when its header is the old one: the walk finds every
   * changed header, and nothing else, since it recomputes neither Merkle root nor signature.
   */
  lemma ReplacedIsFoundIff(c: Crypto, blocks: seq<Block>, i: nat, b: Block)
    requires ChainValid(c, blocks) && 1 <= i < |blocks| && b.hash == blocks[i].hash
    requires InjectiveEncodings(c) && CollisionFreeOn(c, {c.HeaderBytes(HeaderOf(b)), c.HeaderBytes(HeaderOf(blocks[i]))})
    ensures ChainValid(c, blocks[i := b]) <==> HeaderOf(b) == HeaderOf(blocks[i])
  {
    var replaced := blocks[i := b];
    assert BlockHash(c, HeaderOf(blocks[i])) == blocks[i].hash;
    if HeaderOf(b) == HeaderOf(blocks[i]) {
      assert b.prevHash == HeaderOf(b).prevHash == blocks[i].prevHash;
      forall k | 1 <= k < |replaced|
        ensures replaced[k].prevHash == replaced[k - 1].hash && BlockHash(c, HeaderOf(replaced[k])) == replaced[k].hash
      {
        assert blocks[k].prevHash == blocks[k - 1].hash && BlockHash(c, HeaderOf(blocks[k])) == blocks[k].hash;
      }
    } else {
      assert BlockHash(c, HeaderOf(replaced[i])) != replaced[i].hash;
    }
  }

  /** A block with a new hash is found through the link of the next one; only the last block can be replaced that way. */
  lemma RehashedIsFoundIff(c: Crypto, blocks: seq<Block>, i: nat, b: Block)
    requires ChainValid(c, blocks) && 1 <= i < |blocks| && b.hash != blocks[i].hash
    requires b.prevHash == blocks[i - 1].hash && BlockHash(c, HeaderOf(b)) == b.hash
    ensures ChainValid(c, blocks[i := b]) <==> i == |blocks| - 1
  {
    var replaced := blocks[i := b];
    if i < |blocks| - 1 {
      assert blocks[i + 1].prevHash == blocks[i].hash;
      assert replaced[i + 1].prevHash != replaced[i].hash;
    } else {
      forall k | 1 <= k < |replaced|
        ensures replaced[k].prevHash == replaced[k - 1].hash && BlockHash(c, HeaderOf(replaced[k])) == replaced[k].hash
      {
        assert k < i ==> replaced[k] == blocks[k];
        assert replaced[k - 1] == blocks[k - 1];
      }
    }
  }
}
