/** The key-value layout of a node's store, and what a restart reads back. */
module Storage {
  import opened Wrappers
  import opened Integers
  import opened Decimals
  import opened Transactions
  import opened Blocks
  import L = Ledger
  import Laws = LedgerLaws
  import opened EmptyAddress

  /** JSON of blocks and locks, as uninterpreted functions. */
  datatype Codec = Codec(
    EncodeBlock: Block -> string,
    DecodeBlock: string -> Option<Block>,
    EncodeLock: L.EscrowLock -> string,
    DecodeLock: string -> Option<L.EscrowLock>)

  /** The blocks and locks of this chain survive their JSON. */
  ghost predicate RoundTrips(j: Codec, ch: Chain) {
    BlocksRoundTrip(j, ch.blocks) && LocksRoundTrip(j, ch.state.locked)
  }

  ghost predicate BlocksRoundTrip(j: Codec, blocks: seq<Block>) {
    forall i :: 0 <= i < |blocks| ==> j.DecodeBlock(j.EncodeBlock(blocks[i])) == Some(blocks[i])
  }

  ghost predicate LocksRoundTrip(j: Codec, locked: map<string, L.EscrowLock>) {
    forall c :: c in locked ==> j.DecodeLock(j.EncodeLock(locked[c])) == Some(locked[c])
  }

  type KeyValues = map<string, string>

  const BLOCK := "block:"
  const META_HEIGHT := "meta:height"
  const BALANCE := "balance:"
  const NONCE := "nonce:"
  const LOCK := "lock:"
  const CONTRACT := "contract:"

  predicate Under(prefix: string, key: string) {
    |key| >= |prefix| && key[..|prefix|] == prefix
  }

  function Rest(prefix: string, key: string): string
    requires Under(prefix, key)
  {
    key[|prefix|..]
  }

  /** LoadState's test: strictly longer than the prefix, so the empty name is not matched. */
  predicate Matches(prefix: string, key: string) {
    |key| > |prefix| && key[..|prefix|] == prefix
  }

  function Lookup(db: KeyValues, key: string): Option<string> {
    if key in db then Some(db[key]) else None
  }

  lemma KeyOf(prefix: string, name: string)
    ensures Under(prefix, prefix + name) && Rest(prefix, prefix + name) == name
    ensures Matches(prefix, prefix + name) <==> name != ""
  {
  }

  lemma KeyIs(prefix: string, key: string)
    requires Under(prefix, key)
    ensures key == prefix + Rest(prefix, key)
  {
  }

  /** The six key families do not overlap. */
  lemma Disjoint(key: string)
    ensures Under(BALANCE, key) ==> !Under(NONCE, key) && !Under(LOCK, key) && !Under(BLOCK, key) && !Under(CONTRACT, key) && key != META_HEIGHT
    ensures Under(NONCE, key) ==> !Under(LOCK, key) && !Under(BLOCK, key) && !Under(CONTRACT, key) && key != META_HEIGHT
    ensures Under(LOCK, key) ==> !Under(BLOCK, key) && !Under(CONTRACT, key) && key != META_HEIGHT
    ensures Under(BLOCK, key) ==> !Under(CONTRACT, key) && key != META_HEIGHT
    ensures Under(CONTRACT, key) ==> key != META_HEIGHT
  {
    assert BALANCE[0] == 'b' && BALANCE[1] == 'a' && BLOCK[0] == 'b' && BLOCK[1] == 'l';
    assert NONCE[0] == 'n' && LOCK[0] == 'l' && CONTRACT[0] == 'c' && META_HEIGHT[0] == 'm';
    assert forall p :: (|p| > 1 && Under(p, key)) ==> key[0] == key[..|p|][0] == p[0] && key[1] == key[..|p|][1] == p[1];
  }

  // ----- What a save writes -----

  function BlockKey(index: int): string {
    BLOCK + Decimal(index)
  }

  function SaveBlock(j: Codec, db: KeyValues, b: Block): KeyValues {
    db[BlockKey(b.index) := j.EncodeBlock(b)][META_HEIGHT := Decimal(b.index)]
  }

  /** The value a key has after SaveState: written if it belongs to the state, untouched otherwise. */
  function AfterSave(j: Codec, db: KeyValues, s: L.State, key: string): Option<string> {
    if Under(BALANCE, key) && Rest(BALANCE, key) in s.balances then Some(Decimal(s.balances[Rest(BALANCE, key)]))
    else if Under(NONCE, key) && Rest(NONCE, key) in s.nonces then Some(Decimal(s.nonces[Rest(NONCE, key)]))
    else if Under(LOCK, key) && Rest(LOCK, key) in s.locked then Some(j.EncodeLock(s.locked[Rest(LOCK, key)]))
    else Lookup(db, key)
  }

  ghost predicate IsSaved(j: Codec, db: KeyValues, s: L.State, db': KeyValues) {
    forall k :: Lookup(db', k) == AfterSave(j, db, s, k)
  }

  // ----- What a load reads -----

  function LoadBlock(j: Codec, db: KeyValues, index: int): Option<Block> {
    if BlockKey(index) in db then j.DecodeBlock(db[BlockKey(index)]) else None
  }

  /** -1 for an empty store, None when the stored height does not scan. */
  function LoadHeight(db: KeyValues): Option<int> {
    if META_HEIGHT !in db then Some(-1) else
    match Scan(db[META_HEIGHT])
    case None => None
    case Some(h) => Some(h)
  }

  function LoadBlocks(j: Codec, db: KeyValues, n: nat): Option<seq<Block>> {
    if n == 0 then Some([]) else
    match LoadBlocks(j, db, n - 1)
    case None => None
    case Some(front) =>
      match LoadBlock(j, db, n - 1)
      case None => None
      case Some(b) => Some(front + [b])
  }

  function LoadAllBlocks(j: Codec, db: KeyValues): Option<seq<Block>> {
    match LoadHeight(db)
    case None => None
    case Some(h) => if h < 0 then Some([]) else LoadBlocks(j, db, h + 1)
  }

  /** An entry LoadState can read; keys of other families are skipped. */
  predicate Readable(j: Codec, key: string, val: string) {
    if Matches(BALANCE, key) || Matches(NONCE, key) then Scan(val).Some?
    else if Matches(LOCK, key) then j.DecodeLock(val).Some?
    else true
  }

  ghost predicate AllReadable(j: Codec, db: KeyValues) {
    forall k :: k in db ==> Readable(j, k, db[k])
  }

  ghost predicate IntsLoaded(prefix: string, db: KeyValues, m: map<string, int64>) {
    && (forall k :: k in db && Matches(prefix, k) ==> Rest(prefix, k) in m)
    && (forall a :: a in m ==> a != "" && prefix + a in db && Scan(db[prefix + a]) == Some(m[a]))
  }

  /** A lock entry is filed under the contract ID inside it, whatever key it came from. */
  ghost predicate LocksLoaded(j: Codec, db: KeyValues, m: map<string, L.EscrowLock>) {
    && (forall k :: k in db && Matches(LOCK, k) ==>
          j.DecodeLock(db[k]).Some? && j.DecodeLock(db[k]).value.contractId in m)
    && (forall c :: c in m ==>
          exists k :: k in db && Matches(LOCK, k) && j.DecodeLock(db[k]) == Some(m[c]) && m[c].contractId == c)
  }

  /** What a successful LoadState returns. */
  ghost predicate Loaded(j: Codec, db: KeyValues, s: L.State) {
    IntsLoaded(BALANCE, db, s.balances) && IntsLoaded(NONCE, db, s.nonces) && LocksLoaded(j, db, s.locked)
  }

  // ----- A store that holds exactly a chain -----

  /** A key of the three state families, except the balance of the empty address, which no load reads. */
  predicate IsState(key: string) {
    (Under(BALANCE, key) && key != BALANCE) || Under(NONCE, key) || Under(LOCK, key)
  }

  /** The store's entries of the state are exactly the state's. */
  ghost predicate Holds(j: Codec, db: KeyValues, s: L.State) {
    forall k :: IsState(k) ==> Lookup(db, k) == AfterSave(j, map[], s, k)
  }

  ghost predicate HoldsBlocks(j: Codec, db: KeyValues, blocks: seq<Block>) {
    && (forall i :: 0 <= i < |blocks| ==> Lookup(db, BlockKey(i)) == Some(j.EncodeBlock(blocks[i])))
    && Lookup(db, META_HEIGHT) == Some(Decimal(|blocks| - 1))
  }

  ghost predicate Persisted(j: Codec, db: KeyValues, ch: Chain) {
    Holds(j, db, ch.state) && HoldsBlocks(j, db, ch.blocks)
  }

  predicate KeysGrow(s: L.State, s': L.State) {
    && s.balances.Keys <= s'.balances.Keys
    && s.nonces.Keys <= s'.nonces.Keys
    && s.locked.Keys <= s'.locked.Keys
  }

  /** A save only upserts, so it is a full snapshot because no key of the state ever disappears. */
  lemma SaveStateHolds(j: Codec, db: KeyValues, s: L.State, s': L.State, db': KeyValues)
    requires Holds(j, db, s) && KeysGrow(s, s') && IsSaved(j, db, s', db')
    ensures Holds(j, db', s')
  {
    forall k | IsState(k)
      ensures Lookup(db', k) == AfterSave(j, map[], s', k)
    {
      Disjoint(k);
      assert Lookup(db', k) == AfterSave(j, db, s', k);
      assert Lookup(db, k) == AfterSave(j, map[], s, k);
    }
  }

  lemma BlockKeyInjective(x: int64, y: int64)
    requires BlockKey(x) == BlockKey(y)
    ensures x == y
  {
    KeyOf(BLOCK, Decimal(x));
    KeyOf(BLOCK, Decimal(y));
    ScanDecimal(x);
    ScanDecimal(y);
  }

  lemma SaveBlockHolds(j: Codec, db: KeyValues, ch: Chain, b: Block)
    requires Persisted(j, db, ch) && b.index == |ch.blocks| <= MAX
    ensures HoldsBlocks(j, SaveBlock(j, db, b), ch.blocks + [b])
    ensures Holds(j, SaveBlock(j, db, b), ch.state)
  {
    var db' := SaveBlock(j, db, b);
    var blocks := ch.blocks + [b];
    KeyOf(BLOCK, Decimal(b.index));
    Disjoint(BlockKey(b.index));
    forall i | 0 <= i < |blocks|
      ensures Lookup(db', BlockKey(i)) == Some(j.EncodeBlock(blocks[i]))
    {
      KeyOf(BLOCK, Decimal(i));
      Disjoint(BlockKey(i));
      if i < |ch.blocks| && BlockKey(i) == BlockKey(b.index) {
        BlockKeyInjective(i, b.index);
      }
    }
    forall k | IsState(k)
      ensures Lookup(db', k) == AfterSave(j, map[], ch.state, k)
    {
      Disjoint(k);
    }
  }

  lemma SaveStateKeepsBlocks(j: Codec, db: KeyValues, s: L.State, db': KeyValues, blocks: seq<Block>)
    requires HoldsBlocks(j, db, blocks) && IsSaved(j, db, s, db')
    ensures HoldsBlocks(j, db', blocks)
  {
    Disjoint(META_HEIGHT);
    assert Lookup(db', META_HEIGHT) == AfterSave(j, db, s, META_HEIGHT);
    forall i | 0 <= i < |blocks|
      ensures Lookup(db', BlockKey(i)) == Some(j.EncodeBlock(blocks[i]))
    {
      KeyOf(BLOCK, Decimal(i));
      Disjoint(BlockKey(i));
      assert Lookup(db', BlockKey(i)) == AfterSave(j, db, s, BlockKey(i));
    }
  }

  // ----- Runs of a node's persistence -----

  /** A committed block followed by both saves, a contract record written beside them, or a restart that reads it all. */
  datatype Write = Commit(block: Block) | Contract(id: string, data: string) | Restart

  /** One write takes (chain, store) to (chain', store'). */
  ghost predicate Writes(c: Crypto, j: Codec, ch: Chain, db: KeyValues, w: Write, ch': Chain, db': KeyValues) {
    match w
    case Commit(b) =>
      && |ch.blocks| > 0
      && (exists key :: AddBlock(c, ch, b, key) == Ok(ch'))
      && IsSaved(j, SaveBlock(j, db, b), ch'.state, db')
    case Contract(id, data) =>
      ch' == ch && db' == db[CONTRACT + id := data]
    case Restart =>
      LoadAllBlocks(j, db) == Some(ch'.blocks) && Loaded(j, db, ch'.state) && db' == db
  }

  /** A store is new when it has no record of a chain. */
  ghost predicate NewStore(db: KeyValues) {
    forall k :: k in db ==> Under(CONTRACT, k)
  }

  ghost predicate PersistedRun(c: Crypto, j: Codec, allocations: map<string, int64>, timestamp: int,
                               chains: seq<Chain>, dbs: seq<KeyValues>, writes: seq<Write>)
  {
    && |chains| == |dbs| == |writes| + 1
    && chains[0] == NewChain(c, allocations, timestamp)
    && (exists empty :: NewStore(empty) && IsSaved(j, SaveBlock(j, empty, chains[0].blocks[0]), chains[0].state, dbs[0]))
    && forall i :: 0 <= i < |writes| ==> Writes(c, j, chains[i], dbs[i], writes[i], chains[i + 1], dbs[i + 1])
  }

  lemma FirstSave(c: Crypto, j: Codec, allocations: map<string, int64>, timestamp: int, empty: KeyValues, db: KeyValues)
    requires NewStore(empty)
    requires var ch := NewChain(c, allocations, timestamp);
             IsSaved(j, SaveBlock(j, empty, ch.blocks[0]), ch.state, db)
    ensures Persisted(j, db, NewChain(c, allocations, timestamp))
  {
    var ch := NewChain(c, allocations, timestamp);
    var mid := SaveBlock(j, empty, ch.blocks[0]);
    KeyOf(BLOCK, Decimal(0));
    Disjoint(BlockKey(0));
    assert HoldsBlocks(j, mid, ch.blocks);
    forall k | IsState(k)
      ensures Lookup(mid, k) == AfterSave(j, map[], L.Initial(map[]), k)
    {
      Disjoint(k);
    }
    SaveStateHolds(j, mid, L.Initial(map[]), ch.state, db);
    SaveStateKeepsBlocks(j, mid, ch.state, db, ch.blocks);
  }

  lemma CommitKeeps(c: Crypto, j: Codec, allocations: map<string, int64>, ch: Chain, db: KeyValues, b: Block,
                    ch': Chain, db': KeyValues)
    requires DerivedBut(c, allocations, ch) && Persisted(j, db, ch) && |ch.blocks| <= MAX
    requires Writes(c, j, ch, db, Commit(b), ch', db')
    ensures DerivedBut(c, allocations, ch') && Persisted(j, db', ch')
    ensures |ch'.blocks| == |ch.blocks| + 1
  {
    hide DerivedBut, Persisted, IsSaved;
    var key :| AddBlock(c, ch, b, key) == Ok(ch');
    AddBlockRuns(c, ch, b, key);
    AddBlockDerivedBut(c, allocations, ch, b, key);
    DerivedButWellFormed(c, allocations, ch);
    DerivedButWellFormed(c, allocations, ch');
    CommitPersists(c, j, ch, db, b, key, ch', db');
  }

  lemma CommitPersists(c: Crypto, j: Codec, ch: Chain, db: KeyValues, b: Block, key: string, ch': Chain, db': KeyValues)
    requires Laws.WellFormed(ch.state) && Persisted(j, db, ch) && |ch.blocks| > 0 && b.index == |ch.blocks| <= MAX
    requires AddBlock(c, ch, b, key) == Ok(ch') && IsSaved(j, SaveBlock(j, db, b), ch'.state, db')
    ensures Persisted(j, db', ch')
  {
    hide AddBlock, Holds, HoldsBlocks, IsSaved, SaveBlock;
    AddBlockRuns(c, ch, b, key);
    Laws.RunKeeps(c, ch.state, b.txs);
    SaveBlockHolds(j, db, ch, b);
    SaveStateHolds(j, SaveBlock(j, db, b), ch.state, ch'.state, db');
    SaveStateKeepsBlocks(j, SaveBlock(j, db, b), ch'.state, db', ch'.blocks);
  }

  lemma ContractKeeps(j: Codec, db: KeyValues, ch: Chain, id: string, data: string)
    requires Persisted(j, db, ch)
    ensures Persisted(j, db[CONTRACT + id := data], ch)
  {
    var db' := db[CONTRACT + id := data];
    KeyOf(CONTRACT, id);
    Disjoint(CONTRACT + id);
    forall i | 0 <= i < |ch.blocks|
      ensures Lookup(db', BlockKey(i)) == Lookup(db, BlockKey(i))
    {
      KeyOf(BLOCK, Decimal(i));
    }
  }

  /** A restart reads the chain back, less a balance under the empty address, and leaves the store holding just that. */
  lemma RestartKeeps(c: Crypto, j: Codec, allocations: map<string, int64>, ch: Chain, db: KeyValues, ch': Chain, db': KeyValues)
    requires DerivedBut(c, allocations, ch) && Persisted(j, db, ch) && 0 < |ch.blocks| <= MAX && RoundTrips(j, ch)
    requires Writes(c, j, ch, db, Restart, ch', db')
    ensures ch' == Chain(ch.blocks, Reloaded(ch.state))
    ensures DerivedBut(c, allocations, ch') && Persisted(j, db', ch')
  {
    hide DerivedBut, HoldsBlocks;
    AllBlocksReadBack(j, db, ch.blocks);
    DerivedButWellFormed(c, allocations, ch);
    StateReadBackIff(j, db, ch.state, ch'.state);
    ReloadedDerivedBut(c, allocations, ch);
    forall k | IsState(k)
      ensures AfterSave(j, map[], ch'.state, k) == AfterSave(j, map[], ch.state, k)
    {
      Disjoint(k);
      if Under(BALANCE, k) {
        KeyIs(BALANCE, k);
        assert Rest(BALANCE, k) != "";
      }
    }
  }

  lemma {:induction false} RunPersisted(c: Crypto, j: Codec, allocations: map<string, int64>, timestamp: int,
                                        chains: seq<Chain>, dbs: seq<KeyValues>, writes: seq<Write>, n: nat)
    requires PersistedRun(c, j, allocations, timestamp, chains, dbs, writes) && n < |chains| <= MAX
    requires forall i :: 0 <= i < n ==> RoundTrips(j, chains[i])
    ensures DerivedBut(c, allocations, chains[n]) && Persisted(j, dbs[n], chains[n]) && 0 < |chains[n].blocks| <= n + 1
  {
    hide Derived, DerivedBut, Persisted, AddBlock, IsSaved, NewStore, RoundTrips, LoadAllBlocks, Loaded;
    if n == 0 {
      var empty :| NewStore(empty) && IsSaved(j, SaveBlock(j, empty, chains[0].blocks[0]), chains[0].state, dbs[0]);
      FirstSave(c, j, allocations, timestamp, empty, dbs[0]);
      NewChainDerivedBut(c, allocations, timestamp);
    } else {
      RunPersisted(c, j, allocations, timestamp, chains, dbs, writes, n - 1);
      assert Writes(c, j, chains[n - 1], dbs[n - 1], writes[n - 1], chains[n], dbs[n]);
      match writes[n - 1]
      case Commit(b) => CommitKeeps(c, j, allocations, chains[n - 1], dbs[n - 1], b, chains[n], dbs[n]);
      case Contract(id, data) => ContractKeeps(j, dbs[n - 1], chains[n - 1], id, data);
      case Restart => RestartKeeps(c, j, allocations, chains[n - 1], dbs[n - 1], chains[n], dbs[n]);
    }
  }

  lemma NewChainDerivedBut(c: Crypto, allocations: map<string, int64>, timestamp: int)
    ensures DerivedBut(c, allocations, NewChain(c, allocations, timestamp))
  {
    NewChainDerived(c, allocations, timestamp);
  }

  /** A store without a chain loads as no blocks and an empty state: the node starts from genesis. */
  lemma NewStoreIsEmpty(j: Codec, db: KeyValues)
    requires NewStore(db)
    ensures LoadHeight(db) == Some(-1) && LoadAllBlocks(j, db) == Some([])
    ensures AllReadable(j, db) && Loaded(j, db, L.Initial(map[]))
  {
    Disjoint(META_HEIGHT);
    forall k | k in db
      ensures !Under(BALANCE, k) && !Under(NONCE, k) && !Under(LOCK, k) && k != META_HEIGHT
    {
      Disjoint(k);
    }
  }

  // ----- Reading back -----

  lemma {:induction false} BlocksReadBack(j: Codec, db: KeyValues, blocks: seq<Block>, n: nat)
    requires BlocksRoundTrip(j, blocks) && HoldsBlocks(j, db, blocks) && n <= |blocks|
    ensures LoadBlocks(j, db, n) == Some(blocks[..n])
  {
    if n == 0 {
    } else {
      BlocksReadBack(j, db, blocks, n - 1);
      assert Lookup(db, BlockKey(n - 1)) == Some(j.EncodeBlock(blocks[n - 1]));
      assert j.DecodeBlock(j.EncodeBlock(blocks[n - 1])) == Some(blocks[n - 1]);
      assert blocks[..n] == blocks[..n - 1] + [blocks[n - 1]];
    }
  }

  lemma AllBlocksReadBack(j: Codec, db: KeyValues, blocks: seq<Block>)
    requires BlocksRoundTrip(j, blocks) && HoldsBlocks(j, db, blocks) && 0 < |blocks| <= MAX
    ensures LoadAllBlocks(j, db) == Some(blocks)
  {
    ScanDecimal(|blocks| - 1);
    BlocksReadBack(j, db, blocks, |blocks|);
    assert blocks[..|blocks|] == blocks;
  }

  lemma EntryReadable(j: Codec, db: KeyValues, s: L.State, k: string)
    requires LocksRoundTrip(j, s.locked) && Holds(j, db, s) && k in db
    ensures Readable(j, k, db[k])
  {
    Disjoint(k);
    if IsState(k) {
      assert Lookup(db, k) == AfterSave(j, map[], s, k);
      if Under(BALANCE, k) {
        ScanDecimal(s.balances[Rest(BALANCE, k)]);
      } else if Under(NONCE, k) {
        ScanDecimal(s.nonces[Rest(NONCE, k)]);
      } else {
        assert j.DecodeLock(j.EncodeLock(s.locked[Rest(LOCK, k)])).Some?;
      }
    }
  }

  /** One decimal family reads back every entry except the one with the empty name. */
  lemma IntsReadBack(j: Codec, prefix: string, db: KeyValues, m: map<string, int64>, m': map<string, int64>)
    requires forall a :: a != "" ==> Lookup(db, prefix + a) == if a in m then Some(Decimal(m[a])) else None
    requires IntsLoaded(prefix, db, m')
    ensures m' == m - {""}
  {
    hide Decimal, Scan;
    forall a
      ensures a in m' <==> a in m && a != ""
      ensures a in m' ==> m'[a] == m[a]
    {
      KeyOf(prefix, a);
      assert a != "" ==> Lookup(db, prefix + a) == if a in m then Some(Decimal(m[a])) else None;
      if a in m {
        ScanDecimal(m[a]);
      }
    }
  }

  lemma LocksReadBack(j: Codec, db: KeyValues, m: map<string, L.EscrowLock>, m': map<string, L.EscrowLock>)
    requires LocksRoundTrip(j, m)
    requires forall c :: Lookup(db, LOCK + c) == if c in m then Some(j.EncodeLock(m[c])) else None
    requires forall c :: c in m ==> c != "" && m[c].contractId == c
    requires LocksLoaded(j, db, m')
    ensures m' == m
  {
    forall c | c in m
      ensures c in m'
    {
      KeyOf(LOCK, c);
      assert Lookup(db, LOCK + c).Some?;
      assert j.DecodeLock(db[LOCK + c]) == Some(m[c]);
    }
    forall c | c in m'
      ensures c in m && m[c] == m'[c]
    {
      var k :| k in db && Matches(LOCK, k) && j.DecodeLock(db[k]) == Some(m'[c]) && m'[c].contractId == c;
      var c0 := Rest(LOCK, k);
      KeyIs(LOCK, k);
      assert Lookup(db, LOCK + c0) == if c0 in m then Some(j.EncodeLock(m[c0])) else None;
      assert j.DecodeLock(db[k]) == Some(m[c0]);
    }
  }

  /**
   * The state that comes back is the state that was saved, less a balance held under the empty address. So the
   * round trip is exact if and only if no such balance exists.
   */
  lemma StateReadBackIff(j: Codec, db: KeyValues, s: L.State, s': L.State)
    requires LocksRoundTrip(j, s.locked) && Laws.WellFormed(s) && Holds(j, db, s) && Loaded(j, db, s')
    ensures s' == Reloaded(s)
    ensures s' == s <==> "" !in s.balances
  {
    EntriesReadBack(j, db, s, s');
    ReloadedIsSame(s);
  }

  lemma EmptyNameMatters(m: map<string, int64>)
    ensures m - {""} == m <==> "" !in m
  {
    if "" in m {
      assert "" !in m - {""};
    }
  }

  lemma EntriesReadBack(j: Codec, db: KeyValues, s: L.State, s': L.State)
    requires LocksRoundTrip(j, s.locked) && Laws.WellFormed(s) && Holds(j, db, s) && Loaded(j, db, s')
    ensures s'.balances == s.balances - {""} && s'.nonces == s.nonces && s'.locked == s.locked
  {
    forall a {:trigger BALANCE + a} {:trigger NONCE + a} {:trigger LOCK + a}
      ensures a != "" ==> Lookup(db, BALANCE + a) == if a in s.balances then Some(Decimal(s.balances[a])) else None
      ensures Lookup(db, NONCE + a) == if a in s.nonces then Some(Decimal(s.nonces[a])) else None
      ensures Lookup(db, LOCK + a) == if a in s.locked then Some(j.EncodeLock(s.locked[a])) else None
    {
      HeldEntry(j, db, s, a);
    }
    IntsReadBack(j, BALANCE, db, s.balances, s'.balances);
    IntsReadBack(j, NONCE, db, s.nonces, s'.nonces);
    EmptyNameMatters(s.nonces);
    forall c | c in s.locked
      ensures c != "" && s.locked[c].contractId == c
    {
      assert Laws.LockOk(c, s.locked[c]);
    }
    LocksReadBack(j, db, s.locked, s'.locked);
  }

  lemma HeldEntry(j: Codec, db: KeyValues, s: L.State, a: string)
    requires Holds(j, db, s)
    ensures a != "" ==> Lookup(db, BALANCE + a) == if a in s.balances then Some(Decimal(s.balances[a])) else None
    ensures Lookup(db, NONCE + a) == if a in s.nonces then Some(Decimal(s.nonces[a])) else None
    ensures Lookup(db, LOCK + a) == if a in s.locked then Some(j.EncodeLock(s.locked[a])) else None
  {
    KeyOf(BALANCE, a);
    KeyOf(NONCE, a);
    KeyOf(LOCK, a);
    Disjoint(BALANCE + a);
    Disjoint(NONCE + a);
    Disjoint(LOCK + a);
    assert a != "" ==> Lookup(db, BALANCE + a) == AfterSave(j, map[], s, BALANCE + a);
    assert Lookup(db, NONCE + a) == AfterSave(j, map[], s, NONCE + a);
    assert Lookup(db, LOCK + a) == AfterSave(j, map[], s, LOCK + a);
  }

  /**
   * Restart: after any run of commits, contract records and earlier restarts, the blocks read back are the chain's blocks,
   * they pass ValidateChain, and any state LoadState returns is the chain's less a balance held under "": equal to it
   * exactly when there is none, and in every case to the fold of all transactions but for that one balance.
   */
  lemma RestartRoundTrip(c: Crypto, j: Codec, allocations: map<string, int64>, timestamp: int,
                         chains: seq<Chain>, dbs: seq<KeyValues>, writes: seq<Write>, n: nat, loaded: L.State)
    requires PersistedRun(c, j, allocations, timestamp, chains, dbs, writes) && n < |chains| <= MAX
    requires forall i :: 0 <= i <= n ==> RoundTrips(j, chains[i])
    requires Loaded(j, dbs[n], loaded)
    ensures LoadAllBlocks(j, dbs[n]) == Some(chains[n].blocks)
    ensures ChainValid(c, chains[n].blocks)
    ensures AllReadable(j, dbs[n])
    ensures loaded == Reloaded(chains[n].state)
    ensures loaded == chains[n].state <==> "" !in chains[n].state.balances
    ensures DerivedBut(c, allocations, Chain(chains[n].blocks, loaded))
  {
    hide DerivedBut, ChainValid;
    RunPersisted(c, j, allocations, timestamp, chains, dbs, writes, n);
    AllBlocksReadBack(j, dbs[n], chains[n].blocks);
    DerivedButWellFormed(c, allocations, chains[n]);
    ReloadedDerivedBut(c, allocations, chains[n]);
    forall k | k in dbs[n]
      ensures Readable(j, k, dbs[n][k])
    {
      EntryReadable(j, dbs[n], chains[n].state, k);
    }
    StateReadBackIff(j, dbs[n], chains[n].state, loaded);
  }

  /** The failing family is reachable: a TRANSFER to the empty address is accepted by the ledger. */
  lemma EmptyAddressIsAccepted(t: Tx, s: L.State)
    requires t.kind.Transfer? && t.to == "" && t.from != "" && t.amount > 0
    requires L.Get(s.balances, t.from) >= t.amount && t.nonce == L.Get(s.nonces, t.from)
    ensures L.CheckRules(t, s).Pass? && "" in L.Effect(t, s).balances
  {
  }
}
