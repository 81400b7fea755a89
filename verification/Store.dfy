/** The store object: loops that write keys one by one and rebuild a state by walking over all keys. */
module Store {
  import opened Wrappers
  import opened Integers
  import opened Decimals
  import opened Blocks
  import opened Storage
  import L = Ledger
  import W = WorldState

  class Store {
    const codec: Codec
    var db: KeyValues

    constructor (codec: Codec, db: KeyValues)
      ensures this.codec == codec && this.db == db
    {
      this.codec := codec;
      this.db := db;
    }

    method SaveBlock(b: Block)
      modifies this
      ensures db == Storage.SaveBlock(codec, old(db), b)
    {
      db := db[BlockKey(b.index) := codec.EncodeBlock(b)];
      db := db[META_HEIGHT := Decimal(b.index)];
    }

    /** One family of decimal entries. */
    method SaveInts(prefix: string, m: map<string, int64>)
      modifies this
      ensures forall k :: Lookup(db, k) ==
                if Under(prefix, k) && Rest(prefix, k) in m then Some(Decimal(m[Rest(prefix, k)])) else Lookup(old(db), k)
    {
      var keys := m.Keys;
      while keys != {}
        invariant keys <= m.Keys
        invariant forall k :: Lookup(db, k) ==
                    if Under(prefix, k) && Rest(prefix, k) in m.Keys - keys then Some(Decimal(m[Rest(prefix, k)]))
                    else Lookup(old(db), k)
        decreases |keys|
      {
        var a :| a in keys;
        KeyOf(prefix, a);
        forall k | Under(prefix, k)
          ensures Rest(prefix, k) == a <==> k == prefix + a
        {
          KeyIs(prefix, k);
        }
        db := db[prefix + a := Decimal(m[a])];
        keys := keys - {a};
      }
    }

    method SaveLocks(locked: map<string, W.EscrowLock>)
      modifies this
      ensures forall k :: Lookup(db, k) ==
                if Under(LOCK, k) && Rest(LOCK, k) in locked then Some(codec.EncodeLock(locked[Rest(LOCK, k)].Value()))
                else Lookup(old(db), k)
    {
      var keys := locked.Keys;
      while keys != {}
        invariant keys <= locked.Keys
        invariant forall k :: Lookup(db, k) ==
                    if Under(LOCK, k) && Rest(LOCK, k) in locked.Keys - keys
                    then Some(codec.EncodeLock(locked[Rest(LOCK, k)].Value()))
                    else Lookup(old(db), k)
        decreases |keys|
      {
        var cid :| cid in keys;
        KeyOf(LOCK, cid);
        forall k | Under(LOCK, k)
          ensures Rest(LOCK, k) == cid <==> k == LOCK + cid
        {
          KeyIs(LOCK, k);
        }
        db := db[LOCK + cid := codec.EncodeLock(locked[cid].Value())];
        keys := keys - {cid};
      }
    }

    /** Upserts every balance, nonce and lock; deletes nothing. */
    method SaveState(state: W.State)
      requires state.Valid()
      modifies this
      ensures IsSaved(codec, old(db), state.Value(), db)
    {
      SaveInts(BALANCE, state.balances);
      SaveInts(NONCE, state.nonces);
      SaveLocks(state.locked);
      forall k
        ensures Lookup(db, k) == AfterSave(codec, old(db), state.Value(), k)
      {
        Disjoint(k);
      }
    }

    method SaveContract(id: string, data: string)
      modifies this
      ensures db == old(db)[CONTRACT + id := data]
    {
      db := db[CONTRACT + id := data];
    }

    /** Blocks 0 to the stored height; an empty list for an empty store, None on an unreadable entry. */
    method LoadAllBlocks() returns (blocks: Option<seq<Block>>)
      ensures blocks == Storage.LoadAllBlocks(codec, db)
    {
      var height := LoadHeight(db);
      if height.None? {
        return None;
      }
      if height.value < 0 {
        return Some([]);
      }
      var loaded: seq<Block> := [];
      var i := 0;
      while i <= height.value
        invariant 0 <= i <= height.value + 1
        invariant LoadBlocks(codec, db, i) == Some(loaded)
      {
        var b := LoadBlock(codec, db, i);
        if b.None? {
          LoadBlocksFails(codec, db, i, height.value + 1);
          return None;
        }
        loaded := loaded + [b.value];
        i := i + 1;
      }
      blocks := Some(loaded);
    }

    /** Files one entry in the state; false when it cannot be read. */
    method LoadKey(key: string, val: string, state: W.State) returns (ok: bool)
      requires state.Valid()
      modifies state
      ensures state.Valid() && fresh(state.Footprint() - old(state.Footprint()))
      ensures ok <==> Readable(codec, key, val)
      ensures ok ==> state.Value() == WithEntry(codec, old(state.Value()), key, val)
    {
      ghost var before := state.Value();
      if Matches(BALANCE, key) {
        var bal := Scan(val);
        if bal.None? {
          return false;
        }
        state.balances := state.balances[Rest(BALANCE, key) := bal.value];
        assert state.Value().locked == before.locked;
      } else if Matches(NONCE, key) {
        var nonce := Scan(val);
        if nonce.None? {
          return false;
        }
        state.nonces := state.nonces[Rest(NONCE, key) := nonce.value];
        assert state.Value().locked == before.locked;
      } else if Matches(LOCK, key) {
        var entry := codec.DecodeLock(val);
        if entry.None? {
          return false;
        }
        var l := entry.value;
        var lock := new W.EscrowLock(l.contractId, l.investor, l.founder, l.amount, l.status);
        state.locked := state.locked[l.contractId := lock];
        assert state.Value().locked == before.locked[l.contractId := l];
      }
      ok := true;
    }

    /** Rebuilds the state from every key of the store; fails on the first entry it cannot read. */
    method LoadState() returns (ok: bool, state: W.State)
      ensures state.Valid() && fresh(state.Footprint())
      ensures ok <==> AllReadable(codec, db)
      ensures ok ==> Loaded(codec, db, state.Value())
    {
      state := new W.State();
      var keys := db.Keys;
      SoFarStart(codec, db, state.Value());
      while keys != {}
        invariant keys <= db.Keys
        invariant state.Valid() && fresh(state.Footprint())
        invariant SoFar(codec, db, keys, state.Value())
        decreases |keys|
      {
        var key :| key in keys;
        SoFarStep(codec, db, keys, key, state.Value());
        ok := LoadKey(key, db[key], state);
        if !ok {
          return;
        }
        keys := keys - {key};
      }
      SoFarEnd(codec, db, state.Value());
      ok := true;
    }
  }

  /** All keys outside `keys` have been read, and the state is what they load to. */
  ghost predicate SoFar(j: Codec, db: KeyValues, keys: set<string>, s: L.State) {
    AllReadable(j, db - keys) && Loaded(j, db - keys, s)
  }

  lemma SoFarStart(j: Codec, db: KeyValues, s: L.State)
    requires s == L.Initial(map[])
    ensures SoFar(j, db, db.Keys, s)
  {
    assert db - db.Keys == map[];
  }

  lemma SoFarStep(j: Codec, db: KeyValues, keys: set<string>, key: string, s: L.State)
    requires SoFar(j, db, keys, s) && key in keys && keys <= db.Keys
    ensures Readable(j, key, db[key]) ==> SoFar(j, db, keys - {key}, WithEntry(j, s, key, db[key]))
  {
    if Readable(j, key, db[key]) {
      var seen, seen' := db - keys, db - (keys - {key});
      assert seen' == seen[key := db[key]];
      KeyLoaded(j, seen, key, db[key], s);
    }
  }

  lemma SoFarEnd(j: Codec, db: KeyValues, s: L.State)
    requires SoFar(j, db, {}, s)
    ensures AllReadable(j, db) && Loaded(j, db, s)
  {
    assert db - {} == db;
  }

  function WithEntry(j: Codec, s: L.State, key: string, val: string): L.State
    requires Readable(j, key, val)
  {
    if Matches(BALANCE, key) then s.(balances := s.balances[Rest(BALANCE, key) := Scan(val).value])
    else if Matches(NONCE, key) then s.(nonces := s.nonces[Rest(NONCE, key) := Scan(val).value])
    else if Matches(LOCK, key) then s.(locked := s.locked[j.DecodeLock(val).value.contractId := j.DecodeLock(val).value])
    else s
  }

  lemma {:induction false} LoadBlocksFails(j: Codec, db: KeyValues, i: nat, n: nat)
    requires i < n && LoadBlock(j, db, i).None?
    ensures LoadBlocks(j, db, n).None?
  {
    if i == n - 1 {
    } else {
      LoadBlocksFails(j, db, i, n - 1);
    }
  }

  lemma IntKeyLoaded(prefix: string, seen: KeyValues, key: string, val: string, m: map<string, int64>)
    requires IntsLoaded(prefix, seen, m) && key !in seen
    ensures Matches(prefix, key) && Scan(val).Some? ==>
              IntsLoaded(prefix, seen[key := val], m[Rest(prefix, key) := Scan(val).value])
    ensures !Matches(prefix, key) ==> IntsLoaded(prefix, seen[key := val], m)
  {
    if Matches(prefix, key) {
      KeyIs(prefix, key);
    }
    assert forall a :: a != "" ==> Matches(prefix, prefix + a);
  }

  lemma LockKeyLoaded(j: Codec, seen: KeyValues, key: string, val: string, m: map<string, L.EscrowLock>)
    requires LocksLoaded(j, seen, m) && key !in seen
    ensures Matches(LOCK, key) && j.DecodeLock(val).Some? ==>
              LocksLoaded(j, seen[key := val], m[j.DecodeLock(val).value.contractId := j.DecodeLock(val).value])
    ensures !Matches(LOCK, key) ==> LocksLoaded(j, seen[key := val], m)
  {
    var seen' := seen[key := val];
    if Matches(LOCK, key) && j.DecodeLock(val).Some? {
      var l := j.DecodeLock(val).value;
      var m' := m[l.contractId := l];
      forall c | c in m'
        ensures exists k :: k in seen' && Matches(LOCK, k) && j.DecodeLock(seen'[k]) == Some(m'[c]) && m'[c].contractId == c
      {
        if c == l.contractId {
          assert j.DecodeLock(seen'[key]) == Some(m'[c]);
        } else {
          var k :| k in seen && Matches(LOCK, k) && j.DecodeLock(seen[k]) == Some(m[c]) && m[c].contractId == c;
          assert seen'[k] == seen[k];
        }
      }
    } else if !Matches(LOCK, key) {
      forall c | c in m
        ensures exists k :: k in seen' && Matches(LOCK, k) && j.DecodeLock(seen'[k]) == Some(m[c]) && m[c].contractId == c
      {
        var k :| k in seen && Matches(LOCK, k) && j.DecodeLock(seen[k]) == Some(m[c]) && m[c].contractId == c;
        assert seen'[k] == seen[k];
      }
    }
  }

  /** One more key read: the state so far is what the keys so far load to. */
  lemma KeyLoaded(j: Codec, seen: KeyValues, key: string, val: string, s: L.State)
    requires Loaded(j, seen, s) && key !in seen && Readable(j, key, val)
    ensures Loaded(j, seen[key := val], WithEntry(j, s, key, val))
  {
    Disjoint(key);
    IntKeyLoaded(BALANCE, seen, key, val, s.balances);
    IntKeyLoaded(NONCE, seen, key, val, s.nonces);
    LockKeyLoaded(j, seen, key, val, s.locked);
  }
}
