/** What the store does with any database, whatever its contents: keys, reads, batches, opening, pruning and loading,
    with the entries that do not decode. */
module StoreContents {
  import opened Encoding
  import opened Blocks
  import opened Ledgers
  import opened LedgerTheorems
  import opened RunTheorems
  import opened RefusalTheorems
  import opened StoreStates
  import opened StoreTheorems
  import opened PersistenceTheorems
  import opened ReloadTheorems

  // ---------------------------------------------------------------- keys

  /** The bytes of a text. */
  ghost predicate Spells(bytes: Bytes, text: string) {
    |bytes| == |text| && forall i | 0 <= i < |bytes| :: bytes[i] == text[i] as int
  }

  /** The texts of the four key spaces, and what follows them. */
  lemma {:induction false} KeyTexts(h: U64, x: Hash, id: Hash)
    ensures Spells(HEIGHT_PREFIX, "block:height:") && HeightKey(h) == HEIGHT_PREFIX + LittleEndian(h, 8)
    ensures Spells(HASH_PREFIX, "block:hash:") && HashKey(x) == HASH_PREFIX + x
    ensures Spells(TX_PREFIX, "tx:") && TxKey(id) == TX_PREFIX + id
    ensures Spells(METADATA_KEY, "meta:chain")
  {
  }

  // ---------------------------------------------------------------- reads

  /** An entry that is there and does not decode. */
  ghost predicate Unreadable(c: Codec, s: StoreState, h: U64) {
    HeightKey(h) in s.data && c.decodeBlock(s.data[HeightKey(h)]).None?
  }

  /** A block lookup fails exactly on an entry that does not decode, and finds nothing exactly without an entry. */
  lemma {:induction false} BlockLookupExact(c: Codec, s: StoreState, h: U64)
    ensures BlockByHeight(c, s, h).Err? <==> Unreadable(c, s, h)
    ensures BlockByHeight(c, s, h).Err? ==> BlockByHeight(c, s, h).error == DeserializationError("Block")
    ensures BlockByHeight(c, s, h) == Ok(None) <==> HeightKey(h) !in s.data
    ensures forall b :: BlockByHeight(c, s, h) == Ok(Some(b))
                   <==> HeightKey(h) in s.data && c.decodeBlock(s.data[HeightKey(h)]) == Some(b)
  {
  }

  /** The same by hash. */
  lemma {:induction false} HashLookupExactly(c: Codec, s: StoreState, x: Hash)
    ensures BlockByHash(c, s, x).Err? <==> HashKey(x) in s.data && c.decodeBlock(s.data[HashKey(x)]).None?
    ensures BlockByHash(c, s, x) == Ok(None) <==> HashKey(x) !in s.data
    ensures forall b :: BlockByHash(c, s, x) == Ok(Some(b))
                   <==> HashKey(x) in s.data && c.decodeBlock(s.data[HashKey(x)]) == Some(b)
  {
  }

  /** The block a transaction's location leads to. */
  ghost predicate LeadsTo(c: Codec, s: StoreState, id: Hash, b: Block) {
    && TxKey(id) in s.data && c.decodeLocation(s.data[TxKey(id)]).Some?
    && BlockByHeight(c, s, c.decodeLocation(s.data[TxKey(id)]).value.blockHeight) == Ok(Some(b))
  }

  /** A transaction lookup fails exactly on a location or a located block that does not decode; it finds `t` exactly if
      the location leads to a block whose first transaction with the id is `t`. */
  lemma {:induction false} TransactionLookupExact(c: Codec, s: StoreState, id: Hash, t: Transaction)
    ensures StoredTx(c, s, id).Err?
       <==> && TxKey(id) in s.data
            && (|| c.decodeLocation(s.data[TxKey(id)]).None?
                || Unreadable(c, s, c.decodeLocation(s.data[TxKey(id)]).value.blockHeight))
    ensures StoredTx(c, s, id) == Ok(Some(t))
       <==> exists b :: LeadsTo(c, s, id, b) && FindTx(b.transactions, id) == Some(t)
  {
    if TxKey(id) in s.data && c.decodeLocation(s.data[TxKey(id)]).Some? {
      var found := BlockByHeight(c, s, c.decodeLocation(s.data[TxKey(id)]).value.blockHeight);
      if found.Ok? && found.value.Some? {
        assert LeadsTo(c, s, id, found.value.value);
      }
    }
  }

  /** The latest block on any store: none if nothing was recorded, and otherwise what is under the recorded height. */
  lemma {:induction false} LatestLookupExact(c: Codec, s: StoreState)
    ensures var h, nothing := s.metadata.chainHeight, s.metadata.chainHeight == 0 && s.metadata.latestBlockHash == ZERO;
            && (LatestBlock(c, s).Err? <==> !nothing && Unreadable(c, s, h))
            && (LatestBlock(c, s) == Ok(None) <==> nothing || HeightKey(h) !in s.data)
            && forall b :: LatestBlock(c, s) == Ok(Some(b)) <==> !nothing && BlockByHeight(c, s, h) == Ok(Some(b))
  {
    BlockLookupExact(c, s, s.metadata.chainHeight);
  }

  // ---------------------------------------------------------------- metadata

  /** Storing a block on any store raises the recorded height, hash and time if the block is higher than any before,
      saving them; it leaves everything recorded alone otherwise. */
  lemma {:induction false} StoreRaises(c: Codec, s: StoreState, b: Block)
    ensures var m := StoreBlock(c, s, b).metadata;
            && s.metadata.chainHeight <= m.chainHeight && b.header.height <= m.chainHeight
            && (m.chainHeight == s.metadata.chainHeight || m.chainHeight == b.header.height)
            && (m == s.metadata <==> b.header.height <= s.metadata.chainHeight)
            && (m != s.metadata ==>
                  && m.latestBlockHash == b.header.hash && m.latestBlockTimestamp == b.header.timestamp
                  && m.genesisHash == s.metadata.genesisHash && m.totalTransactions == s.metadata.totalTransactions
                  && m.lastUpdated == s.metadata.lastUpdated && MetadataSaved(c, StoreBlock(c, s, b)))
  {
  }

  /** Storing a chain into any store records its genesis hash and its number of transactions, whatever was recorded
      before, and a height at least its own. */
  lemma {:induction false} StoreChainRecords(c: Codec, s: StoreState, chain: Ledger)
    requires |chain.blocks| == chain.height + 1
    ensures var stored := StoreChain(c, s, chain);
            && stored.metadata.genesisHash == chain.genesisHash
            && stored.metadata.totalTransactions == TransactionCount(chain) && MetadataSaved(c, stored)
            && forall b | b in chain.blocks :: b.header.height <= stored.metadata.chainHeight
  {
    StoreBlocksRaise(c, s, chain.blocks);
  }

  lemma {:induction false} StoreBlocksRaise(c: Codec, s: StoreState, bs: seq<Block>)
    ensures forall b | b in bs :: b.header.height <= StoreBlocks(c, s, bs).metadata.chainHeight
  {
    if bs != [] {
      var n := |bs| - 1;
      StoreBlocksRaise(c, s, bs[..n]);
      StoreRaises(c, StoreBlocks(c, s, bs[..n]), bs[n]);
      assert bs == bs[..n] + [bs[n]];
    }
  }

  // ---------------------------------------------------------------- write_batch

  /** Operation `i` is the last on the key. */
  ghost predicate LastOn(ops: seq<WriteOperation>, key: Bytes, i: nat) {
    i < |ops| && ops[i].key == key && forall j | i < j < |ops| :: ops[j].key != key
  }

  /** What an operation leaves under its key. */
  function Effect(op: WriteOperation): Option<Bytes> {
    match op
    case Put(_, value) => Some(value)
    case Delete(_) => None
  }

  /** What is under the key after the first `n` operations. */
  function EntryAfter(data: map<Bytes, Bytes>, ops: seq<WriteOperation>, n: nat, key: Bytes): Option<Bytes>
    requires n <= |ops|
  {
    Entry(ApplyBatch(data, ops[..n]), key)
  }

  lemma {:induction false} BatchStep(data: map<Bytes, Bytes>, ops: seq<WriteOperation>, n: nat, key: Bytes)
    requires 0 < n <= |ops|
    ensures EntryAfter(data, ops, n, key)
         == if ops[n - 1].key == key then Effect(ops[n - 1]) else EntryAfter(data, ops, n - 1, key)
  {
    assert ops[..n][..n - 1] == ops[..n - 1];
  }

  /** A batch leaves under each key what its last operation on the key says. */
  lemma {:induction false} BatchExact(data: map<Bytes, Bytes>, ops: seq<WriteOperation>, key: Bytes, i: nat)
    requires LastOn(ops, key, i)
    ensures Entry(ApplyBatch(data, ops), key) == Effect(ops[i])
  {
    BatchStep(data, ops, i + 1, key);
    BatchLeaves(data, ops, key, i + 1, |ops|);
    assert ops[..|ops|] == ops;
  }

  /** And operations on other keys leave it alone. */
  lemma {:induction false} BatchLeaves(data: map<Bytes, Bytes>, ops: seq<WriteOperation>, key: Bytes, m: nat, n: nat)
    requires m <= n <= |ops| && forall j | m <= j < n :: ops[j].key != key
    ensures EntryAfter(data, ops, n, key) == EntryAfter(data, ops, m, key)
    decreases n
  {
    if m < n {
      BatchLeaves(data, ops, key, m, n - 1);
      BatchStep(data, ops, n, key);
    }
  }

  // ---------------------------------------------------------------- opening

  /** Opening fails exactly on a metadata entry that does not decode; otherwise the data stay as they are. */
  lemma {:induction false} OpenExact(c: Codec, data: map<Bytes, Bytes>, now: U64)
    ensures Reopen(c, data, now).Err? <==> METADATA_KEY in data && c.decodeMetadata(data[METADATA_KEY]).None?
    ensures Reopen(c, data, now).Err? ==> Reopen(c, data, now).error == DeserializationError("Metadata")
    ensures Reopen(c, data, now).Ok? ==> Reopen(c, data, now).value.data == data
    ensures Reopen(c, data, now).Ok? && METADATA_KEY in data ==>
              c.decodeMetadata(data[METADATA_KEY]) == Some(Reopen(c, data, now).value.metadata)
  {
  }

  /** Any database without metadata opens, with height 0, zero hashes and no transactions. */
  lemma {:induction false} OpenWithoutMetadata(c: Codec, data: map<Bytes, Bytes>, now: U64)
    requires METADATA_KEY !in data
    ensures Reopen(c, data, now).Ok?
    ensures var s := Reopen(c, data, now).value;
            && s.data == data && s.metadata.chainHeight == 0 && s.metadata.totalTransactions == 0
            && s.metadata.genesisHash == Zeros(32) && s.metadata.latestBlockHash == Zeros(32)
            && s.metadata.latestBlockTimestamp == 0 && s.metadata.lastUpdated == now
            && LatestBlock(c, s) == Ok(None)
  {
  }

  /** First start: an empty database opens as the store of `new_memory`; a chain stored into it is mirrored, loads back
      exactly under the condition of the round trip, and the database opens again to the same store. */
  lemma {:induction false} FirstStart(env: Env, c: Codec, validators: seq<PublicKey>, timestamp: U64, chain: Ledger,
                                      now: U64, later: U64)
    requires Lawful(c) && 1 <= |validators| < 0x1_0000_0000 && Grown(env, validators, timestamp, chain)
    ensures chain.blocks != [] && |chain.blocks| == chain.height + 1
    ensures Reopen(c, map[], now) == Ok(FreshStore(now))
    ensures var s := StoreChain(c, Reopen(c, map[], now).value, chain);
            && Mirrors(c, s, chain) && Reopen(c, s.data, later) == Ok(s)
            && (|| (Load(env, c, s) == Ok(chain) <==> |validators| == 1 && !LooksEmpty(chain.blocks))
                || HasCollision(env.hash, GenesisInputs(env, chain.blocks)))
  {
    StoredRecords(env, c, validators, timestamp, chain, now);
    RoundTripExact(env, c, validators, timestamp, chain, now);
    ReopenRestores(env, c, FreshStore(now), chain, [], later);
  }

  // ---------------------------------------------------------------- pruning

  /** A block at height `h` that is older than the cutoff. */
  ghost predicate OldAt(c: Codec, s: StoreState, cutoff: U64, h: U64, b: Block) {
    BlockByHeight(c, s, h) == Ok(Some(b)) && b.header.timestamp < cutoff
  }

  lemma {:induction false} ScanRefuses(c: Codec, s: StoreState, cutoff: U64, n: nat)
    requires n < 0x1_0000_0000_0000_0000
    ensures ScanOld(c, s, cutoff, n).Err? <==> exists h: U64 :: 1 <= h <= n && Unreadable(c, s, h)
    ensures ScanOld(c, s, cutoff, n).Err? ==> ScanOld(c, s, cutoff, n).error == DeserializationError("Block")
  {
    if n > 0 {
      ScanRefuses(c, s, cutoff, n - 1);
      BlockLookupExact(c, s, n);
      if Unreadable(c, s, n) {
        assert 1 <= n <= n && Unreadable(c, s, n);
      }
    }
  }

  /** Which keys a scan marks: those of every old block, under the height it was found at. */
  ghost predicate Marked(c: Codec, s: StoreState, cutoff: U64, n: nat, key: Bytes) {
    exists h: U64, b :: 1 <= h <= n && OldAt(c, s, cutoff, h, b) && key in DeletedKeys(DeleteBlock(h, b))
  }

  lemma {:induction false} ScanMarks(c: Codec, s: StoreState, cutoff: U64, n: nat, key: Bytes)
    requires n < 0x1_0000_0000_0000_0000 && ScanOld(c, s, cutoff, n).Ok?
    ensures key in DeletedKeys(ScanOld(c, s, cutoff, n).value.operations) <==> Marked(c, s, cutoff, n, key)
  {
    if n == 0 {
      assert DeletedKeys([]) == {};
    } else {
      var before, found := ScanOld(c, s, cutoff, n - 1).value, BlockByHeight(c, s, n).value;
      ScanMarks(c, s, cutoff, n - 1, key);
      if found.Some? && found.value.header.timestamp < cutoff {
        DeletedKeysConcat(before.operations, DeleteBlock(n, found.value));
        assert OldAt(c, s, cutoff, n, found.value);
      }
      MarkedStep(c, s, cutoff, n, key);
    }
  }

  lemma {:induction false} MarkedStep(c: Codec, s: StoreState, cutoff: U64, n: nat, key: Bytes)
    requires 0 < n < 0x1_0000_0000_0000_0000
    ensures Marked(c, s, cutoff, n, key)
       <==> || Marked(c, s, cutoff, n - 1, key)
            || exists b :: OldAt(c, s, cutoff, n, b) && key in DeletedKeys(DeleteBlock(n, b))
  {
    if Marked(c, s, cutoff, n, key) {
      var h: U64, b :| 1 <= h <= n && OldAt(c, s, cutoff, h, b) && key in DeletedKeys(DeleteBlock(h, b));
      assert h <= n - 1 || h == n;
    }
    if b :| OldAt(c, s, cutoff, n, b) && key in DeletedKeys(DeleteBlock(n, b)) {
      assert 1 <= n <= n;
    }
  }

  /** `prune_before` on any store: it fails, and changes nothing, exactly if some height up to the recorded one holds an
      entry that does not decode; otherwise exactly the marked entries are gone and the metadata stay. */
  lemma {:induction false} PruneExact(c: Codec, s: StoreState, cutoff: U64, key: Bytes)
    ensures PruneBefore(c, s, cutoff).Err? <==> exists h: U64 :: 1 <= h <= s.metadata.chainHeight && Unreadable(c, s, h)
    ensures PruneBefore(c, s, cutoff).Ok? ==>
              var after := PruneBefore(c, s, cutoff).value.state;
              && after.metadata == s.metadata
              && Entry(after.data, key)
                 == if Marked(c, s, cutoff, s.metadata.chainHeight, key) then None else Entry(s.data, key)
  {
    var n := s.metadata.chainHeight;
    ScanRefuses(c, s, cutoff, n);
    if ScanOld(c, s, cutoff, n).Ok? {
      ScanMarks(c, s, cutoff, n, key);
      ScanSparesMetadata(c, s, cutoff, n);
      ApplyDeletes(s.data, ScanOld(c, s, cutoff, n).value.operations);
    }
  }

  // ---------------------------------------------------------------- loading

  /** The blocks at heights 1 to `n`, where there are any. */
  function Present(c: Codec, s: StoreState, n: nat): seq<Block>
    requires n < 0x1_0000_0000_0000_0000
  {
    if n == 0 then []
    else match BlockByHeight(c, s, n)
      case Ok(Some(b)) => Present(c, s, n - 1) + [b]
      case _ => Present(c, s, n - 1)
  }

  lemma {:induction false} ReplayAppend(env: Env, s: Ledger, bs: seq<Block>, b: Block)
    requires s.blocks != []
    ensures Replay(env, s, bs).Ok? ==> Replay(env, s, bs).value.blocks != []
    ensures Replay(env, s, bs + [b])
         == match Replay(env, s, bs) case Err(e) => Err(e) case Ok(r) => Extend(env, r, b)
    decreases |bs|
  {
    if bs == [] {
      assert bs + [b] == [b] && [b][1..] == [];
    } else {
      assert (bs + [b])[1..] == bs[1..] + [b];
      if Extend(env, s, bs[0]).Ok? {
        ReplayAppend(env, Extend(env, s, bs[0]).value, bs[1..], b);
      }
    }
  }

  /** If every entry decodes, the load loop is the replay of the blocks that are there, in order of height. */
  lemma {:induction false} LoadIsReplay(env: Env, c: Codec, s: StoreState, start: Ledger, n: nat)
    requires start.blocks != [] && n < 0x1_0000_0000_0000_0000
    requires forall h: U64 | 1 <= h <= n :: !Unreadable(c, s, h)
    ensures LoadUpTo(env, c, s, start, n) == Replay(env, start, Present(c, s, n))
  {
    if n > 0 {
      LoadIsReplay(env, c, s, start, n - 1);
      BlockLookupExact(c, s, n);
      if BlockByHeight(c, s, n).value.Some? {
        ReplayAppend(env, start, Present(c, s, n - 1), BlockByHeight(c, s, n).value.value);
      }
    }
  }

  /** An entry that does not decode ends the load there, unless the blocks below it were refused before. */
  lemma {:induction false} LoadMeetsUnreadable(env: Env, c: Codec, s: StoreState, start: Ledger, h: U64, n: nat)
    requires start.blocks != [] && 1 <= h <= n < 0x1_0000_0000_0000_0000 && Unreadable(c, s, h)
    requires forall k: U64 | 1 <= k < h :: !Unreadable(c, s, k)
    ensures LoadUpTo(env, c, s, start, n)
         == match Replay(env, start, Present(c, s, h - 1))
            case Err(e) => Err(e)
            case Ok(_) => Err(DeserializationError("Block"))
  {
    LoadIsReplay(env, c, s, start, h - 1);
    BlockLookupExact(c, s, h);
    LoadStops(env, c, s, start, h, n);
  }

  /** Why a load is refused before anything is replayed, and what is replayed otherwise. */
  lemma {:induction false} LoadBegins(env: Env, c: Codec, s: StoreState)
    ensures NothingSaved(s) ==> Load(env, c, s) == Err(InvalidInput("No blockchain data in storage"))
    ensures !NothingSaved(s) && HeightKey(0) !in s.data ==>
              Load(env, c, s) == Err(BlockNotFound("Genesis block not found"))
    ensures !NothingSaved(s) && Unreadable(c, s, 0) ==> Load(env, c, s) == Err(DeserializationError("Block"))
    ensures forall g | !NothingSaved(s) && BlockByHeight(c, s, 0) == Ok(Some(g)) ::
              && Load(env, c, s) == LoadUpTo(env, c, s, Rebuilt(env, g), s.metadata.chainHeight)
              && Rebuilt(env, g).blocks == [GenesisBlock(env, [g.header.validator], g.header.timestamp)]
  {
    BlockLookupExact(c, s, 0);
  }
}
