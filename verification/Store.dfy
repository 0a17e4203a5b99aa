/** The in-memory database and the blockchain store over it, changed in place.  Every method is proved
    against the value functions of `StoreStates`. */
module Store {
  import opened Encoding
  import opened Blocks
  import opened Ledgers
  import opened StoreStates
  import opened Chain

  class MemoryDatabase {
    var data: map<Bytes, Bytes>

    constructor ()
      ensures data == map[]
    {
      data := map[];
    }

    method Get(key: Bytes) returns (r: Option<Bytes>)
      ensures r == Entry(data, key)
    {
      r := if key in data then Some(data[key]) else None;
    }

    method Put(key: Bytes, value: Bytes)
      modifies this
      ensures data == old(data)[key := value]
    {
      data := data[key := value];
    }

    method WriteBatch(operations: seq<WriteOperation>)
      modifies this
      ensures data == ApplyBatch(old(data), operations)
    {
      for i := 0 to |operations|
        invariant data == ApplyBatch(old(data), operations[..i])
      {
        assert operations[..i + 1][..i] == operations[..i];
        match operations[i]
        case Put(key, value) => data := data[key := value];
        case Delete(key) => data := data - {key};
      }
      assert operations[..|operations|] == operations;
    }
  }

  class BlockchainStore {
    const db: MemoryDatabase
    const codec: Codec
    var metadata: ChainMetadata

    function State(): StoreState
      reads this, db
    {
      StoreState(db.data, metadata)
    }

    /** `new_memory`: a fresh database and default metadata stamped with the clock. */
    constructor InMemory(codec: Codec, now: U64)
      ensures this.codec == codec && fresh(db) && State() == FreshStore(now)
    {
      this.codec := codec;
      metadata := FreshStore(now).metadata;
      db := new MemoryDatabase();
    }

    constructor Over(db: MemoryDatabase, codec: Codec, metadata: ChainMetadata)
      ensures this.db == db && this.codec == codec && this.metadata == metadata
    {
      this.db, this.codec, this.metadata := db, codec, metadata;
    }

    /** `BlockchainStore::new`: metadata is read back from the database, or defaulted. */
    static method Open(db: MemoryDatabase, codec: Codec, now: U64) returns (r: Result<BlockchainStore>)
      ensures match Reopen(codec, db.data, now)
              case Err(e) => r == Err(e)
              case Ok(s) =>
                r.Ok? && fresh(r.value) && r.value.db == db && r.value.codec == codec && r.value.State() == s
    {
      var entry := db.Get(METADATA_KEY);
      var metadata := FreshStore(now).metadata;
      if entry.Some? {
        var decoded := codec.decodeMetadata(entry.value);
        if decoded.None? {
          return Err(DeserializationError("Metadata"));
        }
        metadata := decoded.value;
      }
      var store := new BlockchainStore.Over(db, codec, metadata);
      r := Ok(store);
    }

    method SaveMetadata()
      modifies db
      ensures State() == StoreStates.SaveMetadata(codec, old(db.data), metadata)
    {
      db.Put(METADATA_KEY, codec.encodeMetadata(metadata));
    }

    method StoreBlock(block: Block)
      modifies this, db
      ensures State() == StoreStates.StoreBlock(codec, old(State()), block)
    {
      var height, hash := block.header.height, block.header.hash;
      var blockData := codec.encodeBlock(block);
      db.Put(HeightKey(height), blockData);
      db.Put(HashKey(hash), blockData);
      ghost var base := db.data;
      var location := TxLocation(height, hash);
      for i := 0 to |block.transactions|
        invariant metadata == old(metadata)
        invariant db.data == PutLocations(codec, base, block.transactions[..i], location)
      {
        assert block.transactions[..i + 1][..i] == block.transactions[..i];
        db.Put(TxKey(block.transactions[i].id), codec.encodeLocation(location));
      }
      assert block.transactions[..|block.transactions|] == block.transactions;
      if height > metadata.chainHeight {
        metadata := metadata.(chainHeight := height, latestBlockHash := hash,
                              latestBlockTimestamp := block.header.timestamp);
        SaveMetadata();
      }
    }

    method GetBlockByHeight(height: U64) returns (r: Result<Option<Block>>)
      ensures r == BlockByHeight(codec, State(), height)
    {
      var entry := db.Get(HeightKey(height));
      r := ReadBlock(codec, entry);
    }

    method GetTransaction(id: Hash) returns (r: Result<Option<Transaction>>)
      ensures r == StoredTx(codec, State(), id)
    {
      var entry := db.Get(TxKey(id));
      if entry.None? {
        return Ok(None);
      }
      var location := codec.decodeLocation(entry.value);
      if location.None? {
        return Err(DeserializationError("TX location"));
      }
      var block := GetBlockByHeight(location.value.blockHeight);
      match block
      case Err(e) => r := Err(e);
      case Ok(None) => r := Ok(None);
      case Ok(Some(b)) => r := Ok(FindTx(b.transactions, id));
    }

    /** Reading `blocks[height]` for every height up to the chain's own panics on a pruned chain. */
    method StoreBlockchain(chain: Blockchain)
      requires |chain.blocks| == chain.height + 1
      modifies this, db
      ensures State() == StoreChain(codec, old(State()), old(chain.State()))
    {
      ghost var start := State();
      var blocks, genesisHash, count := chain.blocks, chain.genesisHash, |chain.txToBlock|;
      for height := 0 to |blocks|
        invariant State() == StoreBlocks(codec, start, blocks[..height])
      {
        assert blocks[..height + 1][..height] == blocks[..height];
        StoreBlock(blocks[height]);
      }
      assert blocks[..|blocks|] == blocks;
      metadata := metadata.(genesisHash := genesisHash, totalTransactions := count);
      SaveMetadata();
    }

    method LoadBlockchain(env: Env, now: U64) returns (r: Result<Blockchain>)
      ensures match Load(env, codec, State())
              case Err(e) => r == Err(e)
              case Ok(chain) => r.Ok? && fresh(r.value) && r.value.State() == chain
    {
      if metadata.chainHeight == 0 && metadata.genesisHash == ZERO {
        return Err(InvalidInput("No blockchain data in storage"));
      }
      var genesis := GetBlockByHeight(0);
      if genesis.Err? {
        return Err(genesis.error);
      }
      if genesis.value.None? {
        return Err(BlockNotFound("Genesis block not found"));
      }
      var header := genesis.value.value.header;
      ghost var start := NewLedger(env, [header.validator], header.timestamp);
      var created := Blockchain.New(env, [header.validator], header.timestamp, now);
      var chain := created.value;
      r := Replay(env, chain, start);
    }

    /** The loop of `load_blockchain` over the stored heights. */
    method Replay(env: Env, chain: Blockchain, ghost start: Ledger) returns (r: Result<Blockchain>)
      requires start.blocks != [] && chain.State() == start
      modifies chain
      ensures State() == old(State())
      ensures match LoadUpTo(env, codec, State(), start, metadata.chainHeight)
              case Err(e) => r == Err(e)
              case Ok(s) => r == Ok(chain) && chain.State() == s
    {
      ghost var s := State();
      var n: nat := metadata.chainHeight;
      for height: nat := 1 to n + 1
        invariant s == old(State()) && State() == s && chain.blocks != []
        invariant LoadUpTo(env, codec, s, start, height - 1) == Ok(chain.State())
      {
        assert LoadUpTo(env, codec, s, start, height) == LoadNext(env, codec, s, chain.State(), height);
        var added := ReplayOne(env, chain, height);
        if added.Err? {
          LoadStops(env, codec, s, start, height, n);
          return Err(added.error);
        }
      }
      r := Ok(chain);
    }

    /** One height of the load: a stored block is added, a missing one skipped. */
    method ReplayOne(env: Env, chain: Blockchain, height: U64) returns (r: Result<()>)
      requires chain.blocks != []
      modifies chain
      ensures State() == old(State())
      ensures match LoadNext(env, codec, State(), old(chain.State()), height)
              case Err(e) => r == Err(e)
              case Ok(s) => r == Ok(()) && chain.State() == s
    {
      var block := GetBlockByHeight(height);
      match block
      case Err(e) => r := Err(e);
      case Ok(None) => r := Ok(());
      case Ok(Some(b)) => r := chain.AddBlock(env, b);
    }

    method PruneBefore(cutoff: U64) returns (r: Result<nat>)
      modifies db
      ensures match StoreStates.PruneBefore(codec, old(State()), cutoff)
              case Err(e) => r == Err(e) && State() == old(State())
              case Ok(outcome) => r == Ok(outcome.count) && State() == outcome.state
    {
      var scan := CollectOld(cutoff);
      if scan.Err? {
        return Err(scan.error);
      }
      if scan.value.operations != [] {
        db.WriteBatch(scan.value.operations);
      }
      r := Ok(scan.value.count);
    }

    /** The loop of `prune_before`: deletions are collected first and applied as one batch. */
    method CollectOld(cutoff: U64) returns (r: Result<PruneScan>)
      ensures r == ScanOld(codec, State(), cutoff, metadata.chainHeight)
    {
      var operations: seq<WriteOperation>, count := [], 0;
      for height := 1 to metadata.chainHeight + 1
        invariant ScanOld(codec, State(), cutoff, height - 1) == Ok(PruneScan(operations, count))
      {
        var block := GetBlockByHeight(height);
        if block.Err? {
          ScanStops(codec, State(), cutoff, height, metadata.chainHeight);
          return Err(block.error);
        }
        if block.value.Some? && block.value.value.header.timestamp < cutoff {
          operations := operations + DeleteBlock(height, block.value.value);
          count := count + 1;
        }
      }
      r := Ok(PruneScan(operations, count));
    }
  }

  /** An error at one height ends the prune scan. */
  lemma {:induction false} ScanStops(c: Codec, s: StoreState, cutoff: U64, n: nat, m: nat)
    requires n <= m < 0x1_0000_0000_0000_0000 && ScanOld(c, s, cutoff, n).Err?
    ensures ScanOld(c, s, cutoff, m) == ScanOld(c, s, cutoff, n)
    decreases m
  {
    if n < m {
      ScanStops(c, s, cutoff, n, m - 1);
    }
  }
}
