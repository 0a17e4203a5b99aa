/** The persistent store as a value: a flat byte-key map under three prefixed key spaces and a metadata
    record, with the functions that its operations compute. */
module StoreStates {
  import opened Encoding
  import opened Blocks
  import opened Ledgers

  datatype TxLocation = TxLocation(blockHeight: U64, blockHash: Hash)

  datatype ChainMetadata = ChainMetadata(
    chainHeight: U64, genesisHash: Hash, latestBlockHash: Hash, latestBlockTimestamp: U64,
    totalTransactions: nat, lastUpdated: U64)

  /** bincode for the three record types that the store keeps. */
  datatype Codec = Codec(
    encodeBlock: Block -> Bytes, decodeBlock: Bytes -> Option<Block>,
    encodeLocation: TxLocation -> Bytes, decodeLocation: Bytes -> Option<TxLocation>,
    encodeMetadata: ChainMetadata -> Bytes, decodeMetadata: Bytes -> Option<ChainMetadata>)

  /** Decoding undoes encoding. */
  ghost predicate Lawful(c: Codec) {
    && (forall b :: c.decodeBlock(c.encodeBlock(b)) == Some(b))
    && (forall l :: c.decodeLocation(c.encodeLocation(l)) == Some(l))
    && (forall m :: c.decodeMetadata(c.encodeMetadata(m)) == Some(m))
  }

  datatype StoreState = StoreState(data: map<Bytes, Bytes>, metadata: ChainMetadata)

  function Entry(data: map<Bytes, Bytes>, key: Bytes): Option<Bytes> {
    if key in data then Some(data[key]) else None
  }

  // ---------------------------------------------------------------- keys

  const HEIGHT_PREFIX: Bytes := [98, 108, 111, 99, 107, 58, 104, 101, 105, 103, 104, 116, 58]  // "block:height:"
  const HASH_PREFIX: Bytes := [98, 108, 111, 99, 107, 58, 104, 97, 115, 104, 58]  // "block:hash:"
  const TX_PREFIX: Bytes := [116, 120, 58]  // "tx:"
  const METADATA_KEY: Bytes := [109, 101, 116, 97, 58, 99, 104, 97, 105, 110]  // "meta:chain"

  function HeightKey(h: U64): (r: Bytes) { HEIGHT_PREFIX + LittleEndian(h, 8) }

  function HashKey(x: Hash): (r: Bytes) { HASH_PREFIX + x }

  function TxKey(id: Hash): (r: Bytes) { TX_PREFIX + id }

  // ---------------------------------------------------------------- store_block

  function PutLocations(c: Codec, data: map<Bytes, Bytes>, transactions: seq<Transaction>,
                        location: TxLocation): map<Bytes, Bytes>
  {
    if transactions == [] then data
    else
      var n := |transactions| - 1;
      PutLocations(c, data, transactions[..n], location)[TxKey(transactions[n].id) := c.encodeLocation(location)]
  }

  function PutBlock(c: Codec, data: map<Bytes, Bytes>, b: Block): map<Bytes, Bytes> {
    PutLocations(c, data[HeightKey(b.header.height) := c.encodeBlock(b)][HashKey(b.header.hash) := c.encodeBlock(b)],
                 b.transactions, TxLocation(b.header.height, b.header.hash))
  }

  function SaveMetadata(c: Codec, data: map<Bytes, Bytes>, m: ChainMetadata): StoreState {
    StoreState(data[METADATA_KEY := c.encodeMetadata(m)], m)
  }

  function StoreBlock(c: Codec, s: StoreState, b: Block): StoreState {
    var data := PutBlock(c, s.data, b);
    if b.header.height > s.metadata.chainHeight then
      SaveMetadata(c, data, s.metadata.(chainHeight := b.header.height, latestBlockHash := b.header.hash,
                                        latestBlockTimestamp := b.header.timestamp))
    else StoreState(data, s.metadata)
  }

  // ---------------------------------------------------------------- lookups

  function ReadBlock(c: Codec, entry: Option<Bytes>): Result<Option<Block>> {
    match entry
    case None => Ok(None)
    case Some(bytes) =>
      match c.decodeBlock(bytes)
      case None => Err(DeserializationError("Block"))
      case Some(b) => Ok(Some(b))
  }

  function BlockByHeight(c: Codec, s: StoreState, h: U64): Result<Option<Block>> {
    ReadBlock(c, Entry(s.data, HeightKey(h)))
  }

  function BlockByHash(c: Codec, s: StoreState, x: Hash): Result<Option<Block>> {
    ReadBlock(c, Entry(s.data, HashKey(x)))
  }

  function StoredTx(c: Codec, s: StoreState, id: Hash): Result<Option<Transaction>> {
    match Entry(s.data, TxKey(id))
    case None => Ok(None)
    case Some(bytes) =>
      match c.decodeLocation(bytes)
      case None => Err(DeserializationError("TX location"))
      case Some(l) =>
        match BlockByHeight(c, s, l.blockHeight)
        case Err(e) => Err(e)
        case Ok(None) => Ok(None)
        case Ok(Some(b)) => Ok(FindTx(b.transactions, id))
  }

  function LatestBlock(c: Codec, s: StoreState): Result<Option<Block>> {
    if s.metadata.chainHeight == 0 && s.metadata.latestBlockHash == ZERO then Ok(None)
    else BlockByHeight(c, s, s.metadata.chainHeight)
  }

  // ---------------------------------------------------------------- store_blockchain, opening, load_blockchain

  function FreshStore(now: U64): StoreState { StoreState(map[], ChainMetadata(0, ZERO, ZERO, 0, 0, now)) }

  /** `BlockchainStore::new` over an existing database. */
  function Reopen(c: Codec, data: map<Bytes, Bytes>, now: U64): Result<StoreState> {
    match Entry(data, METADATA_KEY)
    case None => Ok(StoreState(data, FreshStore(now).metadata))
    case Some(bytes) =>
      match c.decodeMetadata(bytes)
      case None => Err(DeserializationError("Metadata"))
      case Some(m) => Ok(StoreState(data, m))
  }

  function StoreBlocks(c: Codec, s: StoreState, bs: seq<Block>): StoreState {
    if bs == [] then s else StoreBlock(c, StoreBlocks(c, s, bs[..|bs| - 1]), Last(bs))
  }

  /** Storing an unpruned chain: with fewer blocks than its height says, the source panics. */
  function StoreChain(c: Codec, s: StoreState, chain: Ledger): StoreState
    requires |chain.blocks| == chain.height + 1
  {
    var stored := StoreBlocks(c, s, chain.blocks);
    SaveMetadata(c, stored.data,
      stored.metadata.(genesisHash := chain.genesisHash, totalTransactions := TransactionCount(chain)))
  }

  /** One height of the replay: a missing block is skipped. */
  function LoadNext(env: Env, c: Codec, s: StoreState, chain: Ledger, h: U64): (r: Result<Ledger>)
    requires chain.blocks != []
    ensures r.Ok? ==> r.value.blocks != []
  {
    match BlockByHeight(c, s, h)
    case Err(e) => Err(e)
    case Ok(None) => Ok(chain)
    case Ok(Some(b)) => Extend(env, chain, b)
  }

  /** The replay loop of `load_blockchain` over heights 1 to `n`; missing heights are skipped. */
  function LoadUpTo(env: Env, c: Codec, s: StoreState, start: Ledger, n: nat): Result<Ledger>
    requires start.blocks != [] && n < 0x1_0000_0000_0000_0000
    ensures LoadUpTo(env, c, s, start, n).Ok? ==> LoadUpTo(env, c, s, start, n).value.blocks != []
  {
    if n == 0 then Ok(start)
    else match LoadUpTo(env, c, s, start, n - 1)
      case Err(e) => Err(e)
      case Ok(chain) => LoadNext(env, c, s, chain, n)
  }

  /** An error at one height ends the load. */
  lemma {:induction false} LoadStops(env: Env, c: Codec, s: StoreState, start: Ledger, n: nat, m: nat)
    requires start.blocks != [] && n <= m < 0x1_0000_0000_0000_0000 && LoadUpTo(env, c, s, start, n).Err?
    ensures LoadUpTo(env, c, s, start, m) == LoadUpTo(env, c, s, start, n)
    decreases m
  {
    if n < m {
      LoadStops(env, c, s, start, n, m - 1);
    }
  }

  function Load(env: Env, c: Codec, s: StoreState): Result<Ledger> {
    if s.metadata.chainHeight == 0 && s.metadata.genesisHash == ZERO then
      Err(InvalidInput("No blockchain data in storage"))
    else match BlockByHeight(c, s, 0)
      case Err(e) => Err(e)
      case Ok(None) => Err(BlockNotFound("Genesis block not found"))
      case Ok(Some(g)) =>
        LoadUpTo(env, c, s, NewLedger(env, [g.header.validator], g.header.timestamp), s.metadata.chainHeight)
  }

  // ---------------------------------------------------------------- prune_before

  datatype WriteOperation = Put(key: Bytes, value: Bytes) | Delete(key: Bytes)

  function ApplyBatch(data: map<Bytes, Bytes>, ops: seq<WriteOperation>): map<Bytes, Bytes> {
    if ops == [] then data
    else
      var before := ApplyBatch(data, ops[..|ops| - 1]);
      match ops[|ops| - 1]
      case Put(key, value) => before[key := value]
      case Delete(key) => before - {key}
  }

  function DeleteTxs(transactions: seq<Transaction>): seq<WriteOperation> {
    seq<WriteOperation>(|transactions|, i requires 0 <= i < |transactions| => Delete(TxKey(transactions[i].id)))
  }

  function DeleteBlock(h: U64, b: Block): seq<WriteOperation> {
    [Delete(HeightKey(h)), Delete(HashKey(b.header.hash))] + DeleteTxs(b.transactions)
  }

  datatype PruneScan = PruneScan(operations: seq<WriteOperation>, count: nat)

  /** One height of the scan: an old block there is marked for deletion. */
  function NextScan(scan: PruneScan, found: Option<Block>, h: U64, cutoff: U64): PruneScan {
    match found
    case None => scan
    case Some(b) =>
      if b.header.timestamp < cutoff then PruneScan(scan.operations + DeleteBlock(h, b), scan.count + 1)
      else scan
  }

  /** The scan of `prune_before` over heights 1 to `n`. */
  function ScanOld(c: Codec, s: StoreState, cutoff: U64, n: nat): Result<PruneScan>
    requires n < 0x1_0000_0000_0000_0000
  {
    if n == 0 then Ok(PruneScan([], 0))
    else match ScanOld(c, s, cutoff, n - 1)
      case Err(e) => Err(e)
      case Ok(scan) =>
        match BlockByHeight(c, s, n)
        case Err(e) => Err(e)
        case Ok(found) => Ok(NextScan(scan, found, n, cutoff))
  }

  datatype PruneOutcome = PruneOutcome(state: StoreState, count: nat)

  function PruneBefore(c: Codec, s: StoreState, cutoff: U64): Result<PruneOutcome> {
    match ScanOld(c, s, cutoff, s.metadata.chainHeight)
    case Err(e) => Err(e)
    case Ok(scan) => Ok(PruneOutcome(s.(data := ApplyBatch(s.data, scan.operations)), scan.count))
  }
}
