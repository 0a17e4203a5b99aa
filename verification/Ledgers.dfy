/** The chain as a value: its block list and two indexes, the functions that its operations compute,
    and the linear scans the indexes stand for. */
module Ledgers {
  import opened Encoding
  import opened Blocks

  datatype Ledger = Ledger(
    blocks: seq<Block>, hashToHeight: map<Hash, U64>, txToBlock: map<Hash, U64>, height: U64, genesisHash: Hash)

  /** An indexing lookup in the source may also panic on an index past the end of `blocks`. */
  datatype Lookup<+T> = Found(value: T) | Absent | OutOfBounds

  function Last(bs: seq<Block>): Block
    requires bs != []
  {
    bs[|bs| - 1]
  }

  // ---------------------------------------------------------------- indexes

  /** The insertion loop of `new` and `add_block`. */
  function InsertIds(index: map<Hash, U64>, transactions: seq<Transaction>, height: U64): map<Hash, U64> {
    if transactions == [] then index
    else
      var n := |transactions| - 1;
      InsertIds(index, transactions[..n], height)[transactions[n].id := height]
  }

  lemma {:induction false} InsertIdsExact(index: map<Hash, U64>, transactions: seq<Transaction>, height: U64)
    ensures var r, ids := InsertIds(index, transactions, height), set t | t in transactions :: t.id;
            && r.Keys == index.Keys + ids
            && forall id | id in r :: r[id] == if id in ids then height else index[id]
  {
    if transactions != [] {
      var n := |transactions| - 1;
      InsertIdsExact(index, transactions[..n], height);
      assert transactions == transactions[..n] + [transactions[n]];
      assert (set t | t in transactions :: t.id) == (set t | t in transactions[..n] :: t.id) + {transactions[n].id};
    }
  }

  function IndexTxs(index: map<Hash, U64>, b: Block): (r: map<Hash, U64>)
    ensures r.Keys == index.Keys + IdSet(b)
    ensures forall id | id in r :: r[id] == if id in IdSet(b) then b.header.height else index[id]
  {
    InsertIdsExact(index, b.transactions, b.header.height);
    InsertIds(index, b.transactions, b.header.height)
  }

  function HashIndex(bs: seq<Block>): map<Hash, U64> {
    if bs == [] then map[] else HashIndex(bs[..|bs| - 1])[Last(bs).header.hash := Last(bs).header.height]
  }

  function TxIndex(bs: seq<Block>): map<Hash, U64> {
    if bs == [] then map[] else IndexTxs(TxIndex(bs[..|bs| - 1]), Last(bs))
  }

  /** The ledger of an unpruned block list, as a function of the list alone. */
  function Indexed(bs: seq<Block>): Ledger
    requires bs != []
  {
    Ledger(bs, HashIndex(bs), TxIndex(bs), Last(bs).header.height, bs[0].header.hash)
  }

  // ---------------------------------------------------------------- add_block

  function FirstDuplicate(index: map<Hash, U64>, transactions: seq<Transaction>): Option<Hash> {
    if transactions == [] then None
    else if transactions[0].id in index then Some(transactions[0].id)
    else FirstDuplicate(index, transactions[1..])
  }

  function Extend(env: Env, s: Ledger, b: Block): Result<Ledger>
    requires s.blocks != []
  {
    match Validate(env, b)
    case Err(e) => Err(e)
    case Ok(_) =>
      match ValidateChainLink(b, Last(s.blocks))
      case Err(e) => Err(e)
      case Ok(_) =>
        match FirstDuplicate(s.txToBlock, b.transactions)
        case Some(id) => Err(DuplicateTransaction(id))
        case None => Ok(Append(s, b))
  }

  function Append(s: Ledger, b: Block): Ledger {
    Ledger(s.blocks + [b], s.hashToHeight[b.header.hash := b.header.height],
           IndexTxs(s.txToBlock, b), b.header.height, s.genesisHash)
  }

  /** Adding a list one by one, stopping at the first error. */
  function Replay(env: Env, s: Ledger, bs: seq<Block>): Result<Ledger>
    requires s.blocks != []
    decreases |bs|
  {
    if bs == [] then Ok(s)
    else match Extend(env, s, bs[0])
      case Err(e) => Err(e)
      case Ok(s') => Replay(env, s', bs[1..])
  }

  // ---------------------------------------------------------------- verify

  /** The loop of `verify` over blocks 1 to `n - 1`. */
  function VerifyLinks(env: Env, bs: seq<Block>, n: nat): Result<()>
    requires 1 <= n <= |bs|
  {
    if n == 1 then Ok(())
    else match VerifyLinks(env, bs, n - 1)
      case Err(e) => Err(e)
      case Ok(_) =>
        match Validate(env, bs[n - 1])
        case Err(e) => Err(e)
        case Ok(_) => ValidateChainLink(bs[n - 1], bs[n - 2])
  }

  function VerifyStart(env: Env, bs: seq<Block>): Result<()> {
    if bs == [] then Err(InvalidBlock("Blockchain is empty"))
    else if bs[0].header.height != 0 then Err(GenesisError("Genesis height must be 0"))
    else if bs[0].header.previousHash != ZERO then Err(GenesisError("Genesis must have zero previous hash"))
    else Validate(env, bs[0])
  }

  function VerifyBlocks(env: Env, bs: seq<Block>): Result<()> {
    match VerifyStart(env, bs)
    case Err(e) => Err(e)
    case Ok(_) => if bs == [] then Ok(()) else VerifyLinks(env, bs, |bs|)
  }

  // ---------------------------------------------------------------- lookups and scans

  function ByHeight(s: Ledger, h: U64): Lookup<Block> {
    if h > s.height then Absent
    else if h >= |s.blocks| then OutOfBounds
    else Found(s.blocks[h])
  }

  function ByHash(s: Ledger, x: Hash): Lookup<Block> {
    if x in s.hashToHeight then ByHeight(s, s.hashToHeight[x]) else Absent
  }

  function FindTx(transactions: seq<Transaction>, id: Hash): Option<Transaction> {
    if transactions == [] then None
    else if transactions[0].id == id then Some(transactions[0])
    else FindTx(transactions[1..], id)
  }

  function TxById(s: Ledger, id: Hash): Lookup<Transaction> {
    if id !in s.txToBlock then Absent
    else match ByHeight(s, s.txToBlock[id])
      case OutOfBounds => OutOfBounds
      case Absent => Absent
      case Found(b) =>
        match FindTx(b.transactions, id)
        case None => Absent
        case Some(t) => Found(t)
  }

  function TransactionCount(s: Ledger): nat { |s.txToBlock| }

  /** `get_block_at_height`: the first block whose header carries the height. */
  function AtHeight(bs: seq<Block>, h: U64): Option<Block> {
    if bs == [] then None
    else if bs[0].header.height == h then Some(bs[0])
    else AtHeight(bs[1..], h)
  }

  /** The first block with a given hash. */
  function ScanHash(bs: seq<Block>, x: Hash): Option<Block> {
    if bs == [] then None
    else if bs[0].header.hash == x then Some(bs[0])
    else ScanHash(bs[1..], x)
  }

  /** The full node's search: heights 0 to `n - 1` in order, each block's transactions in order. */
  function NodeScan(bs: seq<Block>, id: Hash, n: nat): Option<Transaction>
    requires n <= 0x1_0000_0000_0000_0000
  {
    if n == 0 then None
    else match NodeScan(bs, id, n - 1)
      case Some(t) => Some(t)
      case None =>
        match AtHeight(bs, n - 1)
        case Some(b) => FindTx(b.transactions, id)
        case None => None
  }

  function AsLookup<T>(o: Option<T>): Lookup<T> {
    match o
    case Some(v) => Found(v)
    case None => Absent
  }

  // ---------------------------------------------------------------- prune_old_blocks

  function Recent(bs: seq<Block>, cutoff: U64): seq<Block> {
    if bs == [] then []
    else if Last(bs).header.timestamp >= cutoff then Recent(bs[..|bs| - 1], cutoff) + [Last(bs)]
    else Recent(bs[..|bs| - 1], cutoff)
  }

  function Old(bs: seq<Block>, cutoff: U64): seq<Block> {
    if bs == [] then []
    else if Last(bs).header.timestamp >= cutoff then Old(bs[..|bs| - 1], cutoff)
    else Old(bs[..|bs| - 1], cutoff) + [Last(bs)]
  }

  function Hashes(bs: seq<Block>): set<Hash> { set b | b in bs :: b.header.hash }

  function AllIds(bs: seq<Block>): set<Hash> { set b, id | b in bs && id in IdSet(b) :: id }

  function Pruned(s: Ledger, cutoff: U64): Ledger
    requires s.blocks != []
  {
    var removed := Old(s.blocks[1..], cutoff);
    Ledger([s.blocks[0]] + Recent(s.blocks[1..], cutoff), s.hashToHeight - Hashes(removed),
           s.txToBlock - AllIds(removed), s.height, s.genesisHash)
  }

  function PruneCount(s: Ledger, cutoff: U64): nat
    requires s.blocks != []
  {
    |Old(s.blocks[1..], cutoff)|
  }

  // ---------------------------------------------------------------- runs

  datatype Op = Add(block: Block) | Prune(cutoff: U64)

  /** A rejected block leaves the ledger as it was. */
  function Step(env: Env, s: Ledger, op: Op): (r: Ledger)
    requires s.blocks != []
    ensures r.blocks != []
  {
    match op
    case Add(b) => (match Extend(env, s, b) case Ok(s') => s' case Err(_) => s)
    case Prune(cutoff) => Pruned(s, cutoff)
  }

  function Run(env: Env, s: Ledger, ops: seq<Op>): (r: Ledger)
    requires s.blocks != []
    ensures r.blocks != []
  {
    if ops == [] then s else Step(env, Run(env, s, ops[..|ops| - 1]), ops[|ops| - 1])
  }

  function NewLedger(env: Env, validators: seq<PublicKey>, timestamp: U64): Ledger
    requires validators != []
  {
    Indexed([GenesisBlock(env, validators, timestamp)])
  }
}
