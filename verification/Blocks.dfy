/** Transactions, blocks, header hashing, block validation, chain links and the genesis block. */
module Blocks {
  import opened Encoding
  import Merkle

  /** What the model leaves to libraries: Blake2b-256, the bincode form of a transaction type, and the
      payload rules of the transaction kinds that the genesis block does not use. */
  datatype Env = Env(hash: HashFn, encodeType: TxType -> Bytes, payloadOk: Bytes -> bool)

  datatype ValidatorMetadata = ValidatorMetadata(name: string, organization: Option<string>, contact: Option<string>)

  datatype TxType =
    | ValidatorRegistration(validatorKey: PublicKey, metadata: ValidatorMetadata, authorizingSignature: Bytes)
    | OtherTx(payload: Bytes)

  datatype Transaction = Transaction(id: Hash, txType: TxType, timestamp: U64, nonce: U64)

  datatype ValidatorSignature = ValidatorSignature(validator: PublicKey, signature: Bytes)

  datatype BlockHeader = BlockHeader(
    height: U64, timestamp: U64, previousHash: Hash, transactionsRoot: Hash,
    hash: Hash, validator: PublicKey, transactionCount: U32)

  datatype Block = Block(header: BlockHeader, transactions: seq<Transaction>, signatures: seq<ValidatorSignature>)

  // ---------------------------------------------------------------- transactions

  function TxBytes(env: Env, t: Transaction): Bytes {
    LittleEndian(t.timestamp, 8) + (LittleEndian(t.nonce, 8) + env.encodeType(t.txType))
  }

  function CalculateId(env: Env, t: Transaction): Hash { env.hash(TxBytes(env, t)) }

  function NewTransaction(env: Env, txType: TxType, timestamp: U64, nonce: U64): Transaction {
    var t := Transaction(ZERO, txType, timestamp, nonce);
    t.(id := CalculateId(env, t))
  }

  function ValidatePayload(env: Env, txType: TxType): Result<()> {
    match txType
    case ValidatorRegistration(_, metadata, _) =>
      if metadata.name == "" then Err(InvalidTransaction("Validator name cannot be empty")) else Ok(())
    case OtherTx(payload) =>
      if env.payloadOk(payload) then Ok(()) else Err(InvalidTransaction("Payload rejected"))
  }

  function ValidateTransaction(env: Env, t: Transaction): Result<()> {
    if t.id != CalculateId(env, t) then Err(InvalidTransaction("Transaction ID mismatch"))
    else ValidatePayload(env, t.txType)
  }

  // ---------------------------------------------------------------- blocks

  function IdList(b: Block): (r: seq<Hash>) {
    seq<Hash>(|b.transactions|, i requires 0 <= i < |b.transactions| => b.transactions[i].id)
  }

  function IdSet(b: Block): set<Hash> { set t | t in b.transactions :: t.id }

  function TransactionsRoot(env: Env, b: Block): Hash { Merkle.MerkleRoot(env.hash, IdList(b)) }

  /** The bytes that the header hash covers; the hash field itself is not among them. */
  function HeaderBytes(h: BlockHeader): Bytes {
    LittleEndian(h.height, 8) + (LittleEndian(h.timestamp, 8) + (h.previousHash +
      (h.transactionsRoot + (h.validator + LittleEndian(h.transactionCount, 4)))))
  }

  function CalculateHash(env: Env, h: BlockHeader): Hash { env.hash(HeaderBytes(h)) }

  /** `calculate_hash`, filling its buffer field by field. */
  method HashHeader(env: Env, h: BlockHeader) returns (hash: Hash)
    ensures hash == CalculateHash(env, h)
  {
    var data: Bytes := [];
    data := data + LittleEndian(h.height, 8);
    data := data + LittleEndian(h.timestamp, 8);
    data := data + h.previousHash;
    data := data + h.transactionsRoot;
    data := data + h.validator;
    data := data + LittleEndian(h.transactionCount, 4);
    assert data == HeaderBytes(h);
    hash := env.hash(data);
  }

  /** Where each field stands in the hashed header. */
  lemma {:induction false} HeaderLayout(h: BlockHeader)
    ensures var data := HeaderBytes(h);
            && |data| == 116
            && data[0..8] == LittleEndian(h.height, 8) && data[8..16] == LittleEndian(h.timestamp, 8)
            && data[16..48] == h.previousHash && data[48..80] == h.transactionsRoot
            && data[80..112] == h.validator && data[112..116] == LittleEndian(h.transactionCount, 4)
  {
  }

  /** Where each field stands in the hashed transaction. */
  lemma {:induction false} TxLayout(env: Env, t: Transaction)
    ensures var data := TxBytes(env, t);
            && |data| >= 16 && data[0..8] == LittleEndian(t.timestamp, 8)
            && data[8..16] == LittleEndian(t.nonce, 8) && data[16..] == env.encodeType(t.txType)
  {
  }

  /** `usize as u32`: the count wraps. */
  function CountOf(transactions: seq<Transaction>): U32 { |transactions| % 0x1_0000_0000 }

  function NewBlock(env: Env, height: U64, previousHash: Hash, transactions: seq<Transaction>,
                    validator: PublicKey, now: U64): Block
  {
    var draft := BlockHeader(height, now, previousHash, ZERO, ZERO, validator, CountOf(transactions));
    var root := TransactionsRoot(env, Block(draft, transactions, []));
    var header := draft.(transactionsRoot := root);
    Block(header.(hash := CalculateHash(env, header)), transactions, [])
  }

  /** The first failing transaction decides the error. */
  function ValidateTransactions(env: Env, transactions: seq<Transaction>): Result<()> {
    if transactions == [] then Ok(())
    else match ValidateTransaction(env, transactions[0])
      case Err(e) => Err(e)
      case Ok(_) => ValidateTransactions(env, transactions[1..])
  }

  function Validate(env: Env, b: Block): Result<()> {
    if b.header.hash != CalculateHash(env, b.header) then
      Err(InvalidBlockHash(CalculateHash(env, b.header), b.header.hash))
    else if b.header.transactionCount != CountOf(b.transactions) then
      Err(InvalidBlock("Transaction count mismatch"))
    else if b.header.transactionsRoot != TransactionsRoot(env, b) then
      Err(InvalidBlock("Transactions merkle root mismatch"))
    else ValidateTransactions(env, b.transactions)
  }

  function ValidateChainLink(b: Block, previous: Block): Result<()> {
    if b.header.height != previous.header.height + 1 then
      Err(BlockHeightMismatch(previous.header.height + 1, b.header.height))
    else if b.header.previousHash != previous.header.hash then
      Err(InvalidPreviousHash(previous.header.hash, b.header.previousHash))
    else if b.header.timestamp < previous.header.timestamp then
      Err(InvalidBlock("Block timestamp is before previous block"))
    else Ok(())
  }

  /** What a validated block promises. */
  ghost predicate Sound(env: Env, b: Block) {
    && b.header.hash == CalculateHash(env, b.header)
    && b.header.transactionCount == CountOf(b.transactions)
    && b.header.transactionsRoot == TransactionsRoot(env, b)
    && forall t | t in b.transactions :: ValidateTransaction(env, t).Ok?
  }

  ghost predicate Linked(previous: Block, b: Block) {
    && b.header.height == previous.header.height + 1
    && b.header.previousHash == previous.header.hash
    && previous.header.timestamp <= b.header.timestamp
  }

  lemma {:induction false} ValidateTransactionsExact(env: Env, transactions: seq<Transaction>)
    ensures ValidateTransactions(env, transactions).Ok?
       <==> forall t | t in transactions :: ValidateTransaction(env, t).Ok?
  {
    if transactions != [] {
      ValidateTransactionsExact(env, transactions[1..]);
      assert forall t :: t in transactions <==> t == transactions[0] || t in transactions[1..];
    }
  }

  lemma {:induction false} ValidateExact(env: Env, b: Block)
    ensures Validate(env, b).Ok? <==> Sound(env, b)
  {
    ValidateTransactionsExact(env, b.transactions);
  }

  /** The root of a validated block proves each of its transactions at its own position. */
  lemma {:induction false} TransactionIncluded(env: Env, b: Block, i: nat)
    requires Sound(env, b) && i < |b.transactions|
    ensures |IdList(b)| == |b.transactions|
    ensures Merkle.Climb(env.hash, b.transactions[i].id, Merkle.PathNodes(env.hash, IdList(b), i))
         == b.header.transactionsRoot
    ensures forall k | 0 <= k < |b.transactions| :: IdList(b)[k] == b.transactions[k].id
  {
    Merkle.GeneratedProofVerifies(env.hash, IdList(b), i);
  }

  // ---------------------------------------------------------------- genesis

  function Digit(d: nat): string
    requires d < 10
  {
    ["0123456789"[d]]
  }

  function Decimal(n: nat): string {
    if n < 10 then Digit(n) else Decimal(n / 10) + Digit(n % 10)
  }

  function GenesisRegistration(key: PublicKey, i: nat): TxType {
    var metadata := ValidatorMetadata("Genesis Validator " + Decimal(i + 1), Some("Genesis"), None);
    ValidatorRegistration(key, metadata, Zeros(64))
  }

  /** The registration of the `i`-th genesis validator. */
  function GenesisTx(env: Env, key: PublicKey, timestamp: U64, i: nat): Transaction {
    NewTransaction(env, GenesisRegistration(key, i), timestamp, i % 0x1_0000_0000_0000_0000)
  }

  function GenesisTxs(env: Env, validators: seq<PublicKey>, timestamp: U64): seq<Transaction> {
    seq<Transaction>(|validators|, i requires 0 <= i < |validators| => GenesisTx(env, validators[i], timestamp, i))
  }

  /** The genesis block of a non-empty validator list; the clock plays no part. */
  function GenesisBlock(env: Env, validators: seq<PublicKey>, timestamp: U64): Block
    requires validators != []
  {
    NewBlock(env, 0, ZERO, GenesisTxs(env, validators, timestamp), validators[0], timestamp)
  }

  /** `create_block`, with the clock reading that `Block::new` takes and the two header fields
      overwritten afterwards. */
  method CreateBlock(env: Env, validators: seq<PublicKey>, timestamp: U64, now: U64) returns (r: Result<Block>)
    ensures r.Ok? <==> validators != []
    ensures r.Ok? ==> r.value == GenesisBlock(env, validators, timestamp)
    ensures r.Err? ==> r.error == GenesisError("Genesis must have at least one validator")
  {
    if validators == [] {
      return Err(GenesisError("Genesis must have at least one validator"));
    }
    var transactions := [];
    for i := 0 to |validators|
      invariant transactions == GenesisTxs(env, validators, timestamp)[..i]
    {
      transactions := transactions + [GenesisTx(env, validators[i], timestamp, i)];
    }
    var block := NewBlock(env, 0, ZERO, transactions, validators[0], now);
    assert IdList(block) == IdList(GenesisBlock(env, validators, timestamp));
    block := block.(header := block.header.(timestamp := timestamp));
    block := block.(header := block.header.(hash := CalculateHash(env, block.header)));
    RootFromIds(env, block, GenesisBlock(env, validators, timestamp));
    r := Ok(block);
  }

  lemma {:induction false} RootFromIds(env: Env, a: Block, b: Block)
    requires IdList(a) == IdList(b)
    ensures TransactionsRoot(env, a) == TransactionsRoot(env, b)
  {
  }

  lemma {:induction false} NewBlockFields(env: Env, height: U64, previousHash: Hash, transactions: seq<Transaction>,
                                          validator: PublicKey, now: U64)
    ensures var b := NewBlock(env, height, previousHash, transactions, validator, now);
            && b.header.hash == CalculateHash(env, b.header)
            && b.header.transactionsRoot == TransactionsRoot(env, b)
            && b.header.height == height && b.header.timestamp == now && b.header.previousHash == previousHash
            && b.header.validator == validator && b.header.transactionCount == CountOf(transactions)
            && b.transactions == transactions && b.signatures == []
  {
    var b := NewBlock(env, height, previousHash, transactions, validator, now);
    assert IdList(b) == IdList(Block(b.header, transactions, []));
    var draft := BlockHeader(height, now, previousHash, ZERO, ZERO, validator, CountOf(transactions));
    assert IdList(b) == IdList(Block(draft, transactions, []));
    assert HeaderBytes(b.header) == HeaderBytes(b.header.(hash := ZERO));
  }

  /** The genesis block passes validation and stands at height 0 with no predecessor. */
  lemma {:induction false} GenesisSound(env: Env, validators: seq<PublicKey>, timestamp: U64)
    requires validators != []
    ensures var g := GenesisBlock(env, validators, timestamp);
            Sound(env, g) && g.header.height == 0 && g.header.previousHash == ZERO
  {
    var g := GenesisBlock(env, validators, timestamp);
    NewBlockFields(env, 0, ZERO, g.transactions, validators[0], timestamp);
    forall t | t in g.transactions
      ensures ValidateTransaction(env, t).Ok?
    {
      var i :| 0 <= i < |g.transactions| && t == g.transactions[i];
      assert t == GenesisTx(env, validators[i], timestamp, i);
      assert TxBytes(env, t) == TxBytes(env, t.(id := ZERO));
    }
  }

  /** Genesis registrations carry their position as nonce, so two of them share an id only if their
      encodings collide. */
  lemma {:induction false} GenesisIdsDistinct(env: Env, validators: seq<PublicKey>, timestamp: U64, i: nat, j: nat)
    requires i < j < |validators| <= 0x1_0000_0000_0000_0000
    ensures var txs := GenesisTxs(env, validators, timestamp);
            || txs[i].id != txs[j].id
            || HasCollision(env.hash, {TxBytes(env, txs[i]), TxBytes(env, txs[j])})
  {
    var txs := GenesisTxs(env, validators, timestamp);
    var a, b := txs[i], txs[j];
    assert a.nonce == i && a.id == CalculateId(env, a) by { GenesisTxFields(env, validators[i], timestamp, i); }
    assert b.nonce == j && b.id == CalculateId(env, b) by { GenesisTxFields(env, validators[j], timestamp, j); }
    NonceSeparates(env, a, b);
  }

  lemma {:induction false} GenesisTxFields(env: Env, key: PublicKey, timestamp: U64, i: nat)
    requires i < 0x1_0000_0000_0000_0000
    ensures var t := GenesisTx(env, key, timestamp, i); t.nonce == i && t.id == CalculateId(env, t)
  {
    NewTransactionId(env, GenesisRegistration(key, i), timestamp, i % 0x1_0000_0000_0000_0000);
  }

  lemma {:induction false} NewTransactionId(env: Env, txType: TxType, timestamp: U64, nonce: U64)
    ensures var t := NewTransaction(env, txType, timestamp, nonce); t.nonce == nonce && t.id == CalculateId(env, t)
  {
    var t := NewTransaction(env, txType, timestamp, nonce);
    assert TxBytes(env, t) == TxBytes(env, t.(id := ZERO));
  }

  /** Transactions of different nonces have different encodings, so equal ids are a collision. */
  lemma {:induction false} NonceSeparates(env: Env, a: Transaction, b: Transaction)
    requires a.nonce != b.nonce && a.id == CalculateId(env, a) && b.id == CalculateId(env, b)
    ensures a.id != b.id || HasCollision(env.hash, {TxBytes(env, a), TxBytes(env, b)})
  {
    if TxBytes(env, a) == TxBytes(env, b) {
      TxBytesFields(env, a, b);
    } else {
      assert TxBytes(env, a) in {TxBytes(env, a), TxBytes(env, b)};
    }
  }

  /** The transaction layout is unambiguous. */
  lemma {:induction false} TxBytesFields(env: Env, s: Transaction, t: Transaction)
    requires TxBytes(env, s) == TxBytes(env, t)
    ensures s.timestamp == t.timestamp && s.nonce == t.nonce && env.encodeType(s.txType) == env.encodeType(t.txType)
  {
    ConcatInjective(LittleEndian(s.timestamp, 8), LittleEndian(s.nonce, 8) + env.encodeType(s.txType),
                    LittleEndian(t.timestamp, 8), LittleEndian(t.nonce, 8) + env.encodeType(t.txType));
    ConcatInjective(LittleEndian(s.nonce, 8), env.encodeType(s.txType),
                    LittleEndian(t.nonce, 8), env.encodeType(t.txType));
    LittleEndian8Injective(s.timestamp, t.timestamp);
    LittleEndian8Injective(s.nonce, t.nonce);
  }

  /** What the `i`-th genesis transaction registers. */
  lemma {:induction false} GenesisRegisters(env: Env, validators: seq<PublicKey>, timestamp: U64, i: nat)
    requires i < |validators|
    ensures var txs := GenesisBlock(env, validators, timestamp).transactions;
            && |txs| == |validators| && txs[i].timestamp == timestamp
            && (i < 0x1_0000_0000_0000_0000 ==> txs[i].nonce == i)
            && txs[i].txType.ValidatorRegistration? && txs[i].txType.validatorKey == validators[i]
            && txs[i].txType.metadata.name == "Genesis Validator " + Decimal(i + 1)
            && txs[i].txType.metadata.organization == Some("Genesis") && txs[i].txType.metadata.contact == None
            && txs[i].txType.authorizingSignature == Zeros(64)
  {
  }

  /** The value of a string of digits. */
  function DecimalValue(s: string): nat {
    if s == "" then 0 else 10 * DecimalValue(s[..|s| - 1]) + DigitValue(s[|s| - 1])
  }

  function DigitValue(c: char): nat { if '0' <= c <= '9' then c as int - '0' as int else 0 }

  /** The decimal numeral: the number back, */
  lemma {:induction false} DecimalExact(n: nat)
    ensures DecimalValue(Decimal(n)) == n
  {
    if n < 10 {
      AppendDigit("", n);
      assert "" + Digit(n) == Digit(n) && DecimalValue("") == 0;
    } else {
      DecimalExact(n / 10);
      AppendDigit(Decimal(n / 10), n % 10);
    }
  }

  lemma {:induction false} AppendDigit(s: string, d: nat)
    requires d < 10
    ensures DecimalValue(s + Digit(d)) == 10 * DecimalValue(s) + d
  {
    var longer := s + Digit(d);
    assert longer[..|longer| - 1] == s && DigitValue(longer[|longer| - 1]) == d;
  }

  /** of digits only and without a leading zero. */
  lemma {:induction false} DecimalDigits(n: nat)
    ensures Decimal(n) != "" && (n > 0 ==> Decimal(n)[0] != '0')
    ensures forall i | 0 <= i < |Decimal(n)| :: '0' <= Decimal(n)[i] <= '9'
  {
    if n >= 10 {
      DecimalDigits(n / 10);
    }
  }

  // ---------------------------------------------------------------- binding

  /** The byte strings hashed when a block's header and Merkle root are checked. */
  function BlockInputs(env: Env, b: Block): set<Bytes> {
    {HeaderBytes(b.header)} + Merkle.PairInputs(env.hash, IdList(b))
  }

  /** The byte strings hashed when a block's transaction ids are checked. */
  function TxInputs(env: Env, b: Block): set<Bytes> {
    set t | t in b.transactions :: TxBytes(env, t)
  }

  /** The transaction count fits the header's 32 bits. */
  ghost predicate Countable(b: Block) { |b.transactions| < 0x1_0000_0000 }

  /** The header layout is unambiguous: equal bytes come from headers that differ at most in `hash`. */
  lemma {:induction false} HeaderBytesInjective(a: BlockHeader, b: BlockHeader)
    requires HeaderBytes(a) == HeaderBytes(b)
    ensures a.(hash := ZERO) == b.(hash := ZERO)
  {
    var a4: Bytes := a.validator + LittleEndian(a.transactionCount, 4);
    var b4: Bytes := b.validator + LittleEndian(b.transactionCount, 4);
    var a3: Bytes := a.transactionsRoot + a4;
    var b3: Bytes := b.transactionsRoot + b4;
    var a2: Bytes := a.previousHash + a3;
    var b2: Bytes := b.previousHash + b3;
    ConcatInjective(LittleEndian(a.height, 8), LittleEndian(a.timestamp, 8) + a2,
                    LittleEndian(b.height, 8), LittleEndian(b.timestamp, 8) + b2);
    ConcatInjective(LittleEndian(a.timestamp, 8), a2, LittleEndian(b.timestamp, 8), b2);
    ConcatInjective(a.previousHash, a3, b.previousHash, b3);
    ConcatInjective(a.transactionsRoot, a4, b.transactionsRoot, b4);
    ConcatInjective(a.validator, LittleEndian(a.transactionCount, 4), b.validator, LittleEndian(b.transactionCount, 4));
    LittleEndian8Injective(a.height, b.height);
    LittleEndian8Injective(a.timestamp, b.timestamp);
    LittleEndian4Injective(a.transactionCount, b.transactionCount);
  }

  /** Header binding: two validated blocks with the same hash have the same header, or their two
      header encodings collide. */
  lemma {:induction false} HashBindsHeader(env: Env, a: Block, b: Block)
    requires Sound(env, a) && Sound(env, b) && a.header.hash == b.header.hash
    ensures a.header == b.header || HasCollision(env.hash, {HeaderBytes(a.header), HeaderBytes(b.header)})
  {
    if HeaderBytes(a.header) == HeaderBytes(b.header) {
      HeaderBytesInjective(a.header, b.header);
      assert a.header == a.header.(hash := ZERO).(hash := b.header.hash);
    } else {
      assert HeaderBytes(a.header) in {HeaderBytes(a.header), HeaderBytes(b.header)};
    }
  }

  lemma {:induction false} SameCount(a: Block, b: Block)
    requires Countable(a) && Countable(b) && CountOf(a.transactions) == CountOf(b.transactions)
    ensures |IdList(a)| == |IdList(b)|
  {
  }

  lemma {:induction false} RootsBindIds(env: Env, a: Block, b: Block)
    requires |IdList(a)| == |IdList(b)| && TransactionsRoot(env, a) == TransactionsRoot(env, b)
    ensures || IdList(a) == IdList(b)
            || HasCollision(env.hash, Merkle.PairInputs(env.hash, IdList(a)) + Merkle.PairInputs(env.hash, IdList(b)))
  {
    Merkle.RootBindsLeaves(env.hash, IdList(a), IdList(b));
  }

  /** A header commits to the ids through their root and their count. */
  lemma {:induction false} HeaderBindsIds(env: Env, a: Block, b: Block)
    requires Sound(env, a) && Sound(env, b) && Countable(a) && Countable(b) && a.header == b.header
    ensures || IdList(a) == IdList(b)
            || HasCollision(env.hash, Merkle.PairInputs(env.hash, IdList(a)) + Merkle.PairInputs(env.hash, IdList(b)))
  {
    SameCount(a, b);
    RootsBindIds(env, a, b);
  }

  /** Block binding: the header hash of a validated block fixes its header and its transaction ids,
      in order, because the header commits to the count as well as to the root. */
  lemma {:induction false} HashBindsBlock(env: Env, a: Block, b: Block)
    requires Sound(env, a) && Sound(env, b) && Countable(a) && Countable(b)
    requires a.header.hash == b.header.hash
    ensures || (a.header == b.header && IdList(a) == IdList(b))
            || HasCollision(env.hash, BlockInputs(env, a) + BlockInputs(env, b))
  {
    var S := BlockInputs(env, a) + BlockInputs(env, b);
    HashBindsHeader(env, a, b);
    CollisionMonotone(env.hash, {HeaderBytes(a.header), HeaderBytes(b.header)}, S);
    CollisionMonotone(env.hash, Merkle.PairInputs(env.hash, IdList(a)) + Merkle.PairInputs(env.hash, IdList(b)), S);
    if a.header == b.header {
      HeaderBindsIds(env, a, b);
    }
  }

  /** bincode decoding undoes encoding, so the encoding of a transaction type is injective. */
  ghost predicate FaithfulEncoding(env: Env) {
    forall s, t :: env.encodeType(s) == env.encodeType(t) ==> s == t
  }

  /** Transaction binding: validated blocks with the same ids carry the same transactions. */
  lemma {:induction false} IdsBindTransactions(env: Env, a: Block, b: Block)
    requires FaithfulEncoding(env) && Sound(env, a) && Sound(env, b) && IdList(a) == IdList(b)
    ensures || a.transactions == b.transactions
            || HasCollision(env.hash, TxInputs(env, a) + TxInputs(env, b))
  {
    if !HasCollision(env.hash, TxInputs(env, a) + TxInputs(env, b)) {
      forall i | 0 <= i < |a.transactions|
        ensures a.transactions[i] == b.transactions[i]
      {
        var s, t := a.transactions[i], b.transactions[i];
        assert IdList(a)[i] == s.id && IdList(b)[i] == t.id;
        assert s in a.transactions && t in b.transactions;
        assert TxBytes(env, s) in TxInputs(env, a) && TxBytes(env, t) in TxInputs(env, b);
        TxBytesInjective(env, s, t);
      }
      assert |IdList(a)| == |a.transactions| && |IdList(b)| == |b.transactions|;
    }
  }

  lemma {:induction false} TxBytesInjective(env: Env, s: Transaction, t: Transaction)
    requires FaithfulEncoding(env) && TxBytes(env, s) == TxBytes(env, t) && s.id == t.id
    ensures s == t
  {
    TxBytesFields(env, s, t);
  }

  /** The genesis hash fixes the configuration: two genesis blocks have one hash if and only if they come from the same
      validators in the same order and the same timestamp, or what they hash collides. */
  lemma {:induction false} GenesisFixesConfiguration(env: Env, v: seq<PublicKey>, t: U64, w: seq<PublicKey>, u: U64)
    requires FaithfulEncoding(env) && 0 < |v| < 0x1_0000_0000 && 0 < |w| < 0x1_0000_0000
    ensures var a, b := GenesisBlock(env, v, t), GenesisBlock(env, w, u);
            || (a.header.hash == b.header.hash <==> v == w && t == u)
            || HasCollision(env.hash, BlockInputs(env, a) + BlockInputs(env, b))
            || HasCollision(env.hash, TxInputs(env, a) + TxInputs(env, b))
  {
    var a, b := GenesisBlock(env, v, t), GenesisBlock(env, w, u);
    if a.header.hash == b.header.hash {
      GenesisSound(env, v, t);
      GenesisSound(env, w, u);
      GenesisShape(env, v, t);
      GenesisShape(env, w, u);
      HashBindsBlock(env, a, b);
      if a.header == b.header && IdList(a) == IdList(b) {
        IdsBindTransactions(env, a, b);
        if a.transactions == b.transactions {
          SameRegistrations(env, v, t, w, u);
        }
      }
    }
  }

  lemma {:induction false} GenesisShape(env: Env, validators: seq<PublicKey>, timestamp: U64)
    requires 0 < |validators| < 0x1_0000_0000
    ensures var g := GenesisBlock(env, validators, timestamp);
            Countable(g) && |g.transactions| == |validators| && g.header.timestamp == timestamp
  {
    NewBlockFields(env, 0, ZERO, GenesisTxs(env, validators, timestamp), validators[0], timestamp);
  }

  lemma {:induction false} SameRegistrations(env: Env, v: seq<PublicKey>, t: U64, w: seq<PublicKey>, u: U64)
    requires v != [] && w != [] && GenesisBlock(env, v, t).transactions == GenesisBlock(env, w, u).transactions
    ensures v == w
  {
    GenesisRegisters(env, v, t, 0);
    GenesisRegisters(env, w, u, 0);
    forall i | 0 <= i < |v|
      ensures v[i] == w[i]
    {
      GenesisRegisters(env, v, t, i);
      GenesisRegisters(env, w, u, i);
    }
  }
}
