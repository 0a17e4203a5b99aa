/** Why things are refused: which check an error comes from, and that it is always the first that fails. */
module RefusalTheorems {
  import opened Encoding
  import opened Blocks
  import opened Ledgers
  import opened LedgerTheorems

  // ---------------------------------------------------------------- transactions

  /** The payload rules: a registration needs a name, anything else what its own rules say. */
  ghost predicate PayloadAccepted(env: Env, txType: TxType) {
    if txType.ValidatorRegistration? then |txType.metadata.name| > 0 else env.payloadOk(txType.payload)
  }

  /** A transaction is valid exactly if its id is its hash and its payload is accepted; a wrong id is reported first. */
  lemma {:induction false} TransactionExact(env: Env, t: Transaction)
    ensures ValidateTransaction(env, t).Ok? <==> t.id == env.hash(TxBytes(env, t)) && PayloadAccepted(env, t.txType)
    ensures t.id != env.hash(TxBytes(env, t))
       <==> ValidateTransaction(env, t) == Err(InvalidTransaction("Transaction ID mismatch"))
    ensures ValidateTransaction(env, t).Err? ==> ValidateTransaction(env, t).error.InvalidTransaction?
  {
    var mismatch, nameless, rejected := "Transaction ID mismatch", "Validator name cannot be empty", "Payload rejected";
    assert mismatch[0] != nameless[0] && mismatch[0] != rejected[0];
  }

  /** The first invalid transaction of a list. */
  ghost predicate FirstInvalid(env: Env, transactions: seq<Transaction>, i: nat) {
    && i < |transactions| && ValidateTransaction(env, transactions[i]).Err?
    && forall j | 0 <= j < i :: ValidateTransaction(env, transactions[j]).Ok?
  }

  lemma {:induction false} InvalidAt(env: Env, transactions: seq<Transaction>) returns (i: nat)
    requires ValidateTransactions(env, transactions).Err?
    ensures FirstInvalid(env, transactions, i)
    ensures ValidateTransactions(env, transactions) == ValidateTransaction(env, transactions[i])
  {
    if ValidateTransaction(env, transactions[0]).Err? {
      i := 0;
    } else {
      var rest := transactions[1..];
      var k := InvalidAt(env, rest);
      i := k + 1;
      assert transactions[i] == rest[k];
      forall j | 0 <= j < i
        ensures ValidateTransaction(env, transactions[j]).Ok?
      {
        assert j > 0 ==> transactions[j] == rest[j - 1];
      }
    }
  }

  // ---------------------------------------------------------------- blocks

  /** A refused block is refused for its hash, before its count, before its root, before its first invalid
      transaction. */
  ghost predicate ValidationError(env: Env, b: Block, e: VotingError) {
    if b.header.hash != env.hash(HeaderBytes(b.header)) then
      e == InvalidBlockHash(env.hash(HeaderBytes(b.header)), b.header.hash)
    else if b.header.transactionCount != |b.transactions| % 0x1_0000_0000 then
      e == InvalidBlock("Transaction count mismatch")
    else if b.header.transactionsRoot != TransactionsRoot(env, b) then
      e == InvalidBlock("Transactions merkle root mismatch")
    else exists i: nat :: FirstInvalid(env, b.transactions, i) && Err(e) == ValidateTransaction(env, b.transactions[i])
  }

  lemma {:induction false} ValidateRefuses(env: Env, b: Block)
    requires Validate(env, b).Err?
    ensures ValidationError(env, b, Validate(env, b).error)
  {
    if && b.header.hash == CalculateHash(env, b.header)
       && b.header.transactionCount == CountOf(b.transactions)
       && b.header.transactionsRoot == TransactionsRoot(env, b) {
      var i := InvalidAt(env, b.transactions);
    }
  }

  /** A block that does not link is refused for its height, before the hash it names, before its time. */
  ghost predicate LinkError(b: Block, previous: Block, e: VotingError) {
    if b.header.height != previous.header.height + 1 then
      e == BlockHeightMismatch(previous.header.height + 1, b.header.height)
    else if b.header.previousHash != previous.header.hash then
      e == InvalidPreviousHash(previous.header.hash, b.header.previousHash)
    else e == InvalidBlock("Block timestamp is before previous block") && b.header.timestamp < previous.header.timestamp
  }

  /** The first transaction of a list whose id is indexed. */
  ghost predicate FirstIndexed(index: map<Hash, U64>, transactions: seq<Transaction>, i: nat) {
    && i < |transactions| && transactions[i].id in index
    && forall j | 0 <= j < i :: transactions[j].id !in index
  }

  lemma {:induction false} DuplicateAt(index: map<Hash, U64>, transactions: seq<Transaction>) returns (i: nat)
    requires FirstDuplicate(index, transactions).Some?
    ensures FirstIndexed(index, transactions, i) && FirstDuplicate(index, transactions) == Some(transactions[i].id)
  {
    if transactions[0].id in index {
      i := 0;
    } else {
      var rest := transactions[1..];
      var k := DuplicateAt(index, rest);
      i := k + 1;
      forall j | 0 <= j < i
        ensures transactions[j].id !in index
      {
        assert j > 0 ==> transactions[j] == rest[j - 1];
      }
    }
  }

  /** Why `add_block` refuses: the block itself, before its link, before the first id that is already indexed. */
  lemma {:induction false} AddRefuses(env: Env, s: Ledger, b: Block)
    requires s.blocks != [] && Extend(env, s, b).Err?
    ensures var e := Extend(env, s, b).error;
            if !Sound(env, b) then ValidationError(env, b, e)
            else if !Linked(Last(s.blocks), b) then LinkError(b, Last(s.blocks), e)
            else exists i: nat :: FirstIndexed(s.txToBlock, b.transactions, i)
                          && e == DuplicateTransaction(b.transactions[i].id)
  {
    ValidateExact(env, b);
    if !Sound(env, b) {
      ValidateRefuses(env, b);
    } else if Linked(Last(s.blocks), b) {
      var i := DuplicateAt(s.txToBlock, b.transactions);
    }
  }

  // ---------------------------------------------------------------- verify

  /** Position `i` is the first that is not validated and linked, and `e` says why. */
  ghost predicate FirstBad(env: Env, bs: seq<Block>, i: nat, e: VotingError) {
    && 1 <= i < |bs| && (forall j | 1 <= j < i :: GoodAt(env, bs, j))
    && if !Sound(env, bs[i]) then ValidationError(env, bs[i], e)
       else !Linked(bs[i - 1], bs[i]) && LinkError(bs[i], bs[i - 1], e)
  }

  lemma {:induction false} BadAt(env: Env, bs: seq<Block>, n: nat) returns (i: nat)
    requires 1 <= n <= |bs| && VerifyLinks(env, bs, n).Err?
    ensures FirstBad(env, bs, i, VerifyLinks(env, bs, n).error)
  {
    if VerifyLinks(env, bs, n - 1).Err? {
      i := BadAt(env, bs, n - 1);
    } else {
      i := n - 1;
      BadStep(env, bs, n - 1);
    }
  }

  lemma {:induction false} BadStep(env: Env, bs: seq<Block>, n: nat)
    requires 1 <= n < |bs| && VerifyLinks(env, bs, n).Ok? && VerifyLinks(env, bs, n + 1).Err?
    ensures FirstBad(env, bs, n, VerifyLinks(env, bs, n + 1).error)
  {
    VerifyLinksExact(env, bs, n);
    StepRefuses(env, bs[n - 1], bs[n]);
  }

  lemma {:induction false} StepRefuses(env: Env, previous: Block, b: Block)
    requires Validate(env, b).Err? || ValidateChainLink(b, previous).Err?
    ensures Validate(env, b).Err? ==> !Sound(env, b) && ValidationError(env, b, Validate(env, b).error)
    ensures Validate(env, b).Ok? ==>
              && Sound(env, b) && !Linked(previous, b)
              && LinkError(b, previous, ValidateChainLink(b, previous).error)
  {
    ValidateExact(env, b);
    if Validate(env, b).Err? {
      ValidateRefuses(env, b);
    }
  }

  /** Why `verify` fails: an empty list, a first block that is no genesis, or the first block after it that is not
      validated or not linked. */
  lemma {:induction false} VerifyRefuses(env: Env, bs: seq<Block>)
    requires VerifyBlocks(env, bs).Err?
    ensures var e := VerifyBlocks(env, bs).error;
            if bs == [] then e == InvalidBlock("Blockchain is empty")
            else if bs[0].header.height != 0 then e == GenesisError("Genesis height must be 0")
            else if bs[0].header.previousHash != ZERO then e == GenesisError("Genesis must have zero previous hash")
            else if !Sound(env, bs[0]) then ValidationError(env, bs[0], e)
            else exists i: nat :: FirstBad(env, bs, i, e)
  {
    if bs != [] {
      ValidateExact(env, bs[0]);
      if VerifyStart(env, bs).Ok? {
        var i := BadAt(env, bs, |bs|);
      } else if bs[0].header.height == 0 && bs[0].header.previousHash == ZERO {
        ValidateRefuses(env, bs[0]);
      }
    }
  }

  // ---------------------------------------------------------------- transactions of a block

  /** Looking an id up in a block gives the first transaction that has it. */
  lemma {:induction false} FindTxIsFirst(transactions: seq<Transaction>, id: Hash) returns (i: nat)
    requires FindTx(transactions, id).Some?
    ensures i < |transactions| && transactions[i].id == id && FindTx(transactions, id) == Some(transactions[i])
    ensures forall j | 0 <= j < i :: transactions[j].id != id
  {
    if transactions[0].id == id {
      i := 0;
    } else {
      var rest := transactions[1..];
      var k := FindTxIsFirst(rest, id);
      i := k + 1;
      forall j | 0 <= j < i
        ensures transactions[j].id != id
      {
        assert j > 0 ==> transactions[j] == rest[j - 1];
      }
    }
  }
}
