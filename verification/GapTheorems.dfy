/** Runs that reach the states in which the indexed lookups fail: a gap above genesis, and a stale height. */
module GapTheorems {
  import opened Encoding
  import opened Blocks
  import opened Ledgers
  import opened LedgerTheorems
  import opened RunTheorems

  // ---------------------------------------------------------------- blocks that are accepted

  /** A block on top of `previous`. */
  function NextBlock(env: Env, previous: Block, transactions: seq<Transaction>, validator: PublicKey, now: U64): Block
    requires previous.header.height + 1 < 0x1_0000_0000_0000_0000
  {
    NewBlock(env, previous.header.height + 1, previous.header.hash, transactions, validator, now)
  }

  ghost predicate AllValid(env: Env, transactions: seq<Transaction>) {
    forall t | t in transactions :: ValidateTransaction(env, t).Ok?
  }

  ghost predicate NoneIndexed(transactions: seq<Transaction>, ids: set<Hash>) {
    forall t | t in transactions :: t.id !in ids
  }

  /** Valid transactions that are not indexed make an acceptable next block. */
  lemma {:induction false} NextAccepted(env: Env, s: Ledger, transactions: seq<Transaction>, validator: PublicKey,
                                        now: U64)
    requires s.blocks != [] && Last(s.blocks).header.timestamp <= now
    requires Last(s.blocks).header.height + 1 < 0x1_0000_0000_0000_0000
    requires AllValid(env, transactions) && NoneIndexed(transactions, s.txToBlock.Keys)
    ensures var b := NextBlock(env, Last(s.blocks), transactions, validator, now);
            && b.header.timestamp == now && b.header.height == Last(s.blocks).header.height + 1
            && b.transactions == transactions && Extend(env, s, b) == Ok(Append(s, b))
  {
    var b := NextBlock(env, Last(s.blocks), transactions, validator, now);
    NewBlockFields(env, b.header.height, b.header.previousHash, transactions, validator, now);
    ExtendExact(env, s, b);
  }

  // ---------------------------------------------------------------- short runs

  lemma {:induction false} RunAppend(env: Env, s: Ledger, ops: seq<Op>, op: Op)
    requires s.blocks != []
    ensures Run(env, s, ops + [op]) == Step(env, Run(env, s, ops), op)
  {
    assert (ops + [op])[..|ops + [op]| - 1] == ops;
  }

  lemma {:induction false} RunTwo(env: Env, s: Ledger, a: Op, b: Op)
    requires s.blocks != []
    ensures Run(env, s, [a, b]) == Step(env, Step(env, s, a), b)
  {
    RunAppend(env, s, [], a);
    RunAppend(env, s, [a], b);
    assert [] + [a] == [a] && [a] + [b] == [a, b];
  }

  lemma {:induction false} RunThree(env: Env, s: Ledger, a: Op, b: Op, c: Op)
    requires s.blocks != []
    ensures Run(env, s, [a, b, c]) == Step(env, Step(env, Step(env, s, a), b), c)
  {
    RunTwo(env, s, a, b);
    RunAppend(env, s, [a, b], c);
    assert [a, b] + [c] == [a, b, c];
  }

  lemma {:induction false} AddAddPrune(env: Env, s: Ledger, b: Block, s': Ledger, b': Block, s'': Ledger, cutoff: U64)
    requires s.blocks != [] && s'.blocks != [] && s''.blocks != []
    requires Extend(env, s, b) == Ok(s') && Extend(env, s', b') == Ok(s'')
    ensures Run(env, s, [Add(b), Add(b'), Prune(cutoff)]) == Pruned(s'', cutoff)
  {
    RunThree(env, s, Add(b), Add(b'), Prune(cutoff));
  }

  lemma {:induction false} PruneOnly(s: Ledger, b: Block, cutoff: U64)
    requires s.blocks != [] && s.blocks[1..] == [b] && b.header.timestamp < cutoff
    ensures Pruned(s, cutoff).blocks == [s.blocks[0]]
  {
    PruneSplits([b], cutoff, 1);
  }

  lemma {:induction false} PruneFirst(s: Ledger, b: Block, b': Block, cutoff: U64)
    requires s.blocks != [] && s.blocks[1..] == [b, b'] && b.header.timestamp < cutoff <= b'.header.timestamp
    ensures Pruned(s, cutoff).blocks == [s.blocks[0], b'] && PruneCount(s, cutoff) == 1
  {
    PruneSplits([b, b'], cutoff, 1);
    assert [b, b'][1..] == [b'];
  }

  // ---------------------------------------------------------------- two blocks on a genesis

  /** An empty block on a genesis, stamped like genesis. */
  function FirstEmpty(env: Env, validators: seq<PublicKey>, timestamp: U64): Block
    requires validators != []
  {
    NextBlock(env, GenesisBlock(env, validators, timestamp), [], validators[0], timestamp)
  }

  /** A block on top of it, stamped one later. */
  function Second(env: Env, validators: seq<PublicKey>, timestamp: U64, transactions: seq<Transaction>): Block
    requires validators != [] && timestamp + 1 < 0x1_0000_0000_0000_0000
  {
    NextBlock(env, FirstEmpty(env, validators, timestamp), transactions, validators[0], timestamp + 1)
  }

  /** Valid transactions whose ids the genesis block does not have. */
  ghost predicate NewTo(env: Env, validators: seq<PublicKey>, timestamp: U64, transactions: seq<Transaction>)
    requires validators != []
  {
    AllValid(env, transactions) && NoneIndexed(transactions, IdSet(GenesisBlock(env, validators, timestamp)))
  }

  lemma {:induction false} GenesisIds(g: Block)
    ensures TxIndex([g]).Keys == IdSet(g)
  {
    TxIndexKeys([g]);
  }

  lemma {:induction false} FirstAccepted(env: Env, validators: seq<PublicKey>, timestamp: U64)
    requires validators != []
    ensures var s, b := NewLedger(env, validators, timestamp), FirstEmpty(env, validators, timestamp);
            && Extend(env, s, b) == Ok(Append(s, b)) && b.transactions == []
            && b.header.height == 1 && b.header.timestamp == timestamp
            && Append(s, b).txToBlock.Keys == IdSet(GenesisBlock(env, validators, timestamp))
  {
    NextAccepted(env, NewLedger(env, validators, timestamp), [], validators[0], timestamp);
    GenesisIds(GenesisBlock(env, validators, timestamp));
  }

  lemma {:induction false} SecondAccepted(env: Env, validators: seq<PublicKey>, timestamp: U64,
                                          transactions: seq<Transaction>)
    requires validators != [] && timestamp + 1 < 0x1_0000_0000_0000_0000
    requires NewTo(env, validators, timestamp, transactions)
    ensures var s := Append(NewLedger(env, validators, timestamp), FirstEmpty(env, validators, timestamp));
            var b := Second(env, validators, timestamp, transactions);
            && Extend(env, s, b) == Ok(Append(s, b)) && b.transactions == transactions
            && b.header.height == 2 && b.header.timestamp == timestamp + 1
  {
    var s := Append(NewLedger(env, validators, timestamp), FirstEmpty(env, validators, timestamp));
    FirstAccepted(env, validators, timestamp);
    NextAccepted(env, s, transactions, validators[0], timestamp + 1);
  }

  /** The chain of a genesis and the two blocks. */
  function WithTwo(env: Env, validators: seq<PublicKey>, timestamp: U64, transactions: seq<Transaction>): Ledger
    requires validators != [] && timestamp + 1 < 0x1_0000_0000_0000_0000
  {
    Append(Append(NewLedger(env, validators, timestamp), FirstEmpty(env, validators, timestamp)),
           Second(env, validators, timestamp, transactions))
  }

  lemma {:induction false} WithTwoBlocks(env: Env, validators: seq<PublicKey>, timestamp: U64,
                                         transactions: seq<Transaction>)
    requires validators != [] && timestamp + 1 < 0x1_0000_0000_0000_0000
    ensures WithTwo(env, validators, timestamp, transactions).blocks
         == [GenesisBlock(env, validators, timestamp), FirstEmpty(env, validators, timestamp),
             Second(env, validators, timestamp, transactions)]
  {
  }

  lemma {:induction false} WithTwoGrown(env: Env, validators: seq<PublicKey>, timestamp: U64,
                                        transactions: seq<Transaction>)
    requires validators != [] && timestamp + 1 < 0x1_0000_0000_0000_0000
    requires NewTo(env, validators, timestamp, transactions)
    ensures Grown(env, validators, timestamp, WithTwo(env, validators, timestamp, transactions))
  {
    var s, b := NewLedger(env, validators, timestamp), FirstEmpty(env, validators, timestamp);
    var b' := Second(env, validators, timestamp, transactions);
    FirstAccepted(env, validators, timestamp);
    SecondAccepted(env, validators, timestamp, transactions);
    ReplayTwo(env, s, b, Append(s, b), b', Append(Append(s, b), b'));
  }

  lemma {:induction false} ReplayTwo(env: Env, s: Ledger, b: Block, s': Ledger, b': Block, s'': Ledger)
    requires s.blocks != [] && s'.blocks != [] && s''.blocks != []
    requires Extend(env, s, b) == Ok(s') && Extend(env, s', b') == Ok(s'')
    ensures Replay(env, s, [b, b']) == Ok(s'')
  {
    ReplayFirst(env, s', b', []);
    ReplayFirst(env, s, b, [b']);
    assert [b'] + [] == [b'] && [b] + [b'] == [b, b'];
  }

  /** Pruning at the later stamp removes the first of the two. */
  lemma {:induction false} WithTwoPruned(env: Env, validators: seq<PublicKey>, timestamp: U64,
                                         transactions: seq<Transaction>)
    requires validators != [] && timestamp + 1 < 0x1_0000_0000_0000_0000
    requires NewTo(env, validators, timestamp, transactions)
    ensures var chain := WithTwo(env, validators, timestamp, transactions);
            && PruneCount(chain, timestamp + 1) == 1
            && Pruned(chain, timestamp + 1).blocks
               == [GenesisBlock(env, validators, timestamp), Second(env, validators, timestamp, transactions)]
  {
    var b, b' := FirstEmpty(env, validators, timestamp), Second(env, validators, timestamp, transactions);
    var chain := WithTwo(env, validators, timestamp, transactions);
    FirstAccepted(env, validators, timestamp);
    SecondAccepted(env, validators, timestamp, transactions);
    WithTwoBlocks(env, validators, timestamp, transactions);
    assert chain.blocks[1..] == [b, b'];
    PruneFirst(chain, b, b', timestamp + 1);
  }

  // ---------------------------------------------------------------- a gap is reachable

  /** Two accepted blocks and one prune. */
  function GapOps(env: Env, validators: seq<PublicKey>, timestamp: U64, transactions: seq<Transaction>): seq<Op>
    requires validators != [] && timestamp + 1 < 0x1_0000_0000_0000_0000
  {
    [Add(FirstEmpty(env, validators, timestamp)), Add(Second(env, validators, timestamp, transactions)),
     Prune(timestamp + 1)]
  }

  lemma {:induction false} GapRun(env: Env, validators: seq<PublicKey>, timestamp: U64, transactions: seq<Transaction>)
    requires validators != [] && timestamp + 1 < 0x1_0000_0000_0000_0000
    requires NewTo(env, validators, timestamp, transactions)
    ensures Run(env, NewLedger(env, validators, timestamp), GapOps(env, validators, timestamp, transactions))
         == Pruned(WithTwo(env, validators, timestamp, transactions), timestamp + 1)
  {
    var start, b := NewLedger(env, validators, timestamp), FirstEmpty(env, validators, timestamp);
    var b' := Second(env, validators, timestamp, transactions);
    FirstAccepted(env, validators, timestamp);
    SecondAccepted(env, validators, timestamp, transactions);
    AddAddPrune(env, start, b, Append(start, b), b', Append(Append(start, b), b'), timestamp + 1);
  }

  lemma {:induction false} GapInvariant(env: Env, validators: seq<PublicKey>, timestamp: U64,
                                        transactions: seq<Transaction>)
    requires validators != [] && timestamp + 1 < 0x1_0000_0000_0000_0000
    requires NewTo(env, validators, timestamp, transactions)
    ensures var s := Run(env, NewLedger(env, validators, timestamp), GapOps(env, validators, timestamp, transactions));
            var b := Second(env, validators, timestamp, transactions);
            && RunInvariant(env, s) && |s.blocks| == 2 && s.blocks[1] == b && s.height == 2
            && b.header.height == 2 && b.transactions == transactions
  {
    StartInvariant(env, validators, timestamp);
    RunsKeepInvariant(env, NewLedger(env, validators, timestamp), GapOps(env, validators, timestamp, transactions));
    GapRun(env, validators, timestamp, transactions);
    WithTwoPruned(env, validators, timestamp, transactions);
    SecondAccepted(env, validators, timestamp, transactions);
  }

  /** What two retained blocks at heights 0 and 2 lead to: the lookup of height 2 panics, that of height 1 returns
      the block of height 2, `verify` fails, and so does every transaction lookup in that block. */
  ghost predicate Lost(env: Env, s: Ledger, b: Block) {
    && !NoGap(s) && VerifyBlocks(env, s.blocks).Err?
    && ByHeight(s, 2) == OutOfBounds && ByHeight(s, 1) == Found(b) && AtHeight(s.blocks, 2) == Some(b)
    && (forall id | id in IdSet(b) ::
          TxById(s, id) == OutOfBounds && NodeScanOf(s, id) == FindTx(b.transactions, id) && NodeScanOf(s, id).Some?)
  }

  /** The full node's search over all heights of the chain. */
  function NodeScanOf(s: Ledger, id: Hash): Option<Transaction> { NodeScan(s.blocks, id, s.height + 1) }

  lemma {:induction false} GapLoses(env: Env, s: Ledger, b: Block)
    requires RunInvariant(env, s) && |s.blocks| == 2 && s.blocks[1] == b && b.header.height == s.height == 2
    ensures Lost(env, s, b)
  {
    VerifyNeedsNoGap(env, s);
    AtHeightFinds(env, s.blocks, 1);
    forall id | id in IdSet(b)
      ensures TxById(s, id) == OutOfBounds && NodeScanOf(s, id) == FindTx(b.transactions, id) && NodeScanOf(s, id).Some?
    {
      TxIndexAt(s.blocks, 1, id);
      NodeScanAt(env, s, 1, id);
    }
  }

  /** A gap is reachable from every genesis configuration, with any new valid transactions lost in it: after two
      accepted blocks and one prune the retained block and its transactions are not found, though the scans do. */
  lemma {:induction false} GapReached(env: Env, validators: seq<PublicKey>, timestamp: U64,
                                      transactions: seq<Transaction>)
    requires validators != [] && timestamp + 1 < 0x1_0000_0000_0000_0000
    requires NewTo(env, validators, timestamp, transactions)
    ensures var s := Run(env, NewLedger(env, validators, timestamp), GapOps(env, validators, timestamp, transactions));
            Lost(env, s, Second(env, validators, timestamp, transactions))
  {
    var s := Run(env, NewLedger(env, validators, timestamp), GapOps(env, validators, timestamp, transactions));
    GapInvariant(env, validators, timestamp, transactions);
    GapLoses(env, s, Second(env, validators, timestamp, transactions));
  }

  /** In particular every single valid transaction that is not in genesis can be lost. */
  lemma {:induction false} TransactionLost(env: Env, validators: seq<PublicKey>, timestamp: U64, t: Transaction)
    requires validators != [] && timestamp + 1 < 0x1_0000_0000_0000_0000
    requires ValidateTransaction(env, t).Ok? && t.id !in IdSet(GenesisBlock(env, validators, timestamp))
    ensures var s := Run(env, NewLedger(env, validators, timestamp), GapOps(env, validators, timestamp, [t]));
            TxById(s, t.id) == OutOfBounds && NodeScanOf(s, t.id) == Some(t)
  {
    var b := Second(env, validators, timestamp, [t]);
    GapReached(env, validators, timestamp, [t]);
    SecondAccepted(env, validators, timestamp, [t]);
    assert b.transactions[0] == t && t.id in IdSet(b);
  }

  /** The retained block is not found under its hash either, or two header encodings of the run collide. */
  lemma {:induction false} HashLost(env: Env, validators: seq<PublicKey>, timestamp: U64,
                                    transactions: seq<Transaction>)
    requires validators != [] && timestamp + 1 < 0x1_0000_0000_0000_0000
    requires NewTo(env, validators, timestamp, transactions)
    ensures var start, ops := NewLedger(env, validators, timestamp), GapOps(env, validators, timestamp, transactions);
            var s, b := Run(env, start, ops), Second(env, validators, timestamp, transactions);
            || (ByHash(s, b.header.hash) == OutOfBounds && ScanHash(s.blocks, b.header.hash) == Some(b))
            || HasCollision(env.hash, RunInputs(start, ops))
  {
    var start, ops := NewLedger(env, validators, timestamp), GapOps(env, validators, timestamp, transactions);
    var S := RunInputs(start, ops);
    if !HasCollision(env.hash, S) {
      StartInvariant(env, validators, timestamp);
      RunsWithinInputs(env, start, ops, S);
      CollisionMonotone(env.hash, HeaderInputs(Run(env, start, ops).blocks), S);
      GapInvariant(env, validators, timestamp, transactions);
      HashLoses(env, Run(env, start, ops), Second(env, validators, timestamp, transactions));
    }
  }

  lemma {:induction false} HashLoses(env: Env, s: Ledger, b: Block)
    requires RunInvariant(env, s) && HashIndexExact(s) && !HasCollision(env.hash, HeaderInputs(s.blocks))
    requires |s.blocks| == 2 && s.blocks[1] == b && b.header.height == s.height == 2
    ensures ByHash(s, b.header.hash) == OutOfBounds && ScanHash(s.blocks, b.header.hash) == Some(b)
  {
    HashIndexAt(env, s.blocks, 1);
    ScanHashSome(s.blocks, 1);
    var i := ScanHashWitness(s.blocks, b.header.hash);
    OnlyHolder(env, s.blocks, 1);
  }

  // ---------------------------------------------------------------- a stale height is reachable

  /** One accepted block and one prune leave only genesis and a stale height, where looking up height 1 panics. */
  lemma {:induction false} StaleHeightReached(env: Env, validators: seq<PublicKey>, timestamp: U64)
    requires validators != [] && timestamp + 1 < 0x1_0000_0000_0000_0000
    ensures var b := FirstEmpty(env, validators, timestamp);
            var s := Run(env, NewLedger(env, validators, timestamp), [Add(b), Prune(timestamp + 1)]);
            && !NoGap(s) && |s.blocks| == 1 && VerifyBlocks(env, s.blocks).Ok?
            && ByHeight(s, 1) == OutOfBounds && AtHeight(s.blocks, 1) == None
  {
    var b, start := FirstEmpty(env, validators, timestamp), NewLedger(env, validators, timestamp);
    var ops := [Add(b), Prune(timestamp + 1)];
    StartInvariant(env, validators, timestamp);
    RunsKeepInvariant(env, start, ops);
    FirstAccepted(env, validators, timestamp);
    RunTwo(env, start, Add(b), Prune(timestamp + 1));
    PruneOnly(Append(start, b), b, timestamp + 1);
    StaleState(env, Run(env, start, ops));
  }

  lemma {:induction false} StaleState(env: Env, s: Ledger)
    requires RunInvariant(env, s) && |s.blocks| == 1 && s.height == 1
    ensures !NoGap(s) && VerifyBlocks(env, s.blocks).Ok?
    ensures ByHeight(s, 1) == OutOfBounds && AtHeight(s.blocks, 1) == None
  {
    VerifyNeedsNoGap(env, s);
    AtHeightNone(s.blocks, 1);
  }
}
