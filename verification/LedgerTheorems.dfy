/** What the chain promises: batch and incremental verification agree, the head hash fixes the history,
    and the indexes answer like linear scans. */
module LedgerTheorems {
  import opened Encoding
  import opened Blocks
  import opened Ledgers

  // ---------------------------------------------------------------- declarative chain conditions

  /** Height 0, no predecessor, internally valid. */
  ghost predicate IsGenesis(env: Env, b: Block) {
    Sound(env, b) && b.header.height == 0 && b.header.previousHash == ZERO
  }

  ghost predicate LinkedAt(bs: seq<Block>, i: nat)
    requires 1 <= i < |bs|
  {
    Linked(bs[i - 1], bs[i])
  }

  /** A genesis block followed by validated, linked blocks. */
  ghost predicate ChainOk(env: Env, bs: seq<Block>) {
    && bs != [] && IsGenesis(env, bs[0])
    && (forall i | 1 <= i < |bs| :: Sound(env, bs[i]))
    && (forall i | 1 <= i < |bs| :: LinkedAt(bs, i))
  }

  /** No transaction id occurs in two different blocks. */
  ghost predicate DisjointIds(bs: seq<Block>) {
    forall i, j | 0 <= i < j < |bs| :: IdSet(bs[i]) !! IdSet(bs[j])
  }

  lemma {:induction false} StepExact(env: Env, previous: Block, b: Block)
    ensures Validate(env, b).Ok? && ValidateChainLink(b, previous).Ok? <==> Sound(env, b) && Linked(previous, b)
  {
    ValidateExact(env, b);
  }

  ghost predicate GoodAt(env: Env, bs: seq<Block>, i: nat)
    requires 1 <= i < |bs|
  {
    Sound(env, bs[i]) && LinkedAt(bs, i)
  }

  lemma {:induction false} VerifyOneMore(env: Env, bs: seq<Block>, n: nat)
    requires 1 <= n < |bs|
    ensures VerifyLinks(env, bs, n + 1).Ok? <==> VerifyLinks(env, bs, n).Ok? && GoodAt(env, bs, n)
  {
    StepExact(env, bs[n - 1], bs[n]);
  }

  /** The loop accepts the first `n` blocks exactly if all but the first are validated and linked. */
  lemma {:induction false} VerifyLinksExact(env: Env, bs: seq<Block>, n: nat)
    requires 1 <= n <= |bs|
    ensures VerifyLinks(env, bs, n).Ok? <==> forall i | 1 <= i < n :: GoodAt(env, bs, i)
  {
    if n > 1 {
      VerifyLinksExact(env, bs, n - 1);
      VerifyOneMore(env, bs, n - 1);
    }
  }

  lemma {:induction false} GoodEverywhere(env: Env, bs: seq<Block>)
    ensures (forall i | 1 <= i < |bs| :: GoodAt(env, bs, i))
       <==> (forall i | 1 <= i < |bs| :: Sound(env, bs[i])) && (forall i | 1 <= i < |bs| :: LinkedAt(bs, i))
  {
    if forall i | 1 <= i < |bs| :: GoodAt(env, bs, i) {
      forall i | 1 <= i < |bs|
        ensures Sound(env, bs[i]) && LinkedAt(bs, i)
      {
        assert GoodAt(env, bs, i);
      }
    }
  }

  /** The batch verifier accepts exactly the lists that form a chain. */
  lemma {:induction false} VerifyExact(env: Env, bs: seq<Block>)
    ensures VerifyBlocks(env, bs).Ok? <==> ChainOk(env, bs)
  {
    if bs != [] {
      ValidateExact(env, bs[0]);
      VerifyLinksExact(env, bs, |bs|);
      GoodEverywhere(env, bs);
    }
  }

  lemma {:induction false} FirstDuplicateExact(index: map<Hash, U64>, transactions: seq<Transaction>)
    ensures FirstDuplicate(index, transactions).None? <==> forall t | t in transactions :: t.id !in index
  {
    if transactions != [] {
      FirstDuplicateExact(index, transactions[1..]);
      assert forall t :: t in transactions <==> t == transactions[0] || t in transactions[1..];
    }
  }

  /** `add_block` accepts exactly the validated blocks that link to the last one and repeat no indexed id. */
  lemma {:induction false} ExtendExact(env: Env, s: Ledger, b: Block)
    requires s.blocks != []
    ensures Extend(env, s, b).Ok? <==> Sound(env, b) && Linked(Last(s.blocks), b) && IdSet(b) !! s.txToBlock.Keys
    ensures Extend(env, s, b).Ok? ==> Extend(env, s, b).value == Append(s, b)
  {
    ValidateExact(env, b);
    FirstDuplicateExact(s.txToBlock, b.transactions);
    assert (forall t | t in b.transactions :: t.id !in s.txToBlock) <==> IdSet(b) !! s.txToBlock.Keys;
  }

  // ---------------------------------------------------------------- index contents

  /** Every indexed id comes with the height of a listed block that contains it. */
  lemma {:induction false} TxIndexWitness(bs: seq<Block>, id: Hash) returns (i: nat)
    requires id in TxIndex(bs)
    ensures i < |bs| && id in IdSet(bs[i]) && TxIndex(bs)[id] == bs[i].header.height
  {
    if id in IdSet(Last(bs)) {
      i := |bs| - 1;
    } else {
      i := TxIndexWitness(bs[..|bs| - 1], id);
    }
  }

  /** Every id of a listed block is indexed. */
  lemma {:induction false} TxIndexHas(bs: seq<Block>, i: nat, id: Hash)
    requires i < |bs| && id in IdSet(bs[i])
    ensures id in TxIndex(bs)
  {
    if i < |bs| - 1 {
      assert bs[..|bs| - 1][i] == bs[i];
      TxIndexHas(bs[..|bs| - 1], i, id);
    }
  }

  /** With ids unique across blocks, the index names the one block that holds the id. */
  lemma {:induction false} TxIndexAt(bs: seq<Block>, i: nat, id: Hash)
    requires DisjointIds(bs) && i < |bs| && id in IdSet(bs[i])
    ensures id in TxIndex(bs) && TxIndex(bs)[id] == bs[i].header.height
  {
    TxIndexHas(bs, i, id);
    var j := TxIndexWitness(bs, id);
    assert i == j;
  }

  lemma {:induction false} TxIndexKeys(bs: seq<Block>)
    ensures TxIndex(bs).Keys == AllIds(bs)
  {
    forall id | id in TxIndex(bs)
      ensures id in AllIds(bs)
    {
      var i := TxIndexWitness(bs, id);
      assert bs[i] in bs;
    }
    forall id | id in AllIds(bs)
      ensures id in TxIndex(bs)
    {
      var b :| b in bs && id in IdSet(b);
      var i :| 0 <= i < |bs| && bs[i] == b;
      TxIndexHas(bs, i, id);
    }
  }

  /** Every indexed hash comes with the height of a listed block that has it. */
  lemma {:induction false} HashIndexWitness(bs: seq<Block>, x: Hash) returns (i: nat)
    requires x in HashIndex(bs)
    ensures i < |bs| && bs[i].header.hash == x && HashIndex(bs)[x] == bs[i].header.height
  {
    if Last(bs).header.hash == x {
      i := |bs| - 1;
    } else {
      i := HashIndexWitness(bs[..|bs| - 1], x);
    }
  }

  /** The hash of every listed block is indexed. */
  lemma {:induction false} HashIndexHas(bs: seq<Block>, i: nat)
    requires i < |bs|
    ensures bs[i].header.hash in HashIndex(bs)
  {
    if i < |bs| - 1 {
      assert bs[..|bs| - 1][i] == bs[i];
      HashIndexHas(bs[..|bs| - 1], i);
    }
  }

  /** Of several blocks with one hash the last is indexed. */
  lemma {:induction false} HashIndexLast(bs: seq<Block>, i: nat)
    requires i < |bs| && forall j | i < j < |bs| :: bs[j].header.hash != bs[i].header.hash
    ensures bs[i].header.hash in HashIndex(bs) && HashIndex(bs)[bs[i].header.hash] == bs[i].header.height
  {
    var n := |bs| - 1;
    if i < n {
      assert bs[n].header.hash != bs[i].header.hash;
      assert forall j | 0 <= j < n :: bs[..n][j] == bs[j];
      HashIndexLast(bs[..n], i);
    }
  }

  /** Of several blocks with one transaction id the last is indexed. */
  lemma {:induction false} TxIndexLast(bs: seq<Block>, i: nat, id: Hash)
    requires i < |bs| && id in IdSet(bs[i]) && forall j | i < j < |bs| :: id !in IdSet(bs[j])
    ensures id in TxIndex(bs) && TxIndex(bs)[id] == bs[i].header.height
  {
    var n := |bs| - 1;
    if i < n {
      assert id !in IdSet(bs[n]);
      assert forall j | 0 <= j < n :: bs[..n][j] == bs[j];
      TxIndexLast(bs[..n], i, id);
    }
  }

  lemma {:induction false} HashIndexKeys(bs: seq<Block>)
    ensures HashIndex(bs).Keys == Hashes(bs)
  {
    forall x | x in HashIndex(bs)
      ensures x in Hashes(bs)
    {
      var i := HashIndexWitness(bs, x);
      assert bs[i] in bs;
    }
    forall x | x in Hashes(bs)
      ensures x in HashIndex(bs)
    {
      var b :| b in bs && b.header.hash == x;
      var i :| 0 <= i < |bs| && bs[i] == b;
      HashIndexHas(bs, i);
    }
  }

  // ---------------------------------------------------------------- replay

  lemma {:induction false} AppendIndexed(bs: seq<Block>, b: Block)
    requires bs != []
    ensures Append(Indexed(bs), b) == Indexed(bs + [b])
  {
    assert (bs + [b])[..|bs + [b]| - 1] == bs;
  }

  lemma {:induction false} ExtendedChain(env: Env, bs: seq<Block>, b: Block)
    requires ChainOk(env, bs) && DisjointIds(bs)
    ensures Extend(env, Indexed(bs), b).Ok? <==> ChainOk(env, bs + [b]) && DisjointIds(bs + [b])
    ensures Extend(env, Indexed(bs), b).Ok? ==> Extend(env, Indexed(bs), b).value == Indexed(bs + [b])
  {
    ExtendExact(env, Indexed(bs), b);
    AppendIndexed(bs, b);
    DisjointGrows(bs, b);
    ChainGrows(env, bs, b);
  }

  lemma {:induction false} ChainGrows(env: Env, bs: seq<Block>, b: Block)
    requires ChainOk(env, bs)
    ensures ChainOk(env, bs + [b]) <==> Sound(env, b) && Linked(Last(bs), b)
  {
    var longer := bs + [b];
    if ChainOk(env, longer) {
      assert Sound(env, longer[|bs|]) && LinkedAt(longer, |bs|);
    }
    if Sound(env, b) && Linked(Last(bs), b) {
      forall i | 1 <= i < |longer|
        ensures Sound(env, longer[i]) && LinkedAt(longer, i)
      {
        assert i < |bs| ==> LinkedAt(bs, i) && longer[i] == bs[i];
      }
    }
  }

  lemma {:induction false} DisjointGrows(bs: seq<Block>, b: Block)
    requires DisjointIds(bs)
    ensures DisjointIds(bs + [b]) <==> IdSet(b) !! TxIndex(bs).Keys
  {
    var longer := bs + [b];
    TxIndexKeys(bs);
    if DisjointIds(longer) {
      forall c | c in bs
        ensures IdSet(b) !! IdSet(c)
      {
        var i :| 0 <= i < |bs| && bs[i] == c;
        assert IdSet(longer[i]) !! IdSet(longer[|bs|]);
      }
    } else {
      var i, j :| 0 <= i < j < |longer| && !(IdSet(longer[i]) !! IdSet(longer[j]));
      assert j == |bs| && bs[i] in bs;
    }
  }

  lemma {:induction false} ChainPrefix(env: Env, bs: seq<Block>, n: nat)
    requires ChainOk(env, bs) && 1 <= n <= |bs|
    ensures ChainOk(env, bs[..n])
  {
    forall i | 1 <= i < n
      ensures LinkedAt(bs[..n], i)
    {
      assert LinkedAt(bs, i);
    }
  }

  lemma {:induction false} PrefixOfChain(env: Env, bs: seq<Block>, n: nat)
    requires ChainOk(env, bs) && DisjointIds(bs) && 1 <= n <= |bs|
    ensures ChainOk(env, bs[..n]) && DisjointIds(bs[..n])
  {
    ChainPrefix(env, bs, n);
  }

  /** Replay succeeds exactly on lists that form a chain with unique ids, and then rebuilds their ledger. */
  ghost predicate ReplayAgrees(env: Env, done: seq<Block>, rest: seq<Block>)
    requires done != []
  {
    var r := Replay(env, Indexed(done), rest);
    && (r.Ok? <==> ChainOk(env, done + rest) && DisjointIds(done + rest))
    && (r.Ok? ==> r.value == Indexed(done + rest))
  }

  lemma {:induction false} ReplayAccepts(env: Env, done: seq<Block>, b: Block, rest: seq<Block>)
    requires done != [] && Extend(env, Indexed(done), b) == Ok(Indexed(done + [b]))
    requires ReplayAgrees(env, done + [b], rest)
    ensures ReplayAgrees(env, done, [b] + rest)
  {
    ReplayFirst(env, Indexed(done), b, rest);
    Reassociate(done, b, rest);
  }

  lemma {:induction false} ReplayFirst(env: Env, s: Ledger, b: Block, rest: seq<Block>)
    requires s.blocks != [] && Extend(env, s, b).Ok?
    ensures Extend(env, s, b).value.blocks != []
    ensures Replay(env, s, [b] + rest) == Replay(env, Extend(env, s, b).value, rest)
  {
    assert ([b] + rest)[1..] == rest;
  }

  lemma {:induction false} ReplayRejects(env: Env, done: seq<Block>, b: Block, rest: seq<Block>)
    requires ChainOk(env, done) && DisjointIds(done) && Extend(env, Indexed(done), b).Err?
    ensures ReplayAgrees(env, done, [b] + rest)
  {
    RejectedForGood(env, done, b, rest);
    Reassociate(done, b, rest);
    ReplayFails(env, Indexed(done), b, rest);
  }

  lemma {:induction false} ReplayFails(env: Env, s: Ledger, b: Block, rest: seq<Block>)
    requires s.blocks != [] && Extend(env, s, b).Err?
    ensures Replay(env, s, [b] + rest).Err?
  {
    assert ([b] + rest)[0] == b;
  }

  lemma {:induction false} ReplayExact(env: Env, done: seq<Block>, rest: seq<Block>)
    requires ChainOk(env, done) && DisjointIds(done)
    ensures ReplayAgrees(env, done, rest)
    decreases |rest|
  {
    if rest == [] {
      assert done + rest == done;
    } else {
      ExtendedChain(env, done, rest[0]);
      assert [rest[0]] + rest[1..] == rest;
      if Extend(env, Indexed(done), rest[0]).Ok? {
        ReplayExact(env, done + [rest[0]], rest[1..]);
        ReplayAccepts(env, done, rest[0], rest[1..]);
      } else {
        ReplayRejects(env, done, rest[0], rest[1..]);
      }
    }
  }

  /** A block that `add_block` rejects spoils every list that continues with it. */
  lemma {:induction false} RejectedForGood(env: Env, done: seq<Block>, b: Block, rest: seq<Block>)
    requires ChainOk(env, done) && DisjointIds(done) && Extend(env, Indexed(done), b).Err?
    ensures !(ChainOk(env, done + [b] + rest) && DisjointIds(done + [b] + rest))
  {
    var all := done + [b] + rest;
    ExtendedChain(env, done, b);
    assert all[..|done| + 1] == done + [b];
    if ChainOk(env, all) && DisjointIds(all) {
      PrefixOfChain(env, all, |done| + 1);
    }
  }

  /** Batch and incremental verification agree: the blocks after a genesis block are accepted one by one
      exactly when `verify` accepts the whole list and no id occurs in two blocks, and the chain they
      build is then the list with both indexes recomputed from it. */
  lemma {:induction false} ReplayIffVerify(env: Env, bs: seq<Block>)
    requires bs != [] && IsGenesis(env, bs[0])
    ensures Replay(env, Indexed(bs[..1]), bs[1..]).Ok? <==> VerifyBlocks(env, bs).Ok? && DisjointIds(bs)
    ensures Replay(env, Indexed(bs[..1]), bs[1..]).Ok? ==> Replay(env, Indexed(bs[..1]), bs[1..]).value == Indexed(bs)
  {
    VerifyExact(env, bs);
    ReplayExact(env, bs[..1], bs[1..]);
    assert bs[..1] + bs[1..] == bs;
  }

  /** The states that `new` on a genesis configuration and successful `add_block` calls reach. */
  ghost predicate Grown(env: Env, validators: seq<PublicKey>, timestamp: U64, s: Ledger)
    requires validators != []
  {
    exists rest :: Replay(env, NewLedger(env, validators, timestamp), rest) == Ok(s)
  }

  /** Every grown chain starts with the genesis block of its configuration, passes `verify`, keeps ids unique
      across blocks, and is determined by its block list. */
  lemma {:induction false} GrownChain(env: Env, validators: seq<PublicKey>, timestamp: U64, s: Ledger)
    requires validators != [] && Grown(env, validators, timestamp, s)
    ensures s.blocks != [] && s == Indexed(s.blocks) && s.blocks[0] == GenesisBlock(env, validators, timestamp)
    ensures VerifyBlocks(env, s.blocks).Ok? && ChainOk(env, s.blocks) && DisjointIds(s.blocks)
  {
    var g := GenesisBlock(env, validators, timestamp);
    var rest :| Replay(env, NewLedger(env, validators, timestamp), rest) == Ok(s);
    GenesisSound(env, validators, timestamp);
    GrownFrom(env, g, rest, s);
  }

  lemma {:induction false} GrownFrom(env: Env, g: Block, rest: seq<Block>, s: Ledger)
    requires IsGenesis(env, g) && Replay(env, Indexed([g]), rest) == Ok(s)
    ensures s == Indexed([g] + rest) && VerifyBlocks(env, [g] + rest).Ok?
    ensures ChainOk(env, [g] + rest) && DisjointIds([g] + rest)
  {
    var bs := [g] + rest;
    assert bs[..1] == [g] && bs[1..] == rest;
    ReplayIffVerify(env, bs);
    VerifyExact(env, bs);
  }

  // ---------------------------------------------------------------- history

  /** Every byte string hashed when `verify` checks the headers and Merkle roots of a list. */
  function ChainInputs(env: Env, bs: seq<Block>): set<Bytes> {
    set b, x | b in bs && x in BlockInputs(env, b) :: x
  }

  function HeaderInputs(bs: seq<Block>): set<Bytes> {
    set b | b in bs :: HeaderBytes(b.header)
  }

  function AllTxInputs(env: Env, bs: seq<Block>): set<Bytes> {
    set b, x | b in bs && x in TxInputs(env, b) :: x
  }

  ghost predicate AllCountable(bs: seq<Block>) { forall b | b in bs :: Countable(b) }

  lemma {:induction false} HeightIsPosition(env: Env, bs: seq<Block>, i: nat)
    requires ChainOk(env, bs) && i < |bs|
    ensures bs[i].header.height == i
  {
    if i > 0 {
      assert LinkedAt(bs, i);
      HeightIsPosition(env, bs, i - 1);
    }
  }

  /** Equal headers and equal transaction-id lists at every height. */
  ghost predicate SameHistory(a: seq<Block>, b: seq<Block>) {
    |a| == |b| && forall i | 0 <= i < |a| :: a[i].header == b[i].header && IdList(a[i]) == IdList(b[i])
  }

  /** The head hash fixes the history: two lists that pass `verify` and end in the same hash have the
      same length, the same headers and the same transaction ids in the same order at every height, or
      the byte strings they hash contain a collision. */
  lemma {:induction false} HeadFixesHistory(env: Env, a: seq<Block>, b: seq<Block>)
    requires VerifyBlocks(env, a).Ok? && VerifyBlocks(env, b).Ok?
    requires a != [] && b != [] && AllCountable(a) && AllCountable(b)
    requires Last(a).header.hash == Last(b).header.hash
    ensures SameHistory(a, b) || HasCollision(env.hash, ChainInputs(env, a) + ChainInputs(env, b))
  {
    VerifyExact(env, a);
    VerifyExact(env, b);
    ChainsAgree(env, a, b);
  }

  lemma {:induction false} ChainsAgree(env: Env, a: seq<Block>, b: seq<Block>)
    requires ChainOk(env, a) && ChainOk(env, b) && AllCountable(a) && AllCountable(b)
    requires Last(a).header.hash == Last(b).header.hash
    ensures SameHistory(a, b) || HasCollision(env.hash, ChainInputs(env, a) + ChainInputs(env, b))
  {
    if !HasCollision(env.hash, ChainInputs(env, a) + ChainInputs(env, b)) {
      SameLength(env, a, b);
      forall i | 0 <= i < |a|
        ensures a[i].header == b[i].header && IdList(a[i]) == IdList(b[i])
      {
        HistoryAt(env, a, b, i);
      }
    }
  }

  lemma {:induction false} InputsOfMember(env: Env, bs: seq<Block>, i: nat)
    requires i < |bs|
    ensures BlockInputs(env, bs[i]) <= ChainInputs(env, bs)
  {
    assert bs[i] in bs;
  }

  /** Blocks of two chains with one hash agree, unless something the chains hash collides. */
  lemma {:induction false} BlocksEqual(env: Env, a: seq<Block>, b: seq<Block>, i: nat, j: nat)
    requires ChainOk(env, a) && ChainOk(env, b) && AllCountable(a) && AllCountable(b)
    requires i < |a| && j < |b| && a[i].header.hash == b[j].header.hash
    requires !HasCollision(env.hash, ChainInputs(env, a) + ChainInputs(env, b))
    ensures a[i].header == b[j].header && IdList(a[i]) == IdList(b[j])
  {
    HashBindsBlock(env, a[i], b[j]);
    InputsOfMember(env, a, i);
    InputsOfMember(env, b, j);
    CollisionMonotone(env.hash, BlockInputs(env, a[i]) + BlockInputs(env, b[j]),
                      ChainInputs(env, a) + ChainInputs(env, b));
  }

  /** Equal head hashes stand at equal heights. */
  lemma {:induction false} SameLength(env: Env, a: seq<Block>, b: seq<Block>)
    requires ChainOk(env, a) && ChainOk(env, b) && AllCountable(a) && AllCountable(b)
    requires Last(a).header.hash == Last(b).header.hash
    requires !HasCollision(env.hash, ChainInputs(env, a) + ChainInputs(env, b))
    ensures |a| == |b|
  {
    SameHeights(env, a, b, |a| - 1, |b| - 1);
  }

  lemma {:induction false} SameHeights(env: Env, a: seq<Block>, b: seq<Block>, i: nat, j: nat)
    requires ChainOk(env, a) && ChainOk(env, b) && AllCountable(a) && AllCountable(b)
    requires i < |a| && j < |b| && a[i].header.hash == b[j].header.hash
    requires !HasCollision(env.hash, ChainInputs(env, a) + ChainInputs(env, b))
    ensures i == j
  {
    BlocksEqual(env, a, b, i, j);
    HeightIsPosition(env, a, i);
    HeightIsPosition(env, b, j);
  }

  /** From the head down: equal blocks name the same predecessor hash. */
  lemma {:induction false} HistoryAt(env: Env, a: seq<Block>, b: seq<Block>, i: nat)
    requires ChainOk(env, a) && ChainOk(env, b) && AllCountable(a) && AllCountable(b)
    requires i < |a| == |b| && Last(a).header.hash == Last(b).header.hash
    requires !HasCollision(env.hash, ChainInputs(env, a) + ChainInputs(env, b))
    ensures a[i].header == b[i].header && IdList(a[i]) == IdList(b[i])
    decreases |a| - i
  {
    if i < |a| - 1 {
      HistoryAt(env, a, b, i + 1);
      assert LinkedAt(a, i + 1) && LinkedAt(b, i + 1);
    }
    BlocksEqual(env, a, b, i, i);
  }

  /** With a decodable transaction encoding the head hash fixes the transactions themselves. */
  lemma {:induction false} HeadFixesTransactions(env: Env, a: seq<Block>, b: seq<Block>)
    requires FaithfulEncoding(env)
    requires VerifyBlocks(env, a).Ok? && VerifyBlocks(env, b).Ok?
    requires a != [] && b != [] && AllCountable(a) && AllCountable(b)
    requires Last(a).header.hash == Last(b).header.hash
    ensures || (SameHistory(a, b) && forall i | 0 <= i < |a| :: a[i].transactions == b[i].transactions)
            || HasCollision(env.hash, ChainInputs(env, a) + ChainInputs(env, b))
            || HasCollision(env.hash, AllTxInputs(env, a) + AllTxInputs(env, b))
  {
    HeadFixesHistory(env, a, b);
    VerifyExact(env, a);
    VerifyExact(env, b);
    if SameHistory(a, b) && !HasCollision(env.hash, AllTxInputs(env, a) + AllTxInputs(env, b)) {
      forall i | 0 <= i < |a|
        ensures a[i].transactions == b[i].transactions
      {
        TransactionsAt(env, a, b, i);
      }
    }
  }

  lemma {:induction false} TransactionsAt(env: Env, a: seq<Block>, b: seq<Block>, i: nat)
    requires FaithfulEncoding(env) && ChainOk(env, a) && ChainOk(env, b) && SameHistory(a, b) && i < |a|
    requires !HasCollision(env.hash, AllTxInputs(env, a) + AllTxInputs(env, b))
    ensures a[i].transactions == b[i].transactions
  {
    IdsBindTransactions(env, a[i], b[i]);
    assert a[i] in a && b[i] in b;
    CollisionMonotone(env.hash, TxInputs(env, a[i]) + TxInputs(env, b[i]), AllTxInputs(env, a) + AllTxInputs(env, b));
  }

  /** The signatures of a block are covered by no hash: replacing those of any block of any list changes neither what
      `verify` answers nor any hash. */
  lemma {:induction false} SignaturesNotCovered(env: Env, bs: seq<Block>, k: nat, signatures: seq<ValidatorSignature>)
    requires k < |bs|
    ensures var other := bs[k := bs[k].(signatures := signatures)];
            && VerifyBlocks(env, other) == VerifyBlocks(env, bs)
            && forall i | 0 <= i < |bs| ::
                 other[i].header == bs[i].header && other[i].transactions == bs[i].transactions
  {
    var other := bs[k := bs[k].(signatures := signatures)];
    forall i | 0 <= i < |bs|
      ensures SameChecks(env, bs, other, i)
    {
      SameExceptSignatures(env, bs[i], other[i]);
    }
    SameVerdict(env, bs, other);
  }

  lemma {:induction false} SameExceptSignatures(env: Env, a: Block, b: Block)
    requires a.header == b.header && a.transactions == b.transactions
    ensures Validate(env, a) == Validate(env, b)
  {
    assert IdList(a) == IdList(b);
  }

  lemma {:induction false} SameVerdict(env: Env, a: seq<Block>, b: seq<Block>)
    requires 0 < |a| == |b| && forall i | 0 <= i < |a| :: SameChecks(env, a, b, i)
    ensures VerifyBlocks(env, a) == VerifyBlocks(env, b)
  {
    assert SameChecks(env, a, b, 0);
    SameLinks(env, a, b, |a|);
  }

  ghost predicate SameChecks(env: Env, a: seq<Block>, b: seq<Block>, i: nat)
    requires i < |a| == |b|
  {
    Validate(env, a[i]) == Validate(env, b[i]) && a[i].header == b[i].header
  }

  lemma {:induction false} SameLinks(env: Env, a: seq<Block>, b: seq<Block>, n: nat)
    requires 1 <= n <= |a| == |b| && forall i | 0 <= i < |a| :: SameChecks(env, a, b, i)
    ensures VerifyLinks(env, a, n) == VerifyLinks(env, b, n)
  {
    if n > 1 {
      SameLinks(env, a, b, n - 1);
      SameNext(env, a, b, n);
    }
  }

  lemma {:induction false} SameNext(env: Env, a: seq<Block>, b: seq<Block>, n: nat)
    requires 2 <= n <= |a| == |b| && VerifyLinks(env, a, n - 1) == VerifyLinks(env, b, n - 1)
    requires SameChecks(env, a, b, n - 1) && SameChecks(env, a, b, n - 2)
    ensures VerifyLinks(env, a, n) == VerifyLinks(env, b, n)
  {
    SameLinkCheck(a[n - 1], a[n - 2], b[n - 1], b[n - 2]);
  }

  lemma {:induction false} SameLinkCheck(a: Block, p: Block, b: Block, q: Block)
    requires a.header == b.header && p.header == q.header
    ensures ValidateChainLink(a, p) == ValidateChainLink(b, q)
  {
  }
}
