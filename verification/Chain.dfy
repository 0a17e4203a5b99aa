/** The blockchain object: a block list, two hash-map indexes, a height and the genesis hash, changed
    in place.  Every method is proved against the value functions of `Ledgers`. */
module Chain {
  import opened Encoding
  import opened Blocks
  import opened Ledgers

  class Blockchain {
    var blocks: seq<Block>
    var hashToHeight: map<Hash, U64>
    var txToBlock: map<Hash, U64>
    var height: U64
    var genesisHash: Hash

    function State(): Ledger
      reads this
    {
      Ledger(blocks, hashToHeight, txToBlock, height, genesisHash)
    }

    /** The chain of a genesis block that `create_block` returned. */
    constructor (genesis: Block)
      requires genesis.header.height == 0
      ensures State() == Indexed([genesis])
    {
      var index := IndexTransactions(map[], genesis);
      hashToHeight := map[genesis.header.hash := 0];
      txToBlock := index;
      blocks := [genesis];
      height := 0;
      genesisHash := genesis.header.hash;
      new;
      IndexedGenesis(genesis);
    }

    static method New(env: Env, validators: seq<PublicKey>, timestamp: U64, now: U64) returns (r: Result<Blockchain>)
      ensures r.Ok? <==> validators != []
      ensures r.Err? ==> r.error == GenesisError("Genesis must have at least one validator")
      ensures r.Ok? ==> fresh(r.value) && r.value.State() == NewLedger(env, validators, timestamp)
    {
      var created := CreateBlock(env, validators, timestamp, now);
      if created.Err? {
        return Err(created.error);
      }
      var chain := new Blockchain(created.value);
      r := Ok(chain);
    }

    method AddBlock(env: Env, block: Block) returns (r: Result<()>)
      requires blocks != []
      modifies this
      ensures match Extend(env, old(State()), block)
              case Ok(s) => r == Ok(()) && State() == s
              case Err(e) => r == Err(e) && State() == old(State())
    {
      var valid := Validate(env, block);
      if valid.Err? {
        return Err(valid.error);
      }
      var linked := ValidateChainLink(block, blocks[|blocks| - 1]);
      if linked.Err? {
        return Err(linked.error);
      }
      var duplicate := FindDuplicate(txToBlock, block.transactions);
      if duplicate.Some? {
        return Err(DuplicateTransaction(duplicate.value));
      }
      hashToHeight := hashToHeight[block.header.hash := block.header.height];
      txToBlock := IndexTransactions(txToBlock, block);
      blocks := blocks + [block];
      height := block.header.height;
      r := Ok(());
    }

    method Verify(env: Env) returns (r: Result<()>)
      ensures r == VerifyBlocks(env, blocks)
    {
      if blocks == [] {
        return Err(InvalidBlock("Blockchain is empty"));
      }
      var genesis := blocks[0];
      if genesis.header.height != 0 {
        return Err(GenesisError("Genesis height must be 0"));
      }
      if genesis.header.previousHash != ZERO {
        return Err(GenesisError("Genesis must have zero previous hash"));
      }
      var start := Validate(env, genesis);
      if start.Err? {
        return Err(start.error);
      }
      for i := 1 to |blocks|
        invariant VerifyLinks(env, blocks, i).Ok?
      {
        var valid := Validate(env, blocks[i]);
        if valid.Err? {
          VerifyStops(env, blocks, i + 1, |blocks|);
          return Err(valid.error);
        }
        var linked := ValidateChainLink(blocks[i], blocks[i - 1]);
        if linked.Err? {
          VerifyStops(env, blocks, i + 1, |blocks|);
          return Err(linked.error);
        }
      }
      r := Ok(());
    }

    method PruneOldBlocks(cutoff: U64) returns (count: nat)
      requires blocks != []
      modifies this
      ensures State() == Pruned(old(State()), cutoff) && count == PruneCount(old(State()), cutoff)
    {
      var retained, hashes, ids;
      retained, hashes, ids, count := PruneTail(blocks[1..], hashToHeight, txToBlock, cutoff);
      hashToHeight, txToBlock := hashes, ids;
      blocks := [blocks[0]] + retained;
    }
  }

  /** The loop of `prune_old_blocks` over every block but genesis. */
  method PruneTail(tail: seq<Block>, hashIndex: map<Hash, U64>, txIndex: map<Hash, U64>, cutoff: U64)
    returns (retained: seq<Block>, hashes: map<Hash, U64>, ids: map<Hash, U64>, count: nat)
    ensures retained == Recent(tail, cutoff) && count == |Old(tail, cutoff)|
    ensures hashes == hashIndex - Hashes(Old(tail, cutoff)) && ids == txIndex - AllIds(Old(tail, cutoff))
  {
    retained, hashes, ids, count := [], hashIndex, txIndex, 0;
    for i := 0 to |tail|
      invariant retained == Recent(tail[..i], cutoff) && count == |Old(tail[..i], cutoff)|
      invariant hashes == hashIndex - Hashes(Old(tail[..i], cutoff))
      invariant ids == txIndex - AllIds(Old(tail[..i], cutoff))
    {
      var block := tail[i];
      PruneStep(tail, i, cutoff);
      if block.header.timestamp >= cutoff {
        retained := retained + [block];
      } else {
        MapMinusTwice(hashIndex, Hashes(Old(tail[..i], cutoff)), {block.header.hash});
        MapMinusTwice(txIndex, AllIds(Old(tail[..i], cutoff)), IdSet(block));
        hashes := hashes - {block.header.hash};
        ids := RemoveTransactions(ids, block);
        count := count + 1;
      }
    }
    assert tail[..|tail|] == tail;
  }

  /** The ids of the first `n` transactions. */
  ghost function IdsUpTo(b: Block, n: nat): set<Hash>
    requires n <= |b.transactions|
  {
    set t | t in b.transactions[..n] :: t.id
  }

  lemma {:induction false} IdsGrow(b: Block, n: nat)
    requires n < |b.transactions|
    ensures IdsUpTo(b, n + 1) == IdsUpTo(b, n) + {b.transactions[n].id}
  {
    assert b.transactions[..n + 1] == b.transactions[..n] + [b.transactions[n]];
  }

  lemma {:induction false} IdsComplete(b: Block)
    ensures IdsUpTo(b, |b.transactions|) == IdSet(b)
  {
    assert b.transactions[..|b.transactions|] == b.transactions;
  }

  /** The insertion loop over a block's transactions. */
  method IndexTransactions(index: map<Hash, U64>, b: Block) returns (r: map<Hash, U64>)
    ensures r == IndexTxs(index, b)
  {
    r := index;
    for i := 0 to |b.transactions|
      invariant r == InsertIds(index, b.transactions[..i], b.header.height)
    {
      assert b.transactions[..i + 1][..i] == b.transactions[..i];
      r := r[b.transactions[i].id := b.header.height];
    }
    assert b.transactions[..|b.transactions|] == b.transactions;
  }

  /** The removal loop over a block's transactions. */
  method RemoveTransactions(index: map<Hash, U64>, b: Block) returns (r: map<Hash, U64>)
    ensures r == index - IdSet(b)
  {
    r := index;
    for i := 0 to |b.transactions|
      invariant r == index - IdsUpTo(b, i)
    {
      IdsGrow(b, i);
      r := r - {b.transactions[i].id};
    }
    IdsComplete(b);
  }

  /** The duplicate check of `add_block`. */
  method FindDuplicate(index: map<Hash, U64>, transactions: seq<Transaction>) returns (r: Option<Hash>)
    ensures r == FirstDuplicate(index, transactions)
  {
    for i := 0 to |transactions|
      invariant FirstDuplicate(index, transactions[i..]) == FirstDuplicate(index, transactions)
    {
      assert transactions[i..][1..] == transactions[i + 1..];
      if transactions[i].id in index {
        return Some(transactions[i].id);
      }
    }
    r := None;
  }

  lemma {:induction false} IndexedGenesis(g: Block)
    requires g.header.height == 0
    ensures Indexed([g]) == Ledger([g], map[g.header.hash := 0], IndexTxs(map[], g), 0, g.header.hash)
  {
    assert [g][..|[g]| - 1] == [];
    assert HashIndex([g]) == HashIndex([])[g.header.hash := g.header.height];
    assert TxIndex([g]) == IndexTxs(TxIndex([]), g);
  }

  /** One more block for the prune loop. */
  lemma {:induction false} PruneStep(tail: seq<Block>, i: nat, cutoff: U64)
    requires i < |tail|
    ensures var was, now, b := tail[..i], tail[..i + 1], tail[i];
            if b.header.timestamp >= cutoff then
              Recent(now, cutoff) == Recent(was, cutoff) + [b] && Old(now, cutoff) == Old(was, cutoff)
            else
              && Recent(now, cutoff) == Recent(was, cutoff) && Old(now, cutoff) == Old(was, cutoff) + [b]
              && Hashes(Old(now, cutoff)) == Hashes(Old(was, cutoff)) + {b.header.hash}
              && AllIds(Old(now, cutoff)) == AllIds(Old(was, cutoff)) + IdSet(b)
  {
    assert tail[..i + 1][..i] == tail[..i] && Last(tail[..i + 1]) == tail[i];
  }

  /** An error found early is the error of the whole pass. */
  lemma {:induction false} VerifyStops(env: Env, bs: seq<Block>, n: nat, m: nat)
    requires 1 <= n <= m <= |bs| && VerifyLinks(env, bs, n).Err?
    ensures VerifyLinks(env, bs, m) == VerifyLinks(env, bs, n)
    decreases m
  {
    if n < m {
      VerifyStops(env, bs, n, m - 1);
    }
  }
}
