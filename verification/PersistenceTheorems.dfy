/** Pruning, bulk storing and reloading against the chain they mirror. */
module PersistenceTheorems {
  import opened Encoding
  import opened Blocks
  import opened Ledgers
  import opened LedgerTheorems
  import opened RunTheorems
  import opened StoreStates
  import opened StoreTheorems

  // ---------------------------------------------------------------- lookups of a mirroring store

  /** A mirroring store answers every lookup by scanning what the ledger retains; it never fails to decode. */
  lemma {:induction false} MirrorLookups(c: Codec, s: StoreState, chain: Ledger, h: U64, x: Hash, id: Hash)
    requires Lawful(c) && Mirrors(c, s, chain)
    ensures BlockByHeight(c, s, h) == Ok(AtHeight(chain.blocks, h))
    ensures BlockByHash(c, s, x) == Ok(Hashed(chain, x))
    ensures StoredTx(c, s, id)
         == match Holder(chain, id) case None => Ok(None) case Some(b) => Ok(FindTx(b.transactions, id))
  {
    match Holder(chain, id)
    case None =>
    case Some(b) =>
      var i := AtHeightWitness(chain.blocks, chain.txToBlock[id]);
      assert BlockByHeight(c, s, b.header.height) == Ok(AtHeight(chain.blocks, b.header.height));
  }

  // ---------------------------------------------------------------- prune_before

  /** The three kinds of keys of one block. */
  function BlockKeys(b: Block): set<Bytes> {
    {HeightKey(b.header.height), HashKey(b.header.hash)} + set id | id in IdSet(b) :: TxKey(id)
  }

  function RemovedKeys(bs: seq<Block>): set<Bytes> { set b, k | b in bs && k in BlockKeys(b) :: k }

  function DeletedKeys(ops: seq<WriteOperation>): set<Bytes> { set op | op in ops && op.Delete? :: op.key }

  ghost predicate AllDeletes(ops: seq<WriteOperation>) { forall op | op in ops :: op.Delete? }

  lemma {:induction false} ApplyDeletes(data: map<Bytes, Bytes>, ops: seq<WriteOperation>)
    requires AllDeletes(ops)
    ensures ApplyBatch(data, ops) == data - DeletedKeys(ops)
  {
    if ops != [] {
      var n := |ops| - 1;
      assert ops == ops[..n] + [ops[n]];
      ApplyDeletes(data, ops[..n]);
      assert DeletedKeys(ops) == DeletedKeys(ops[..n]) + {ops[n].key};
      MapMinusTwice(data, DeletedKeys(ops[..n]), {ops[n].key});
      assert ops[n] in ops;
    }
  }

  lemma {:induction false} DeleteBlockKeys(b: Block)
    ensures AllDeletes(DeleteBlock(b.header.height, b)) && DeletedKeys(DeleteBlock(b.header.height, b)) == BlockKeys(b)
  {
    var ops, keys := DeleteTxs(b.transactions), set id | id in IdSet(b) :: TxKey(id);
    forall k
      ensures k in DeletedKeys(ops) <==> k in keys
    {
      if k in keys {
        var t :| t in b.transactions && k == TxKey(t.id);
        var i :| 0 <= i < |b.transactions| && b.transactions[i] == t;
        assert ops[i] == Delete(k);
      }
    }
    assert DeletedKeys(ops) == keys;
    var first := [Delete(HeightKey(b.header.height)), Delete(HashKey(b.header.hash))];
    assert DeletedKeys(first) == {HeightKey(b.header.height), HashKey(b.header.hash)} by {
      assert first[0] in first && first[1] in first;
    }
    DeletedKeysConcat(first, ops);
  }

  lemma {:induction false} DeletedKeysConcat(a: seq<WriteOperation>, b: seq<WriteOperation>)
    ensures DeletedKeys(a + b) == DeletedKeys(a) + DeletedKeys(b)
  {
  }

  lemma {:induction false} RemovedKeysGrow(bs: seq<Block>, i: nat)
    requires 1 <= i < |bs|
    ensures RemovedKeys(bs[1..1 + i]) == RemovedKeys(bs[1..i]) + BlockKeys(bs[i])
  {
    assert bs[1..1 + i] == bs[1..i] + [bs[i]];
  }

  function Heights(bs: seq<Block>): set<U64> { set b | b in bs :: b.header.height }

  lemma {:induction false} HeightKeyRemoved(bs: seq<Block>, h: U64)
    ensures HeightKey(h) in RemovedKeys(bs) <==> h in Heights(bs)
  {
    if HeightKey(h) in RemovedKeys(bs) {
      var b :| b in bs && HeightKey(h) in BlockKeys(b);
      KeySpacesDisjoint(h, b.header.hash, b.header.hash);
      HeightKeyInjective(h, b.header.height);
    }
    if b :| b in bs && b.header.height == h {
      assert HeightKey(h) in BlockKeys(b);
    }
  }

  lemma {:induction false} HashKeyRemoved(bs: seq<Block>, x: Hash)
    ensures HashKey(x) in RemovedKeys(bs) <==> x in Hashes(bs)
  {
    if HashKey(x) in RemovedKeys(bs) {
      var b :| b in bs && HashKey(x) in BlockKeys(b);
      KeySpacesDisjoint(b.header.height, x, x);
      HashKeyInjective(x, b.header.hash);
    }
    if b :| b in bs && b.header.hash == x {
      assert HashKey(x) in BlockKeys(b);
    }
  }

  lemma {:induction false} TxKeyRemoved(bs: seq<Block>, id: Hash)
    ensures TxKey(id) in RemovedKeys(bs) <==> id in AllIds(bs)
  {
    if TxKey(id) in RemovedKeys(bs) {
      var b :| b in bs && TxKey(id) in BlockKeys(b);
      KeySpacesDisjoint(b.header.height, b.header.hash, id);
      var i :| i in IdSet(b) && TxKey(id) == TxKey(i);
      TxKeyInjective(id, i);
    }
    if b :| b in bs && id in IdSet(b) {
      assert TxKey(id) in BlockKeys(b);
    }
  }

  /** The retained block at a height above genesis, by position. */
  lemma {:induction false} AtHeightByPosition(env: Env, bs: seq<Block>, h: U64, i: int)
    requires Retained(env, bs) && h >= 1 && i == if |bs| > 1 then h - bs[1].header.height + 1 else 0
    ensures AtHeight(bs, h) == if 1 <= i < |bs| then Some(bs[i]) else None
    ensures 1 <= i < |bs| ==> bs[i].header.height == h
  {
    if 1 <= i < |bs| {
      RetainedHeights(env, bs, i);
      AtHeightFinds(env, bs, i);
    } else {
      HeightOutside(env, bs, h, i);
      AtHeightNone(bs, h);
    }
  }

  lemma {:induction false} HeightOutside(env: Env, bs: seq<Block>, h: U64, i: int)
    requires Retained(env, bs) && h >= 1 && i == if |bs| > 1 then h - bs[1].header.height + 1 else 0
    requires !(1 <= i < |bs|)
    ensures forall j | 0 <= j < |bs| :: bs[j].header.height != h
  {
    forall j | 0 <= j < |bs|
      ensures bs[j].header.height != h
    {
      if j > 0 { RetainedHeights(env, bs, j); }
    }
  }

  /** How many of the first `k` blocks after genesis lie at heights up to `n`. */
  function Covered(bs: seq<Block>, k: nat, n: nat): (r: nat)
    requires k < |bs|
    ensures r <= k
  {
    if |bs| == 1 || n < bs[1].header.height then 0
    else if n - bs[1].header.height + 1 < k then n - bs[1].header.height + 1
    else k
  }

  /** The scan over heights 1 to `n` of a mirroring store collects the keys of exactly those old blocks. */
  ghost predicate ScanCovers(scan: PruneScan, bs: seq<Block>, m: nat)
    requires m < |bs|
  {
    scan.count == m && AllDeletes(scan.operations) && DeletedKeys(scan.operations) == RemovedKeys(bs[1..1 + m])
  }

  lemma {:induction false} ScanGrows(scan: PruneScan, bs: seq<Block>, i: nat)
    requires 1 <= i < |bs| && ScanCovers(scan, bs, i - 1)
    ensures ScanCovers(PruneScan(scan.operations + DeleteBlock(bs[i].header.height, bs[i]), scan.count + 1), bs, i)
  {
    RemovedKeysGrow(bs, i);
    DeleteBlockKeys(bs[i]);
    DeletedKeysConcat(scan.operations, DeleteBlock(bs[i].header.height, bs[i]));
  }

  ghost predicate ScannedTo(c: Codec, s: StoreState, chain: Ledger, cutoff: U64, n: nat)
    requires chain.blocks != [] && n < 0x1_0000_0000_0000_0000
  {
    && PruneCount(chain, cutoff) < |chain.blocks|
    && ScanOld(c, s, cutoff, n).Ok?
    && ScanCovers(ScanOld(c, s, cutoff, n).value, chain.blocks, Covered(chain.blocks, PruneCount(chain, cutoff), n))
  }

  lemma {:induction false} ScanOldExact(env: Env, c: Codec, s: StoreState, chain: Ledger, cutoff: U64, n: nat)
    requires Lawful(c) && Mirrors(c, s, chain) && Retained(env, chain.blocks) && n < 0x1_0000_0000_0000_0000
    ensures ScannedTo(c, s, chain, cutoff, n)
  {
    PruneIsContiguous(env, chain, cutoff);
    if n == 0 {
      assert chain.blocks[1..1] == [];
    } else {
      ScanOldExact(env, c, s, chain, cutoff, n - 1);
      MirrorLookups(c, s, chain, n, ZERO, ZERO);
      ScanStep(env, c, s, chain, cutoff, n);
    }
  }

  lemma {:induction false} ScanStep(env: Env, c: Codec, s: StoreState, chain: Ledger, cutoff: U64, n: nat)
    requires Retained(env, chain.blocks) && 0 < n < 0x1_0000_0000_0000_0000
    requires BlockByHeight(c, s, n) == Ok(AtHeight(chain.blocks, n))
    requires ScannedTo(c, s, chain, cutoff, n - 1)
    ensures ScannedTo(c, s, chain, cutoff, n)
  {
    var bs, k, before := chain.blocks, PruneCount(chain, cutoff), ScanOld(c, s, cutoff, n - 1).value;
    var i := if |bs| > 1 then n - bs[1].header.height + 1 else 0;
    assert ScanOld(c, s, cutoff, n) == Ok(NextScan(before, AtHeight(bs, n), n, cutoff));
    CoveredStep(bs, k, n);
    NextScanValue(env, chain, cutoff, before, n, i);
    if 1 <= i <= k {
      ScanGrows(before, bs, i);
    }
  }

  /** One more height: an old block there adds its deletions, anything else adds nothing. */
  lemma {:induction false} NextScanValue(env: Env, chain: Ledger, cutoff: U64, before: PruneScan, n: U64, i: int)
    requires Retained(env, chain.blocks) && n > 0
    requires i == if |chain.blocks| > 1 then n - chain.blocks[1].header.height + 1 else 0
    ensures PruneCount(chain, cutoff) < |chain.blocks|
    ensures NextScan(before, AtHeight(chain.blocks, n), n, cutoff)
         == if 1 <= i <= PruneCount(chain, cutoff)
            then PruneScan(before.operations + DeleteBlock(chain.blocks[i].header.height, chain.blocks[i]),
                           before.count + 1)
            else before
  {
    PruneIsContiguous(env, chain, cutoff);
    AtHeightByPosition(env, chain.blocks, n, i);
    if 1 <= i < |chain.blocks| {
      PrunedAreOld(env, chain, cutoff, i);
    }
  }

  lemma {:induction false} CoveredStep(bs: seq<Block>, k: nat, n: nat)
    requires k < |bs| && n > 0
    ensures var i := if |bs| > 1 then n - bs[1].header.height + 1 else 0;
            if 1 <= i <= k then Covered(bs, k, n) == i && Covered(bs, k, n - 1) == i - 1
            else Covered(bs, k, n) == Covered(bs, k, n - 1)
  {
  }

  lemma {:induction false} KeptBlock(env: Env, bs: seq<Block>, k: nat, i: nat)
    requires Retained(env, bs) && k < |bs| && i < |bs| && !(1 <= i <= k)
    ensures AtHeight(Without(bs, k), bs[i].header.height) == Some(bs[i]) == AtHeight(bs, bs[i].header.height)
  {
    WithoutIsRetained(env, bs, k);
    AtHeightFinds(env, bs, i);
    AtHeightFinds(env, Without(bs, k), if i == 0 then 0 else i - k);
  }

  lemma {:induction false} RemovedHeightGone(env: Env, bs: seq<Block>, k: nat, i: nat)
    requires Retained(env, bs) && k < |bs| && 1 <= i <= k
    ensures AtHeight(Without(bs, k), bs[i].header.height) == None
  {
    var kept := Without(bs, k);
    forall j | 0 <= j < |kept|
      ensures kept[j].header.height != bs[i].header.height
    {
      RetainedHeightsDiffer(env, bs, i, if j == 0 then 0 else j + k);
    }
    AtHeightNone(kept, bs[i].header.height);
  }

  lemma {:induction false} RemovedHeightsDiffer(env: Env, bs: seq<Block>, k: nat, i: nat, b: Block)
    requires Retained(env, bs) && k < |bs| && i < |bs| && !(1 <= i <= k) && b in bs[1..1 + k]
    ensures b.header.height != bs[i].header.height
  {
    var m :| 0 <= m < k && bs[1..1 + k][m] == b;
    RetainedHeightsDiffer(env, bs, i, m + 1);
  }

  /** After removing a run of blocks the height scan misses exactly the removed heights. */
  lemma {:induction false} AtHeightWithout(env: Env, bs: seq<Block>, k: nat, h: U64)
    requires Retained(env, bs) && k < |bs|
    ensures AtHeight(Without(bs, k), h)
         == if h in Heights(bs[1..1 + k]) then None else AtHeight(bs, h)
  {
    if AtHeight(bs, h).Some? {
      var i := AtHeightWitness(bs, h);
      if 1 <= i <= k {
        RemovedMember(bs, k, i);
        RemovedHeightGone(env, bs, k, i);
      } else {
        KeptBlock(env, bs, k, i);
        forall b | b in bs[1..1 + k]
          ensures b.header.height != h
        {
          RemovedHeightsDiffer(env, bs, k, i, b);
        }
      }
    } else {
      forall b | b in bs
        ensures b.header.height != h
      {
        var i :| 0 <= i < |bs| && bs[i] == b;
        AtHeightSome(bs, i);
      }
      WithoutMembers(bs, k);
      AtHeightNone(Without(bs, k), h);
    }
  }

  lemma {:induction false} HashedWithout(env: Env, chain: Ledger, k: nat, x: Hash)
    requires RunInvariant(env, chain) && k < |chain.blocks|
    ensures Hashed(RemoveRun(chain, k), x) == if x in Hashes(chain.blocks[1..1 + k]) then None else Hashed(chain, x)
  {
    var bs := chain.blocks;
    if x in chain.hashToHeight && x !in Hashes(bs[1..1 + k]) {
      var i :| 0 <= i < |bs| && bs[i].header.hash == x && chain.hashToHeight[x] == bs[i].header.height;
      if 1 <= i <= k {
        RemovedMember(bs, k, i);
      }
      KeptBlock(env, bs, k, i);
    }
  }

  lemma {:induction false} HolderWithout(env: Env, chain: Ledger, k: nat, id: Hash)
    requires RunInvariant(env, chain) && k < |chain.blocks|
    ensures Holder(RemoveRun(chain, k), id) == if id in AllIds(chain.blocks[1..1 + k]) then None else Holder(chain, id)
  {
    var bs := chain.blocks;
    if id in chain.txToBlock && id !in AllIds(bs[1..1 + k]) {
      var i := TxIndexWitness(bs, id);
      if 1 <= i <= k {
        RemovedMember(bs, k, i);
      }
      KeptBlock(env, bs, k, i);
    }
  }

  /** Deleting the keys of a removed run keeps the mirror. */
  lemma {:induction false} MirrorWithout(env: Env, c: Codec, s: StoreState, chain: Ledger, k: nat)
    requires RunInvariant(env, chain) && Mirrors(c, s, chain) && k < |chain.blocks|
    ensures Mirrors(c, s.(data := s.data - RemovedKeys(chain.blocks[1..1 + k])), RemoveRun(chain, k))
  {
    var bs, removed, after := chain.blocks, chain.blocks[1..1 + k], RemoveRun(chain, k);
    var data := s.data - RemovedKeys(removed);
    forall h: U64
      ensures Entry(data, HeightKey(h)) == BlockEntry(c, AtHeight(after.blocks, h))
    {
      HeightKeyRemoved(removed, h);
      AtHeightWithout(env, bs, k, h);
    }
    forall x: Hash
      ensures Entry(data, HashKey(x)) == BlockEntry(c, Hashed(after, x))
    {
      HashKeyRemoved(removed, x);
      HashedWithout(env, chain, k, x);
    }
    forall id: Hash
      ensures Entry(data, TxKey(id)) == LocationEntry(c, Holder(after, id))
    {
      TxKeyRemoved(removed, id);
      HolderWithout(env, chain, k, id);
    }
    WithoutMembers(bs, k);
  }

  /** The two prunes agree, in every state that adds and prunes reach: same count, and the mirror holds again. */
  lemma {:induction false} PrunesAgree(env: Env, c: Codec, s: StoreState, chain: Ledger, cutoff: U64)
    requires Lawful(c) && RunInvariant(env, chain) && Mirrors(c, s, chain)
    ensures PruneBefore(c, s, cutoff).Ok?
    ensures PruneBefore(c, s, cutoff).value.count == PruneCount(chain, cutoff)
    ensures PruneBefore(c, s, cutoff).value.state.metadata == s.metadata
    ensures Mirrors(c, PruneBefore(c, s, cutoff).value.state, Pruned(chain, cutoff))
  {
    var bs, k, n := chain.blocks, PruneCount(chain, cutoff), s.metadata.chainHeight;
    PruneIsContiguous(env, chain, cutoff);
    ScanOldExact(env, c, s, chain, cutoff, n);
    if k > 0 {
      RetainedHeights(env, bs, k);
      assert bs[k] in bs;
    }
    assert Covered(bs, k, n) == k;
    ApplyDeletes(s.data, ScanOld(c, s, cutoff, n).value.operations);
    MirrorWithout(env, c, s, chain, k);
  }

  lemma {:induction false} HolderFound(env: Env, chain: Ledger, i: nat, id: Hash)
    requires RunInvariant(env, chain) && i < |chain.blocks| && id in IdSet(chain.blocks[i])
    ensures Holder(chain, id) == Some(chain.blocks[i])
  {
    TxIndexAt(chain.blocks, i, id);
    AtHeightFinds(env, chain.blocks, i);
  }

  lemma {:induction false} StoreFindsInBlock(env: Env, c: Codec, s: StoreState, chain: Ledger, i: nat, id: Hash)
    requires Lawful(c) && RunInvariant(env, chain) && Mirrors(c, s, chain)
    requires i < |chain.blocks| && id in IdSet(chain.blocks[i])
    ensures StoredTx(c, s, id) == Ok(FindTx(chain.blocks[i].transactions, id)) && StoredTx(c, s, id).value.Some?
  {
    MirrorLookups(c, s, chain, 0, ZERO, id);
    HolderFound(env, chain, i, id);
    FindTxInBlock(chain.blocks[i], id);
  }

  /** In every mirrored state, pruned or not, the store finds a transaction exactly when its id is in a
      retained block, and it is then the one in that block. */
  lemma {:induction false} StoreFindsRetained(env: Env, c: Codec, s: StoreState, chain: Ledger, id: Hash)
    requires Lawful(c) && RunInvariant(env, chain) && Mirrors(c, s, chain)
    ensures StoredTx(c, s, id).Ok? && (StoredTx(c, s, id).value.Some? <==> id in AllIds(chain.blocks))
    ensures StoredTx(c, s, id).value.Some? ==>
              exists b :: b in chain.blocks && id in IdSet(b) && StoredTx(c, s, id).value == FindTx(b.transactions, id)
  {
    if id in AllIds(chain.blocks) {
      var i := HolderOf(chain.blocks, id);
      StoreFindsInBlock(env, c, s, chain, i, id);
    } else {
      StoreMissesRemoved(env, c, s, chain, id);
    }
  }

  lemma {:induction false} StoreMissesRemoved(env: Env, c: Codec, s: StoreState, chain: Ledger, id: Hash)
    requires Lawful(c) && RunInvariant(env, chain) && Mirrors(c, s, chain) && id !in AllIds(chain.blocks)
    ensures StoredTx(c, s, id) == Ok(None)
  {
    TxIndexKeys(chain.blocks);
    MirrorLookups(c, s, chain, 0, ZERO, id);
  }

  // ---------------------------------------------------------------- whole runs

  /** The store driven beside the chain: accepted blocks are stored, every prune prunes both. */
  function StoreRun(env: Env, c: Codec, s: StoreState, chain: Ledger, ops: seq<Op>): StoreState
    requires chain.blocks != []
  {
    if ops == [] then s
    else
      var prefix := ops[..|ops| - 1];
      var before, ledger := StoreRun(env, c, s, chain, prefix), Run(env, chain, prefix);
      match ops[|ops| - 1]
      case Add(b) => if Extend(env, ledger, b).Ok? then StoreBlock(c, before, b) else before
      case Prune(cutoff) =>
        match PruneBefore(c, before, cutoff)
        case Ok(outcome) => outcome.state
        case Err(_) => before
  }

  /** The store mirrors the chain through every run of adds and prunes; no hash assumption is needed. */
  lemma {:induction false} MirrorRuns(env: Env, c: Codec, s: StoreState, chain: Ledger, ops: seq<Op>)
    requires Lawful(c) && chain.blocks != [] && RunInvariant(env, chain) && Mirrors(c, s, chain)
    ensures Mirrors(c, StoreRun(env, c, s, chain, ops), Run(env, chain, ops))
  {
    if ops != [] {
      var prefix := ops[..|ops| - 1];
      MirrorRuns(env, c, s, chain, prefix);
      RunsKeepInvariant(env, chain, prefix);
      var before, ledger := StoreRun(env, c, s, chain, prefix), Run(env, chain, prefix);
      match ops[|ops| - 1]
      case Add(b) =>
        if Extend(env, ledger, b).Ok? {
          MirrorAdd(env, c, before, ledger, b);
        }
      case Prune(cutoff) => PrunesAgree(env, c, before, ledger, cutoff);
    }
  }

  // ---------------------------------------------------------------- store_blockchain

  lemma {:induction false} StoreBlocksStep(c: Codec, s: StoreState, bs: seq<Block>, n: nat)
    requires n < |bs|
    ensures StoreBlocks(c, s, bs[..n + 1]) == StoreBlock(c, StoreBlocks(c, s, bs[..n]), bs[n])
  {
    var longer := bs[..n + 1];
    assert longer[..|longer| - 1] == bs[..n] && Last(longer) == bs[n];
  }

  /** Block by block, a fresh store comes to mirror each prefix of an unpruned chain. */
  lemma {:induction false} StoreBlocksMirror(env: Env, c: Codec, bs: seq<Block>, n: nat, now: U64)
    requires ChainOk(env, bs) && DisjointIds(bs) && 1 <= n <= |bs|
    ensures Mirrors(c, StoreBlocks(c, FreshStore(now), bs[..n]), Indexed(bs[..n]))
  {
    PrefixOfChain(env, bs, n);
    if n == 1 {
      StoreGenesisMirrors(env, c, bs[..1], now);
    } else {
      StoreBlocksMirror(env, c, bs, n - 1, now);
      StoreBlocksStep(c, FreshStore(now), bs, n - 1);
      StoreNextMirrors(env, c, StoreBlocks(c, FreshStore(now), bs[..n - 1]), bs, n - 1);
    }
  }

  lemma {:induction false} ExtendsPrefix(env: Env, bs: seq<Block>, n: nat)
    requires ChainOk(env, bs) && DisjointIds(bs) && 1 <= n < |bs|
    ensures Extend(env, Indexed(bs[..n]), bs[n]) == Ok(Indexed(bs[..n + 1]))
  {
    PrefixOfChain(env, bs, n);
    PrefixOfChain(env, bs, n + 1);
    ExtendedChain(env, bs[..n], bs[n]);
    assert bs[..n] + [bs[n]] == bs[..n + 1];
  }

  lemma {:induction false} StoreNextMirrors(env: Env, c: Codec, s: StoreState, bs: seq<Block>, n: nat)
    requires ChainOk(env, bs) && DisjointIds(bs) && 1 <= n < |bs| && Mirrors(c, s, Indexed(bs[..n]))
    ensures Mirrors(c, StoreBlock(c, s, bs[n]), Indexed(bs[..n + 1]))
  {
    PrefixOfChain(env, bs, n);
    IndexedInvariant(env, bs[..n]);
    ExtendsPrefix(env, bs, n);
    MirrorAdd(env, c, s, Indexed(bs[..n]), bs[n]);
  }

  /** The metadata follows the highest block above genesis. */
  lemma {:induction false} StoreBlocksMetadata(env: Env, c: Codec, bs: seq<Block>, now: U64)
    requires ChainOk(env, bs) && DisjointIds(bs)
    ensures var m := StoreBlocks(c, FreshStore(now), bs).metadata;
            && m.chainHeight == Last(bs).header.height
            && m.latestBlockHash == (if |bs| > 1 then Last(bs).header.hash else ZERO)
            && m.latestBlockTimestamp == (if |bs| > 1 then Last(bs).header.timestamp else 0)
            && m.lastUpdated == now
  {
    var n := |bs| - 1;
    HeightIsPosition(env, bs, n);
    if n == 0 {
      OneBlock(c, bs, FreshStore(now));
    } else {
      PrefixOfChain(env, bs, n);
      HeightIsPosition(env, bs, n - 1);
      StoreBlocksMetadata(env, c, bs[..n], now);
    }
  }

  lemma {:induction false} StoreGenesisMirrors(env: Env, c: Codec, bs: seq<Block>, now: U64)
    requires ChainOk(env, bs) && |bs| == 1
    ensures var s := StoreBlocks(c, FreshStore(now), bs);
            && Mirrors(c, s, Indexed(bs)) && s.metadata == FreshStore(now).metadata
  {
    var none := Ledger([], map[], map[], 0, ZERO);
    OneBlock(c, bs, FreshStore(now));
    EmptyMirror(c, now);
    MirrorAppend(c, FreshStore(now), none, bs[0]);
    FirstIndexed(c, bs, none);
    SameMirror(c, StoreBlock(c, FreshStore(now), bs[0]), Append(none, bs[0]), Indexed(bs));
  }

  lemma {:induction false} FirstIndexed(c: Codec, bs: seq<Block>, none: Ledger)
    requires |bs| == 1 && none == Ledger([], map[], map[], 0, ZERO)
    ensures var a, b := Append(none, bs[0]), Indexed(bs);
            a.blocks == b.blocks && a.hashToHeight == b.hashToHeight && a.txToBlock == b.txToBlock
  {
    OneBlock(c, bs, FreshStore(0));
    assert [] + [bs[0]] == bs;
  }

  lemma {:induction false} OneBlock(c: Codec, bs: seq<Block>, s: StoreState)
    requires |bs| == 1
    ensures StoreBlocks(c, s, bs) == StoreBlock(c, s, bs[0])
    ensures HashIndex(bs) == map[bs[0].header.hash := bs[0].header.height] && TxIndex(bs) == IndexTxs(map[], bs[0])
  {
    assert bs[..|bs| - 1] == [];
    assert StoreBlocks(c, s, []) == s && HashIndex([]) == map[] && TxIndex([]) == map[];
  }

  lemma {:induction false} EmptyMirror(c: Codec, now: U64)
    ensures Mirrors(c, FreshStore(now), Ledger([], map[], map[], 0, ZERO))
  {
  }

  /** The relation reads only the block list and the two indexes. */
  lemma {:induction false} SameMirror(c: Codec, s: StoreState, a: Ledger, b: Ledger)
    requires Mirrors(c, s, a) && a.blocks == b.blocks && a.hashToHeight == b.hashToHeight && a.txToBlock == b.txToBlock
    ensures Mirrors(c, s, b)
  {
    assert forall x: Hash :: Hashed(a, x) == Hashed(b, x) && Holder(a, x) == Holder(b, x);
  }

  /** Metadata lives outside the three key spaces. */
  lemma {:induction false} MetadataInvisible(c: Codec, s: StoreState, chain: Ledger, m: ChainMetadata)
    requires Mirrors(c, s, chain) && m.chainHeight == s.metadata.chainHeight
    ensures Mirrors(c, SaveMetadata(c, s.data, m), chain)
  {
    var data := SaveMetadata(c, s.data, m).data;
    forall h: U64
      ensures Entry(data, HeightKey(h)) == Entry(s.data, HeightKey(h))
    {
      KeySpacesDisjoint(h, ZERO, ZERO);
    }
    forall x: Hash
      ensures Entry(data, HashKey(x)) == Entry(s.data, HashKey(x)) && Entry(data, TxKey(x)) == Entry(s.data, TxKey(x))
    {
      KeySpacesDisjoint(0, x, x);
    }
  }

  /** A stored chain, as `store_blockchain` leaves it in a fresh store. */
  ghost predicate IsStored(c: Codec, s: StoreState, bs: seq<Block>)
    requires bs != []
  {
    && Mirrors(c, s, Indexed(bs))
    && s.metadata.chainHeight == Last(bs).header.height
    && s.metadata.genesisHash == bs[0].header.hash
    && s.metadata.latestBlockHash == (if |bs| > 1 then Last(bs).header.hash else ZERO)
    && s.metadata.latestBlockTimestamp == (if |bs| > 1 then Last(bs).header.timestamp else 0)
    && s.metadata.totalTransactions == |AllIds(bs)|
    && Entry(s.data, METADATA_KEY) == Some(c.encodeMetadata(s.metadata))
  }

  lemma {:induction false} WholeMirror(env: Env, c: Codec, bs: seq<Block>, now: U64)
    requires ChainOk(env, bs) && DisjointIds(bs)
    ensures Mirrors(c, StoreBlocks(c, FreshStore(now), bs), Indexed(bs))
  {
    assert bs[..|bs|] == bs;
    StoreBlocksMirror(env, c, bs, |bs|, now);
  }

  /** Storing any unpruned chain into a fresh store gives a mirror with matching metadata. */
  lemma {:induction false} StoreChainMirrors(env: Env, c: Codec, bs: seq<Block>, now: U64)
    requires ChainOk(env, bs) && DisjointIds(bs)
    ensures |bs| == Indexed(bs).height + 1
    ensures IsStored(c, StoreChain(c, FreshStore(now), Indexed(bs)), bs)
  {
    HeightIsPosition(env, bs, |bs| - 1);
    WholeMirror(env, c, bs, now);
    StoreBlocksMetadata(env, c, bs, now);
    CountIsDistinct(bs);
    SavedAsStored(c, StoreBlocks(c, FreshStore(now), bs), bs);
  }

  /** Saving the genesis hash and the count completes the picture. */
  lemma {:induction false} SavedAsStored(c: Codec, s: StoreState, bs: seq<Block>)
    requires bs != [] && Mirrors(c, s, Indexed(bs)) && s.metadata.chainHeight == Last(bs).header.height
    requires s.metadata.latestBlockHash == (if |bs| > 1 then Last(bs).header.hash else ZERO)
    requires s.metadata.latestBlockTimestamp == (if |bs| > 1 then Last(bs).header.timestamp else 0)
    ensures var m := s.metadata.(genesisHash := bs[0].header.hash, totalTransactions := |AllIds(bs)|);
            IsStored(c, SaveMetadata(c, s.data, m), bs)
  {
    MetadataInvisible(c, s, Indexed(bs),
                      s.metadata.(genesisHash := bs[0].header.hash, totalTransactions := |AllIds(bs)|));
  }

  /** A stored chain answers height, hash and transaction lookups as the chain object does. */
  lemma {:induction false} StoredLookupsMatch(env: Env, c: Codec, s: StoreState, bs: seq<Block>, h: U64, x: Hash,
                                              id: Hash)
    requires Lawful(c) && ChainOk(env, bs) && DisjointIds(bs) && IsStored(c, s, bs)
    ensures BlockByHeight(c, s, h).Ok? && AsLookup(BlockByHeight(c, s, h).value) == ByHeight(Indexed(bs), h)
    ensures BlockByHash(c, s, x).Ok? && AsLookup(BlockByHash(c, s, x).value) == ByHash(Indexed(bs), x)
    ensures StoredTx(c, s, id).Ok? && AsLookup(StoredTx(c, s, id).value) == TxById(Indexed(bs), id)
  {
    MirrorLookups(c, s, Indexed(bs), h, x, id);
    HeightLookupIsScan(env, bs, h);
    if x in HashIndex(bs) {
      HeightLookupIsScan(env, bs, HashIndex(bs)[x]);
    }
    if id in TxIndex(bs) {
      HeightLookupIsScan(env, bs, TxIndex(bs)[id]);
    }
  }

  // ---------------------------------------------------------------- reopening

  /** The database holds the metadata that the store has in memory. */
  ghost predicate MetadataSaved(c: Codec, s: StoreState) {
    Entry(s.data, METADATA_KEY) == Some(c.encodeMetadata(s.metadata))
  }

  lemma {:induction false} StoreKeepsMetadata(c: Codec, s: StoreState, b: Block)
    requires MetadataSaved(c, s)
    ensures MetadataSaved(c, StoreBlock(c, s, b))
  {
    var data := s.data[HeightKey(b.header.height) := c.encodeBlock(b)][HashKey(b.header.hash) := c.encodeBlock(b)];
    KeySpacesDisjoint(b.header.height, b.header.hash, ZERO);
    LocationsElsewhere(c, data, b.transactions, TxLocation(b.header.height, b.header.hash), METADATA_KEY);
  }

  /** Whatever a scan of any store collects, it deletes no metadata. */
  lemma {:induction false} ScanSparesMetadata(c: Codec, s: StoreState, cutoff: U64, n: nat)
    requires n < 0x1_0000_0000_0000_0000 && ScanOld(c, s, cutoff, n).Ok?
    ensures var ops := ScanOld(c, s, cutoff, n).value.operations; AllDeletes(ops) && METADATA_KEY !in DeletedKeys(ops)
  {
    if n > 0 {
      ScanSparesMetadata(c, s, cutoff, n - 1);
      var before, found := ScanOld(c, s, cutoff, n - 1).value, BlockByHeight(c, s, n).value;
      if found.Some? && found.value.header.timestamp < cutoff {
        DeleteSparesMetadata(n, found.value);
        DeletedKeysConcat(before.operations, DeleteBlock(n, found.value));
      }
    }
  }

  lemma {:induction false} DeleteSparesMetadata(h: U64, b: Block)
    ensures AllDeletes(DeleteBlock(h, b)) && METADATA_KEY !in DeletedKeys(DeleteBlock(h, b))
  {
    forall op | op in DeleteBlock(h, b)
      ensures op.Delete? && |op.key| > 10
    {
      KeySpacesDisjoint(h, b.header.hash, if op in DeleteTxs(b.transactions) then b.header.hash else ZERO);
    }
  }

  lemma {:induction false} PruneKeepsMetadata(c: Codec, s: StoreState, cutoff: U64)
    requires MetadataSaved(c, s) && PruneBefore(c, s, cutoff).Ok?
    ensures MetadataSaved(c, PruneBefore(c, s, cutoff).value.state)
  {
    var n := s.metadata.chainHeight;
    ScanSparesMetadata(c, s, cutoff, n);
    ApplyDeletes(s.data, ScanOld(c, s, cutoff, n).value.operations);
  }

  lemma {:induction false} RunsKeepMetadata(env: Env, c: Codec, s: StoreState, chain: Ledger, ops: seq<Op>)
    requires chain.blocks != [] && MetadataSaved(c, s)
    ensures MetadataSaved(c, StoreRun(env, c, s, chain, ops))
  {
    if ops != [] {
      var prefix := ops[..|ops| - 1];
      RunsKeepMetadata(env, c, s, chain, prefix);
      var before := StoreRun(env, c, s, chain, prefix);
      match ops[|ops| - 1]
      case Add(b) => StoreKeepsMetadata(c, before, b);
      case Prune(cutoff) =>
        if PruneBefore(c, before, cutoff).Ok? {
          PruneKeepsMetadata(c, before, cutoff);
        }
    }
  }

  /** Reopening restores the store, metadata included: after a chain was stored into any store, and after every
      run of adds and prunes that follows. */
  lemma {:induction false} ReopenRestores(env: Env, c: Codec, s: StoreState, chain: Ledger, ops: seq<Op>, now: U64)
    requires Lawful(c) && |chain.blocks| == chain.height + 1
    ensures var last := StoreRun(env, c, StoreChain(c, s, chain), chain, ops); Reopen(c, last.data, now) == Ok(last)
  {
    RunsKeepMetadata(env, c, StoreChain(c, s, chain), chain, ops);
  }
}
