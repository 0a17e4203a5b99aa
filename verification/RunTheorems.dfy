/** What holds in every state that adds and prunes can reach, which lookups survive a prune, and when the
    indexes answer like linear scans. */
module RunTheorems {
  import opened Encoding
  import opened Blocks
  import opened Ledgers
  import opened LedgerTheorems

  // ---------------------------------------------------------------- the retained list

  /** Genesis, then validated blocks that are linked to each other; the first of them is linked to genesis
      unless a prune removed what lay between. */
  ghost predicate Retained(env: Env, bs: seq<Block>) {
    && bs != [] && IsGenesis(env, bs[0]) && DisjointIds(bs)
    && (forall i | 1 <= i < |bs| :: Sound(env, bs[i]))
    && (forall i | 2 <= i < |bs| :: LinkedAt(bs, i))
    && (|bs| > 1 ==>
          && bs[1].header.height >= 1 && bs[0].header.timestamp <= bs[1].header.timestamp
          && (bs[1].header.height == 1 ==> LinkedAt(bs, 1)))
  }

  lemma {:induction false} ChainIsRetained(env: Env, bs: seq<Block>)
    requires ChainOk(env, bs) && DisjointIds(bs)
    ensures Retained(env, bs)
  {
    if |bs| > 1 {
      assert LinkedAt(bs, 1);
    }
  }

  /** Retained heights are consecutive. */
  lemma {:induction false} RetainedHeights(env: Env, bs: seq<Block>, i: nat)
    requires Retained(env, bs) && 1 <= i < |bs|
    ensures bs[i].header.height == bs[1].header.height + (i - 1)
  {
    if i > 1 {
      RetainedHeights(env, bs, i - 1);
      assert LinkedAt(bs, i);
    }
  }

  lemma {:induction false} RetainedHeightsDiffer(env: Env, bs: seq<Block>, i: nat, j: nat)
    requires Retained(env, bs) && i < |bs| && j < |bs| && i != j
    ensures bs[i].header.height != bs[j].header.height
  {
    if i > 0 { RetainedHeights(env, bs, i); }
    if j > 0 { RetainedHeights(env, bs, j); }
  }

  /** Retained timestamps do not decrease. */
  lemma {:induction false} RetainedTimes(env: Env, bs: seq<Block>, i: nat, j: nat)
    requires Retained(env, bs) && i <= j < |bs|
    ensures bs[i].header.timestamp <= bs[j].header.timestamp
    decreases j
  {
    if i < j {
      RetainedTimes(env, bs, i, j - 1);
      if j >= 2 {
        assert LinkedAt(bs, j);
      }
    }
  }

  // ---------------------------------------------------------------- scans

  lemma {:induction false} AtHeightWitness(bs: seq<Block>, h: U64) returns (i: nat)
    requires AtHeight(bs, h).Some?
    ensures i < |bs| && bs[i].header.height == h && AtHeight(bs, h) == Some(bs[i])
  {
    if bs[0].header.height == h {
      i := 0;
    } else {
      i := AtHeightWitness(bs[1..], h);
      i := i + 1;
    }
  }

  lemma {:induction false} AtHeightNone(bs: seq<Block>, h: U64)
    requires forall i | 0 <= i < |bs| :: bs[i].header.height != h
    ensures AtHeight(bs, h) == None
  {
    if bs != [] {
      assert forall i | 0 <= i < |bs[1..]| :: bs[1..][i] == bs[i + 1];
      AtHeightNone(bs[1..], h);
    }
  }

  lemma {:induction false} AtHeightSome(bs: seq<Block>, i: nat)
    requires i < |bs|
    ensures AtHeight(bs, bs[i].header.height).Some?
  {
    if i > 0 {
      assert bs[1..][i - 1] == bs[i];
      AtHeightSome(bs[1..], i - 1);
    }
  }

  lemma {:induction false} ScanHashWitness(bs: seq<Block>, x: Hash) returns (i: nat)
    requires ScanHash(bs, x).Some?
    ensures i < |bs| && bs[i].header.hash == x && ScanHash(bs, x) == Some(bs[i])
  {
    if bs[0].header.hash == x {
      i := 0;
    } else {
      i := ScanHashWitness(bs[1..], x);
      i := i + 1;
    }
  }

  lemma {:induction false} ScanHashSome(bs: seq<Block>, i: nat)
    requires i < |bs|
    ensures ScanHash(bs, bs[i].header.hash).Some?
  {
    if i > 0 {
      assert bs[1..][i - 1] == bs[i];
      ScanHashSome(bs[1..], i - 1);
    }
  }

  /** In a retained list a height belongs to one block, and the height scan finds it. */
  lemma {:induction false} AtHeightFinds(env: Env, bs: seq<Block>, i: nat)
    requires Retained(env, bs) && i < |bs|
    ensures AtHeight(bs, bs[i].header.height) == Some(bs[i])
  {
    AtHeightSome(bs, i);
    var j := AtHeightWitness(bs, bs[i].header.height);
    if i != j {
      RetainedHeightsDiffer(env, bs, i, j);
    }
  }

  lemma {:induction false} FindTxExact(transactions: seq<Transaction>, id: Hash)
    ensures FindTx(transactions, id).Some? <==> exists t :: t in transactions && t.id == id
    ensures FindTx(transactions, id).Some? ==>
              FindTx(transactions, id).value in transactions && FindTx(transactions, id).value.id == id
  {
    if transactions != [] {
      FindTxExact(transactions[1..], id);
      assert forall t :: t in transactions <==> t == transactions[0] || t in transactions[1..];
    }
  }

  lemma {:induction false} FindTxInBlock(b: Block, id: Hash)
    ensures FindTx(b.transactions, id).Some? <==> id in IdSet(b)
  {
    FindTxExact(b.transactions, id);
  }

  lemma {:induction false} NodeScanMisses(bs: seq<Block>, id: Hash, n: nat)
    requires n <= 0x1_0000_0000_0000_0000
    requires forall i | 0 <= i < |bs| :: bs[i].header.height < n ==> id !in IdSet(bs[i])
    ensures NodeScan(bs, id, n) == None
  {
    if n > 0 {
      NodeScanMisses(bs, id, n - 1);
      if AtHeight(bs, n - 1).Some? {
        var i := AtHeightWitness(bs, n - 1);
        FindTxInBlock(bs[i], id);
      }
    }
  }

  /** The full node's search finds an id in the one retained block that holds it. */
  lemma {:induction false} NodeScanFinds(env: Env, bs: seq<Block>, i: nat, id: Hash, n: nat)
    requires Retained(env, bs) && i < |bs| && id in IdSet(bs[i])
    requires bs[i].header.height < n <= 0x1_0000_0000_0000_0000
    ensures NodeScan(bs, id, n).Some? && NodeScan(bs, id, n) == FindTx(bs[i].transactions, id)
    decreases n
  {
    FindTxInBlock(bs[i], id);
    if bs[i].header.height < n - 1 {
      NodeScanFinds(env, bs, i, id, n - 1);
    } else {
      AtHeightFinds(env, bs, i);
      NotElsewhere(bs, i, id);
      NodeScanMisses(bs, id, n - 1);
    }
  }

  lemma {:induction false} NotElsewhere(bs: seq<Block>, i: nat, id: Hash)
    requires DisjointIds(bs) && i < |bs| && id in IdSet(bs[i])
    ensures forall j | 0 <= j < |bs| && j != i :: id !in IdSet(bs[j])
  {
    forall j | 0 <= j < |bs| && j != i
      ensures id !in IdSet(bs[j])
    {
      assert IdSet(bs[if i < j then i else j]) !! IdSet(bs[if i < j then j else i]);
    }
  }

  /** Two retained blocks with one hash are a collision of their header encodings. */
  lemma {:induction false} SharedHashCollides(env: Env, bs: seq<Block>, i: nat, j: nat)
    requires Retained(env, bs) && i < |bs| && j < |bs| && i != j && bs[i].header.hash == bs[j].header.hash
    ensures HasCollision(env.hash, HeaderInputs(bs))
  {
    RetainedHeightsDiffer(env, bs, i, j);
    HashBindsHeader(env, bs[i], bs[j]);
    assert bs[i] in bs && bs[j] in bs;
    CollisionMonotone(env.hash, {HeaderBytes(bs[i].header), HeaderBytes(bs[j].header)}, HeaderInputs(bs));
  }

  // ---------------------------------------------------------------- indexes refine scans

  /** Height lookup in an unpruned chain is the scan for that height. */
  lemma {:induction false} HeightLookupIsScan(env: Env, bs: seq<Block>, h: U64)
    requires ChainOk(env, bs) && DisjointIds(bs)
    ensures ByHeight(Indexed(bs), h) == AsLookup(AtHeight(bs, h))
  {
    ChainIsRetained(env, bs);
    HeightIsPosition(env, bs, |bs| - 1);
    if h < |bs| {
      HeightIsPosition(env, bs, h);
      AtHeightFinds(env, bs, h);
    } else {
      forall i | 0 <= i < |bs|
        ensures bs[i].header.height != h
      {
        HeightIsPosition(env, bs, i);
      }
      AtHeightNone(bs, h);
    }
  }

  lemma {:induction false} TxLookupFinds(env: Env, bs: seq<Block>, i: nat, id: Hash)
    requires ChainOk(env, bs) && DisjointIds(bs) && i < |bs| && id in IdSet(bs[i])
    ensures TxById(Indexed(bs), id) == AsLookup(FindTx(bs[i].transactions, id))
  {
    TxIndexAt(bs, i, id);
    FindTxInBlock(bs[i], id);
    FoundByHeight(env, bs, i);
    TxThrough(Indexed(bs), i, id);
  }

  lemma {:induction false} FoundByHeight(env: Env, bs: seq<Block>, i: nat)
    requires ChainOk(env, bs) && i < |bs|
    ensures bs[i].header.height == i && ByHeight(Indexed(bs), i) == Found(bs[i])
  {
    HeightIsPosition(env, bs, i);
    HeightIsPosition(env, bs, |bs| - 1);
  }

  /** Transaction lookup through the index is the full node's linear search. */
  lemma {:induction false} TxLookupIsScan(env: Env, bs: seq<Block>, id: Hash)
    requires ChainOk(env, bs) && DisjointIds(bs)
    ensures TxById(Indexed(bs), id) == AsLookup(NodeScan(bs, id, Last(bs).header.height + 1))
  {
    if id in TxIndex(bs) {
      var i := TxIndexWitness(bs, id);
      ChainIsRetained(env, bs);
      TxLookupFinds(env, bs, i, id);
      HeightIsPosition(env, bs, i);
      HeightIsPosition(env, bs, |bs| - 1);
      NodeScanFinds(env, bs, i, id, Last(bs).header.height + 1);
    } else {
      forall i | 0 <= i < |bs|
        ensures id !in IdSet(bs[i])
      {
        if id in IdSet(bs[i]) { TxIndexHas(bs, i, id); }
      }
      NodeScanMisses(bs, id, Last(bs).header.height + 1);
    }
  }

  /** Hash lookup through the index is the scan for that hash, or two header encodings collide. */
  lemma {:induction false} HashLookupIsScan(env: Env, bs: seq<Block>, x: Hash)
    requires ChainOk(env, bs) && DisjointIds(bs)
    ensures ByHash(Indexed(bs), x) == AsLookup(ScanHash(bs, x)) || HasCollision(env.hash, HeaderInputs(bs))
  {
    ChainIsRetained(env, bs);
    if ScanHash(bs, x).Some? {
      var j := ScanHashWitness(bs, x);
      HashIndexHas(bs, j);
      var i := HashIndexWitness(bs, x);
      HeightIsPosition(env, bs, i);
      HeightIsPosition(env, bs, |bs| - 1);
      if i != j {
        SharedHashCollides(env, bs, i, j);
      }
    } else if x in HashIndex(bs) {
      var i := HashIndexWitness(bs, x);
      ScanHashSome(bs, i);
    }
  }

  /** The three lookups give what the scans give, and the count is the number of distinct ids. */
  ghost predicate AnswersLikeScans(env: Env, s: Ledger, h: U64, x: Hash, id: Hash) {
    && ByHeight(s, h) == AsLookup(AtHeight(s.blocks, h))
    && TxById(s, id) == AsLookup(NodeScan(s.blocks, id, s.height + 1))
    && TransactionCount(s) == |AllIds(s.blocks)|
    && (ByHash(s, x) == AsLookup(ScanHash(s.blocks, x)) || HasCollision(env.hash, HeaderInputs(s.blocks)))
  }

  /** Indexes refine scans in every chain grown from a genesis configuration. */
  lemma {:induction false} IndexesRefineScans(env: Env, validators: seq<PublicKey>, timestamp: U64, s: Ledger, h: U64,
                                              x: Hash, id: Hash)
    requires validators != [] && Grown(env, validators, timestamp, s)
    ensures AnswersLikeScans(env, s, h, x, id) && DisjointIds(s.blocks)
  {
    GrownChain(env, validators, timestamp, s);
    LookupsAreScans(env, s.blocks, h, x, id);
  }

  lemma {:induction false} LookupsAreScans(env: Env, bs: seq<Block>, h: U64, x: Hash, id: Hash)
    requires ChainOk(env, bs) && DisjointIds(bs)
    ensures AnswersLikeScans(env, Indexed(bs), h, x, id)
  {
    var s := Indexed(bs);
    assert ByHeight(s, h) == AsLookup(AtHeight(s.blocks, h)) by { HeightLookupIsScan(env, bs, h); }
    assert TxById(s, id) == AsLookup(NodeScan(s.blocks, id, s.height + 1)) by { TxLookupIsScan(env, bs, id); }
    assert ByHash(s, x) == AsLookup(ScanHash(s.blocks, x)) || HasCollision(env.hash, HeaderInputs(s.blocks)) by {
      HashLookupIsScan(env, bs, x);
    }
    CountIsDistinct(bs);
  }

  lemma {:induction false} CountIsDistinct(bs: seq<Block>)
    requires bs != []
    ensures TransactionCount(Indexed(bs)) == |AllIds(bs)|
  {
    TxIndexKeys(bs);
    assert |TxIndex(bs)| == |TxIndex(bs).Keys|;
  }

  // ---------------------------------------------------------------- the transaction count

  /** What `get_all_transactions` lists. */
  function ListedTransactions(bs: seq<Block>): nat {
    if bs == [] then 0 else ListedTransactions(bs[..|bs| - 1]) + |Last(bs).transactions|
  }

  ghost predicate RepeatsNoId(b: Block) { Distinct(IdList(b)) }

  lemma {:induction false} IdCount(b: Block)
    ensures |IdSet(b)| <= |b.transactions| && (|IdSet(b)| == |b.transactions| <==> RepeatsNoId(b))
  {
    var ids := IdList(b);
    forall x | x in IdSet(b)
      ensures x in ids
    {
      var t :| t in b.transactions && t.id == x;
      var i :| 0 <= i < |b.transactions| && b.transactions[i] == t;
      assert ids[i] == x;
    }
    forall x | x in ids
      ensures x in IdSet(b)
    {
      var i :| 0 <= i < |ids| && ids[i] == x;
      assert b.transactions[i] in b.transactions;
    }
    assert IdSet(b) == set x | x in ids;
    DistinctCount(ids);
  }

  lemma {:induction false} IdsWithLast(bs: seq<Block>, n: nat)
    requires DisjointIds(bs) && |bs| == n + 1
    ensures AllIds(bs) == AllIds(bs[..n]) + IdSet(bs[n]) && AllIds(bs[..n]) !! IdSet(bs[n])
    ensures DisjointIds(bs[..n]) && forall b :: b in bs <==> b in bs[..n] || b == bs[n]
  {
    assert bs == bs[..n] + [bs[n]];
    forall b | b in bs[..n]
      ensures IdSet(b) !! IdSet(bs[n])
    {
      var i :| 0 <= i < n && bs[..n][i] == b;
      assert IdSet(bs[i]) !! IdSet(bs[n]);
    }
  }

  lemma {:induction false} DistinctIdsListed(bs: seq<Block>)
    requires DisjointIds(bs)
    ensures |AllIds(bs)| <= ListedTransactions(bs)
    ensures |AllIds(bs)| == ListedTransactions(bs) <==> forall b | b in bs :: RepeatsNoId(b)
  {
    if bs == [] {
      assert AllIds(bs) == {};
    } else {
      var n := |bs| - 1;
      IdsWithLast(bs, n);
      DistinctIdsListed(bs[..n]);
      IdCount(bs[n]);
    }
  }

  /** `transaction_count` counts the transactions of the chain exactly when no block lists an id twice. */
  lemma {:induction false} TransactionCountExact(env: Env, validators: seq<PublicKey>, timestamp: U64, s: Ledger)
    requires validators != [] && Grown(env, validators, timestamp, s)
    ensures TransactionCount(s) <= ListedTransactions(s.blocks)
    ensures TransactionCount(s) == ListedTransactions(s.blocks) <==> forall b | b in s.blocks :: RepeatsNoId(b)
  {
    GrownChain(env, validators, timestamp, s);
    CountIsDistinct(s.blocks);
    DistinctIdsListed(s.blocks);
  }

  /** And blocks that list one twice are accepted: any valid, unindexed transaction can appear twice in the
      next block. */
  lemma {:induction false} RepeatAccepted(env: Env, s: Ledger, t: Transaction, validator: PublicKey, now: U64)
    requires s.blocks != [] && ValidateTransaction(env, t).Ok? && t.id !in s.txToBlock
    requires Last(s.blocks).header.timestamp <= now && Last(s.blocks).header.height + 1 < 0x1_0000_0000_0000_0000
    ensures var last := Last(s.blocks).header;
            var b := NewBlock(env, last.height + 1, last.hash, [t, t], validator, now);
            Extend(env, s, b).Ok? && !RepeatsNoId(b)
  {
    var last := Last(s.blocks).header;
    var b := NewBlock(env, last.height + 1, last.hash, [t, t], validator, now);
    NewBlockFields(env, last.height + 1, last.hash, [t, t], validator, now);
    ExtendExact(env, s, b);
    assert IdList(b)[0] == IdList(b)[1];
  }

  // ---------------------------------------------------------------- prune

  /** What a prune leaves when it removes the first `k` blocks after genesis. */
  function Without(bs: seq<Block>, k: nat): seq<Block>
    requires k < |bs|
  {
    [bs[0]] + bs[1 + k..]
  }

  ghost predicate TimeOrdered(bs: seq<Block>) {
    forall i, j | 0 <= i <= j < |bs| :: bs[i].header.timestamp <= bs[j].header.timestamp
  }

  ghost predicate SplitsAt(bs: seq<Block>, cutoff: U64, k: nat) {
    k <= |bs| && forall i | 0 <= i < |bs| :: bs[i].header.timestamp < cutoff <==> i < k
  }

  /** In a time-ordered list the old blocks come first. */
  lemma {:induction false} FirstRecent(bs: seq<Block>, cutoff: U64) returns (k: nat)
    requires TimeOrdered(bs)
    ensures SplitsAt(bs, cutoff, k)
  {
    if bs == [] || Last(bs).header.timestamp < cutoff {
      k := |bs|;
    } else {
      var prefix := bs[..|bs| - 1];
      k := FirstRecent(prefix, cutoff);
      assert forall i | 0 <= i < |prefix| :: prefix[i] == bs[i];
    }
  }

  lemma {:induction false} PruneSplits(bs: seq<Block>, cutoff: U64, k: nat)
    requires SplitsAt(bs, cutoff, k)
    ensures Old(bs, cutoff) == bs[..k] && Recent(bs, cutoff) == bs[k..]
  {
    if bs != [] {
      var n := |bs| - 1;
      assert forall i | 0 <= i < n :: bs[..n][i] == bs[i];
      if k <= n {
        PruneSplits(bs[..n], cutoff, k);
        SliceWithoutLast(bs, k);
      } else {
        PruneSplits(bs[..n], cutoff, n);
        assert bs[..n][..n] + [bs[n]] == bs[..k] && bs[..n][n..] == bs[k..];
      }
    }
  }

  lemma {:induction false} PruneSplitPoint(env: Env, s: Ledger, cutoff: U64)
    requires Retained(env, s.blocks)
    ensures SplitsAt(s.blocks[1..], cutoff, PruneCount(s, cutoff))
    ensures Old(s.blocks[1..], cutoff) == s.blocks[1..][..PruneCount(s, cutoff)]
    ensures Recent(s.blocks[1..], cutoff) == s.blocks[1..][PruneCount(s, cutoff)..]
  {
    var tail := s.blocks[1..];
    TailOrdered(env, s.blocks);
    var k := FirstRecent(tail, cutoff);
    PruneSplits(tail, cutoff, k);
  }

  lemma {:induction false} TailOrdered(env: Env, bs: seq<Block>)
    requires Retained(env, bs)
    ensures TimeOrdered(bs[1..])
  {
    forall i, j | 0 <= i <= j < |bs[1..]|
      ensures bs[1..][i].header.timestamp <= bs[1..][j].header.timestamp
    {
      RetainedTimes(env, bs, i + 1, j + 1);
    }
  }

  /** The ledger without its first `k` blocks after genesis. */
  function RemoveRun(s: Ledger, k: nat): Ledger
    requires k < |s.blocks|
  {
    Ledger(Without(s.blocks, k), s.hashToHeight - Hashes(s.blocks[1..1 + k]),
           s.txToBlock - AllIds(s.blocks[1..1 + k]), s.height, s.genesisHash)
  }

  /** A prune of a retained list removes one run of blocks just after genesis and returns its length. */
  lemma {:induction false} PruneIsContiguous(env: Env, s: Ledger, cutoff: U64)
    requires Retained(env, s.blocks)
    ensures PruneCount(s, cutoff) < |s.blocks| && Pruned(s, cutoff) == RemoveRun(s, PruneCount(s, cutoff))
  {
    PruneSplitPoint(env, s, cutoff);
    var k := PruneCount(s, cutoff);
    assert s.blocks[1..][..k] == s.blocks[1..1 + k] && s.blocks[1..][k..] == s.blocks[1 + k..];
  }

  /** The run is exactly the blocks older than the cutoff. */
  lemma {:induction false} PrunedAreOld(env: Env, s: Ledger, cutoff: U64, i: nat)
    requires Retained(env, s.blocks) && 1 <= i < |s.blocks|
    ensures s.blocks[i].header.timestamp < cutoff <==> i <= PruneCount(s, cutoff)
  {
    PruneSplitPoint(env, s, cutoff);
    assert s.blocks[i] == s.blocks[1..][i - 1];
  }

  lemma {:induction false} WithoutDisjoint(bs: seq<Block>, k: nat)
    requires DisjointIds(bs) && k < |bs|
    ensures DisjointIds(Without(bs, k))
  {
    var kept := Without(bs, k);
    forall i, j | 0 <= i < j < |kept|
      ensures IdSet(kept[i]) !! IdSet(kept[j])
    {
      assert kept[i] == bs[if i == 0 then 0 else i + k] && kept[j] == bs[j + k];
    }
  }

  lemma {:induction false} WithoutLinked(bs: seq<Block>, k: nat)
    requires k < |bs| && forall i | 2 <= i < |bs| :: LinkedAt(bs, i)
    ensures forall i | 2 <= i < |Without(bs, k)| :: LinkedAt(Without(bs, k), i)
  {
    forall i | 2 <= i < |Without(bs, k)|
      ensures LinkedAt(Without(bs, k), i)
    {
      assert LinkedAt(bs, i + k);
    }
  }

  lemma {:induction false} WithoutIsRetained(env: Env, bs: seq<Block>, k: nat)
    requires Retained(env, bs) && k < |bs|
    ensures Retained(env, Without(bs, k))
  {
    var kept := Without(bs, k);
    assert forall i | 1 <= i < |kept| :: kept[i] == bs[i + k];
    WithoutLinked(bs, k);
    WithoutDisjoint(bs, k);
    if |kept| > 1 {
      RetainedTimes(env, bs, 0, 1 + k);
      RetainedHeights(env, bs, 1 + k);
    }
  }

  lemma {:induction false} RemovedMember(bs: seq<Block>, k: nat, i: nat)
    requires k < |bs| && 1 <= i <= k
    ensures bs[i] in bs[1..1 + k]
  {
    assert bs[1..1 + k][i - 1] == bs[i];
  }

  lemma {:induction false} WithoutKeeps(bs: seq<Block>, k: nat, i: nat)
    requires k < |bs| && i < |bs| && !(1 <= i <= k)
    ensures var j := if i == 0 then 0 else i - k; j < |Without(bs, k)| && Without(bs, k)[j] == bs[i]
  {
  }

  lemma {:induction false} WithoutMembers(bs: seq<Block>, k: nat)
    requires k < |bs|
    ensures forall b :: b in bs <==> b in Without(bs, k) || b in bs[1..1 + k]
  {
    assert bs == bs[..1] + (bs[1..1 + k] + bs[1 + k..]);
    assert bs[..1] == [bs[0]];
  }

  /** A kept and a removed block stand at different positions. */
  lemma {:induction false} KeptAndRemoved(bs: seq<Block>, k: nat, c: Block, r: Block) returns (i: nat, m: nat)
    requires k < |bs| && c in Without(bs, k) && r in bs[1..1 + k]
    ensures i < |bs| && m < |bs| && i != m && bs[i] == c && bs[m] == r
  {
    m :| 0 <= m < k && bs[1..1 + k][m] == r;
    m := m + 1;
    if c == bs[0] {
      i := 0;
    } else {
      i :| 0 <= i < |bs[1 + k..]| && bs[1 + k..][i] == c;
      i := 1 + k + i;
    }
  }

  lemma {:induction false} WithoutSeparates(bs: seq<Block>, k: nat)
    requires k < |bs| && DisjointIds(bs)
    ensures AllIds(Without(bs, k)) !! AllIds(bs[1..1 + k])
  {
    forall c, r | c in Without(bs, k) && r in bs[1..1 + k]
      ensures IdSet(c) !! IdSet(r)
    {
      var i, m := KeptAndRemoved(bs, k, c, r);
      assert i < m ==> IdSet(bs[i]) !! IdSet(bs[m]);
      assert m < i ==> IdSet(bs[m]) !! IdSet(bs[i]);
    }
  }

  lemma {:induction false} TxIndexOfMember(bs: seq<Block>, b: Block, id: Hash)
    requires DisjointIds(bs) && b in bs && id in IdSet(b)
    ensures id in TxIndex(bs) && TxIndex(bs)[id] == b.header.height
  {
    var i :| 0 <= i < |bs| && bs[i] == b;
    TxIndexAt(bs, i, id);
  }

  /** Removing blocks removes exactly their ids from the transaction index. */
  lemma {:induction false} TxIndexMinus(bs: seq<Block>, kept: seq<Block>, removed: seq<Block>)
    requires DisjointIds(bs) && DisjointIds(kept) && AllIds(kept) !! AllIds(removed)
    requires forall b :: b in bs <==> b in kept || b in removed
    ensures TxIndex(kept) == TxIndex(bs) - AllIds(removed)
  {
    TxIndexKeys(kept);
    TxIndexKeys(bs);
    KeysOfUnion(kept, removed, bs);
    forall id | id in AllIds(kept)
      ensures id in TxIndex(bs) && id in TxIndex(kept) && TxIndex(kept)[id] == TxIndex(bs)[id]
    {
      SameTxEntry(bs, kept, id);
    }
    MapMinusKeys(TxIndex(bs), TxIndex(kept), AllIds(kept), AllIds(removed));
  }

  lemma {:induction false} SameTxEntry(bs: seq<Block>, kept: seq<Block>, id: Hash)
    requires DisjointIds(bs) && DisjointIds(kept) && id in AllIds(kept) && forall b | b in kept :: b in bs
    ensures id in TxIndex(kept) && id in TxIndex(bs) && TxIndex(kept)[id] == TxIndex(bs)[id]
  {
    var b :| b in kept && id in IdSet(b);
    TxIndexOfMember(kept, b, id);
    TxIndexOfMember(bs, b, id);
  }

  /** Two prunes equal one at the larger cutoff, on every ledger; the counts add up. */
  lemma {:induction false} PrunesCompose(s: Ledger, a: U64, b: U64)
    requires s.blocks != []
    ensures Pruned(Pruned(s, a), b) == Pruned(s, Later(a, b))
    ensures PruneCount(s, a) + PruneCount(Pruned(s, a), b) == PruneCount(s, Later(a, b))
  {
    var tail := s.blocks[1..];
    assert Pruned(s, a).blocks[1..] == Recent(tail, a);
    RecentTwice(tail, a, b);
    SplitByAge(tail, a);
    SplitByAge(Recent(tail, a), b);
    SplitByAge(tail, Later(a, b));
    var x, y, z := Old(tail, a), Old(Recent(tail, a), b), Old(tail, Later(a, b));
    KeysOfUnion(x, y, z);
    MapMinusTwice(s.hashToHeight, Hashes(x), Hashes(y));
    MapMinusTwice(s.txToBlock, AllIds(x), AllIds(y));
  }

  lemma {:induction false} KeysOfUnion(x: seq<Block>, y: seq<Block>, z: seq<Block>)
    requires forall b :: b in z <==> b in x || b in y
    ensures Hashes(z) == Hashes(x) + Hashes(y) && AllIds(z) == AllIds(x) + AllIds(y)
  {
  }

  lemma {:induction false} SplitAppend(bs: seq<Block>, x: Block, cutoff: U64)
    ensures Recent(bs + [x], cutoff)
         == if x.header.timestamp >= cutoff then Recent(bs, cutoff) + [x] else Recent(bs, cutoff)
    ensures Old(bs + [x], cutoff)
         == if x.header.timestamp >= cutoff then Old(bs, cutoff) else Old(bs, cutoff) + [x]
  {
    var longer := bs + [x];
    assert longer[..|longer| - 1] == bs && Last(longer) == x;
  }

  function Later(a: U64, b: U64): U64 { if a < b then b else a }

  lemma {:induction false} RecentTwice(tail: seq<Block>, a: U64, b: U64)
    ensures Recent(Recent(tail, a), b) == Recent(tail, Later(a, b))
  {
    if tail != [] {
      var prefix, x := tail[..|tail| - 1], Last(tail);
      RecentTwice(prefix, a, b);
      assert tail == prefix + [x];
      SplitAppend(Recent(prefix, a), x, b);
    }
  }

  /** The two filters split a list by age. */
  lemma {:induction false} SplitByAge(bs: seq<Block>, cutoff: U64)
    ensures |Old(bs, cutoff)| + |Recent(bs, cutoff)| == |bs|
    ensures forall b :: b in Old(bs, cutoff) <==> b in bs && b.header.timestamp < cutoff
    ensures forall b :: b in Recent(bs, cutoff) <==> b in bs && b.header.timestamp >= cutoff
  {
    if bs != [] {
      SplitByAge(bs[..|bs| - 1], cutoff);
      assert bs == bs[..|bs| - 1] + [Last(bs)];
    }
  }

  // ---------------------------------------------------------------- runs of adds and prunes

  /** The hash index never points at a block that is gone. */
  ghost predicate HashIndexSound(s: Ledger) {
    forall x | x in s.hashToHeight ::
      exists i :: 0 <= i < |s.blocks| && s.blocks[i].header.hash == x && s.hashToHeight[x] == s.blocks[i].header.height
  }

  ghost predicate RunInvariant(env: Env, s: Ledger) {
    && Retained(env, s.blocks)
    && s.txToBlock == TxIndex(s.blocks)
    && s.genesisHash == s.blocks[0].header.hash
    && (|s.blocks| > 1 ==> s.height == Last(s.blocks).header.height)
    && HashIndexSound(s)
  }

  lemma {:induction false} IndexedInvariant(env: Env, bs: seq<Block>)
    requires ChainOk(env, bs) && DisjointIds(bs)
    ensures RunInvariant(env, Indexed(bs))
  {
    ChainIsRetained(env, bs);
    forall x | x in HashIndex(bs)
      ensures exists i :: 0 <= i < |bs| && bs[i].header.hash == x && HashIndex(bs)[x] == bs[i].header.height
    {
      var i := HashIndexWitness(bs, x);
    }
  }

  lemma {:induction false} RetainedGrows(env: Env, bs: seq<Block>, b: Block)
    requires Retained(env, bs) && Sound(env, b) && Linked(Last(bs), b) && DisjointIds(bs + [b])
    ensures Retained(env, bs + [b])
  {
    var longer := bs + [b];
    forall i | 1 <= i < |longer|
      ensures Sound(env, longer[i]) && (i >= 2 ==> LinkedAt(longer, i))
    {
      assert longer[i - 1] == bs[i - 1] && (i < |bs| ==> longer[i] == bs[i]);
      assert 2 <= i < |bs| ==> LinkedAt(bs, i);
    }
  }

  lemma {:induction false} AddKeeps(env: Env, s: Ledger, b: Block)
    requires RunInvariant(env, s) && Extend(env, s, b).Ok?
    ensures RunInvariant(env, Extend(env, s, b).value)
  {
    ExtendExact(env, s, b);
    DisjointGrows(s.blocks, b);
    RetainedGrows(env, s.blocks, b);
    assert (s.blocks + [b])[..|s.blocks + [b]| - 1] == s.blocks;
    AddKeepsHashIndex(s, b);
  }

  lemma {:induction false} AddKeepsHashIndex(s: Ledger, b: Block)
    requires HashIndexSound(s)
    ensures HashIndexSound(Append(s, b))
  {
    var s' := Append(s, b);
    forall x | x in s'.hashToHeight
      ensures exists i :: 0 <= i < |s'.blocks| && s'.blocks[i].header.hash == x
                       && s'.hashToHeight[x] == s'.blocks[i].header.height
    {
      if x == b.header.hash {
        assert s'.blocks[|s.blocks|] == b;
      } else {
        var i := IndexedAt(s, x);
        assert s'.blocks[i] == s.blocks[i];
      }
    }
  }

  /** The block that a sound hash index points at. */
  lemma {:induction false} IndexedAt(s: Ledger, x: Hash) returns (i: nat)
    requires HashIndexSound(s) && x in s.hashToHeight
    ensures i < |s.blocks| && s.blocks[i].header.hash == x && s.hashToHeight[x] == s.blocks[i].header.height
  {
    i :| 0 <= i < |s.blocks| && s.blocks[i].header.hash == x && s.hashToHeight[x] == s.blocks[i].header.height;
  }

  lemma {:induction false} PruneKeeps(env: Env, s: Ledger, k: nat)
    requires RunInvariant(env, s) && k < |s.blocks|
    ensures RunInvariant(env, RemoveRun(s, k))
  {
    WithoutIsRetained(env, s.blocks, k);
    TxIndexWithout(s.blocks, k);
    PruneKeepsHashIndex(s, k);
  }

  lemma {:induction false} TxIndexWithout(bs: seq<Block>, k: nat)
    requires DisjointIds(bs) && k < |bs|
    ensures TxIndex(Without(bs, k)) == TxIndex(bs) - AllIds(bs[1..1 + k])
  {
    WithoutDisjoint(bs, k);
    WithoutMembers(bs, k);
    WithoutSeparates(bs, k);
    TxIndexMinus(bs, Without(bs, k), bs[1..1 + k]);
  }

  lemma {:induction false} PruneKeepsHashIndex(s: Ledger, k: nat)
    requires k < |s.blocks| && HashIndexSound(s)
    ensures HashIndexSound(RemoveRun(s, k))
  {
    var s' := RemoveRun(s, k);
    forall x | x in s'.hashToHeight
      ensures exists i :: 0 <= i < |s'.blocks| && s'.blocks[i].header.hash == x
                       && s'.hashToHeight[x] == s'.blocks[i].header.height
    {
      var i := IndexedAt(s, x);
      assert !(1 <= i <= k) by {
        if 1 <= i <= k { RemovedMember(s.blocks, k, i); }
      }
      WithoutKeeps(s.blocks, k, i);
      var j := if i == 0 then 0 else i - k;
      assert s'.blocks[j].header.hash == x;
    }
  }

  /** Every state that adds and prunes reach keeps genesis, a linked and time-ordered suffix, the transaction
      index of exactly that list, and a hash index without dangling entries. */
  lemma {:induction false} RunsKeepInvariant(env: Env, s: Ledger, ops: seq<Op>)
    requires s.blocks != [] && RunInvariant(env, s)
    ensures RunInvariant(env, Run(env, s, ops))
  {
    if ops != [] {
      var before := Run(env, s, ops[..|ops| - 1]);
      RunsKeepInvariant(env, s, ops[..|ops| - 1]);
      match ops[|ops| - 1]
      case Add(b) =>
        if Extend(env, before, b).Ok? {
          AddKeeps(env, before, b);
        }
      case Prune(cutoff) =>
        PruneIsContiguous(env, before, cutoff);
        PruneKeeps(env, before, PruneCount(before, cutoff));
    }
  }

  /** The same from a genesis configuration, together with what the next prune does. */
  lemma {:induction false} RunsFromGenesis(env: Env, validators: seq<PublicKey>, timestamp: U64, ops: seq<Op>,
                                           cutoff: U64)
    requires validators != []
    ensures var s := Run(env, NewLedger(env, validators, timestamp), ops);
            && RunInvariant(env, s)
            && PruneCount(s, cutoff) < |s.blocks|
            && Pruned(s, cutoff).blocks == Without(s.blocks, PruneCount(s, cutoff))
            && (forall i | 1 <= i < |s.blocks| :: s.blocks[i].header.timestamp < cutoff <==> i <= PruneCount(s, cutoff))
  {
    var s := Run(env, NewLedger(env, validators, timestamp), ops);
    var g := GenesisBlock(env, validators, timestamp);
    GenesisSound(env, validators, timestamp);
    IndexedInvariant(env, [g]);
    RunsKeepInvariant(env, NewLedger(env, validators, timestamp), ops);
    PruneIsContiguous(env, s, cutoff);
    forall i | 1 <= i < |s.blocks|
      ensures s.blocks[i].header.timestamp < cutoff <==> i <= PruneCount(s, cutoff)
    {
      PrunedAreOld(env, s, cutoff, i);
    }
  }

  // ---------------------------------------------------------------- hash keys

  /** The header encodings of a ledger and of every block offered to it. */
  function RunInputs(s: Ledger, ops: seq<Op>): set<Bytes> {
    HeaderInputs(s.blocks) + set op | op in ops && op.Add? :: HeaderBytes(op.block.header)
  }

  lemma {:induction false} HashIndexAt(env: Env, bs: seq<Block>, i: nat)
    requires Retained(env, bs) && i < |bs| && !HasCollision(env.hash, HeaderInputs(bs))
    ensures bs[i].header.hash in HashIndex(bs) && HashIndex(bs)[bs[i].header.hash] == bs[i].header.height
  {
    var x := bs[i].header.hash;
    HashIndexHas(bs, i);
    var j := HashIndexWitness(bs, x);
    if i != j {
      SharedHashCollides(env, bs, i, j);
    }
  }

  lemma {:induction false} HashIndexOfMember(env: Env, bs: seq<Block>, b: Block)
    requires Retained(env, bs) && b in bs && !HasCollision(env.hash, HeaderInputs(bs))
    ensures b.header.hash in HashIndex(bs) && HashIndex(bs)[b.header.hash] == b.header.height
  {
    var i :| 0 <= i < |bs| && bs[i] == b;
    HashIndexAt(env, bs, i);
  }

  /** Removing blocks removes exactly their hashes from the hash index, barring a collision. */
  lemma {:induction false} HashIndexMinus(env: Env, bs: seq<Block>, kept: seq<Block>, removed: seq<Block>)
    requires Retained(env, bs) && Retained(env, kept) && !HasCollision(env.hash, HeaderInputs(bs))
    requires forall b :: b in bs <==> b in kept || b in removed
    requires Hashes(kept) !! Hashes(removed)
    ensures HashIndex(kept) == HashIndex(bs) - Hashes(removed)
  {
    HashIndexKeys(kept);
    HashIndexKeys(bs);
    KeysOfUnion(kept, removed, bs);
    CollisionMonotone(env.hash, HeaderInputs(kept), HeaderInputs(bs));
    forall x | x in Hashes(kept)
      ensures x in HashIndex(bs) && x in HashIndex(kept) && HashIndex(kept)[x] == HashIndex(bs)[x]
    {
      SameHashEntry(env, bs, kept, x);
    }
    MapMinusKeys(HashIndex(bs), HashIndex(kept), Hashes(kept), Hashes(removed));
  }

  lemma {:induction false} SameHashEntry(env: Env, bs: seq<Block>, kept: seq<Block>, x: Hash)
    requires Retained(env, bs) && Retained(env, kept) && x in Hashes(kept) && forall b | b in kept :: b in bs
    requires !HasCollision(env.hash, HeaderInputs(bs)) && !HasCollision(env.hash, HeaderInputs(kept))
    ensures x in HashIndex(kept) && x in HashIndex(bs) && HashIndex(kept)[x] == HashIndex(bs)[x]
  {
    var b :| b in kept && b.header.hash == x;
    HashIndexOfMember(env, kept, b);
    HashIndexOfMember(env, bs, b);
  }

  lemma {:induction false} HashIndexWithout(env: Env, bs: seq<Block>, k: nat)
    requires Retained(env, bs) && k < |bs| && !HasCollision(env.hash, HeaderInputs(bs))
    ensures HashIndex(Without(bs, k)) == HashIndex(bs) - Hashes(bs[1..1 + k])
  {
    WithoutMembers(bs, k);
    WithoutIsRetained(env, bs, k);
    forall c, r | c in Without(bs, k) && r in bs[1..1 + k]
      ensures c.header.hash != r.header.hash
    {
      HashesApart(env, bs, k, c, r);
    }
    HashIndexMinus(env, bs, Without(bs, k), bs[1..1 + k]);
  }

  lemma {:induction false} HashesApart(env: Env, bs: seq<Block>, k: nat, c: Block, r: Block)
    requires Retained(env, bs) && k < |bs| && c in Without(bs, k) && r in bs[1..1 + k]
    requires !HasCollision(env.hash, HeaderInputs(bs))
    ensures c.header.hash != r.header.hash
  {
    var i, m := KeptAndRemoved(bs, k, c, r);
    OnlyHolder(env, bs, i);
  }

  /** Barring a collision no other block has the hash. */
  lemma {:induction false} OnlyHolder(env: Env, bs: seq<Block>, i: nat)
    requires Retained(env, bs) && i < |bs| && !HasCollision(env.hash, HeaderInputs(bs))
    ensures forall j | 0 <= j < |bs| && j != i :: bs[j].header.hash != bs[i].header.hash
  {
    forall j | 0 <= j < |bs| && j != i
      ensures bs[j].header.hash != bs[i].header.hash
    {
      if bs[j].header.hash == bs[i].header.hash {
        SharedHashCollides(env, bs, i, j);
      }
    }
  }

  ghost predicate HashIndexExact(s: Ledger) { s.hashToHeight == HashIndex(s.blocks) }

  lemma {:induction false} AddKeepsHashKeys(env: Env, s: Ledger, b: Block, S: set<Bytes>)
    requires s.blocks != [] && HashIndexExact(s) && HeaderInputs(s.blocks) <= S && HeaderBytes(b.header) in S
    ensures HashIndexExact(Step(env, s, Add(b))) && HeaderInputs(Step(env, s, Add(b)).blocks) <= S
  {
    ExtendExact(env, s, b);
    var bs := s.blocks + [b];
    assert bs[..|bs| - 1] == s.blocks;
  }

  lemma {:induction false} PruneKeepsHashKeys(env: Env, s: Ledger, cutoff: U64, S: set<Bytes>)
    requires Retained(env, s.blocks) && HashIndexExact(s)
    requires HeaderInputs(s.blocks) <= S && !HasCollision(env.hash, S)
    ensures HashIndexExact(Pruned(s, cutoff)) && HeaderInputs(Pruned(s, cutoff).blocks) <= S
  {
    var k := PruneCount(s, cutoff);
    PruneIsContiguous(env, s, cutoff);
    CollisionMonotone(env.hash, HeaderInputs(s.blocks), S);
    HashIndexWithout(env, s.blocks, k);
    WithoutMembers(s.blocks, k);
  }

  /** The hash index is exactly the index of the retained blocks in every run state, or two of the header
      encodings involved collide. */
  lemma {:induction false} RunsKeepHashKeys(env: Env, s: Ledger, ops: seq<Op>)
    requires s.blocks != [] && RunInvariant(env, s) && HashIndexExact(s)
    ensures HashIndexExact(Run(env, s, ops)) || HasCollision(env.hash, RunInputs(s, ops))
  {
    if !HasCollision(env.hash, RunInputs(s, ops)) {
      RunsWithinInputs(env, s, ops, RunInputs(s, ops));
    }
  }

  lemma {:induction false} RunsWithinInputs(env: Env, s: Ledger, ops: seq<Op>, S: set<Bytes>)
    requires s.blocks != [] && RunInvariant(env, s) && HashIndexExact(s)
    requires HeaderInputs(s.blocks) <= S && !HasCollision(env.hash, S)
    requires forall op | op in ops && op.Add? :: HeaderBytes(op.block.header) in S
    ensures HashIndexExact(Run(env, s, ops)) && HeaderInputs(Run(env, s, ops).blocks) <= S
  {
    if ops != [] {
      var shorter := ops[..|ops| - 1];
      assert forall op | op in shorter :: op in ops;
      RunsWithinInputs(env, s, shorter, S);
      RunsKeepInvariant(env, s, shorter);
      match ops[|ops| - 1]
      case Add(b) => AddKeepsHashKeys(env, Run(env, s, shorter), b, S);
      case Prune(cutoff) => PruneKeepsHashKeys(env, Run(env, s, shorter), cutoff, S);
    }
  }

  // ---------------------------------------------------------------- lookups after a prune

  /** The height scan finds each retained block, and nothing else. */
  lemma {:induction false} HeightScanExact(env: Env, bs: seq<Block>, h: U64)
    requires Retained(env, bs)
    ensures forall i | 0 <= i < |bs| :: AtHeight(bs, bs[i].header.height) == Some(bs[i])
    ensures AtHeight(bs, h).Some? <==> exists b :: b in bs && b.header.height == h
  {
    forall i | 0 <= i < |bs|
      ensures AtHeight(bs, bs[i].header.height) == Some(bs[i])
    {
      AtHeightFinds(env, bs, i);
    }
    if AtHeight(bs, h).Some? {
      var i := AtHeightWitness(bs, h);
      assert bs[i] in bs;
    }
  }

  lemma {:induction false} HeightsBelow(env: Env, s: Ledger, i: nat)
    requires RunInvariant(env, s) && i < |s.blocks|
    ensures s.blocks[i].header.height <= s.height
  {
    if |s.blocks| > 1 {
      HeightsUpToLast(env, s.blocks, i);
    }
  }

  lemma {:induction false} HeightsUpToLast(env: Env, bs: seq<Block>, i: nat)
    requires Retained(env, bs) && i < |bs|
    ensures bs[i].header.height <= Last(bs).header.height
  {
    if i > 0 {
      RetainedHeights(env, bs, i);
      RetainedHeights(env, bs, |bs| - 1);
    }
  }

  /** The full node's search finds each retained transaction in its block. */
  lemma {:induction false} NodeScanAt(env: Env, s: Ledger, i: nat, id: Hash)
    requires RunInvariant(env, s) && i < |s.blocks| && id in IdSet(s.blocks[i])
    ensures NodeScan(s.blocks, id, s.height + 1).Some?
    ensures NodeScan(s.blocks, id, s.height + 1) == FindTx(s.blocks[i].transactions, id)
  {
    HeightsBelow(env, s, i);
    NodeScanFinds(env, s.blocks, i, id, s.height + 1);
  }

  /** Where an id stands in the list. */
  lemma {:induction false} HolderOf(bs: seq<Block>, id: Hash) returns (i: nat)
    requires id in AllIds(bs)
    ensures i < |bs| && id in IdSet(bs[i])
  {
    var b :| b in bs && id in IdSet(b);
    i :| 0 <= i < |bs| && bs[i] == b;
  }

  lemma {:induction false} NodeScanExact(env: Env, s: Ledger, id: Hash)
    requires RunInvariant(env, s)
    ensures NodeScan(s.blocks, id, s.height + 1).Some? <==> id in AllIds(s.blocks)
  {
    if id in AllIds(s.blocks) {
      var i := HolderOf(s.blocks, id);
      NodeScanAt(env, s, i, id);
    } else {
      forall i | 0 <= i < |s.blocks|
        ensures id !in IdSet(s.blocks[i])
      {
        assert s.blocks[i] in s.blocks;
      }
      NodeScanMisses(s.blocks, id, s.height + 1);
    }
  }

  /** Every run state: the height scan and the full node's search find each retained block and transaction,
      genesis included, and nothing that is not retained. */
  lemma {:induction false} ScansSurvivePrunes(env: Env, s: Ledger, h: U64, id: Hash)
    requires RunInvariant(env, s)
    ensures forall i | 0 <= i < |s.blocks| :: AtHeight(s.blocks, s.blocks[i].header.height) == Some(s.blocks[i])
    ensures AtHeight(s.blocks, h).Some? <==> exists b :: b in s.blocks && b.header.height == h
    ensures NodeScan(s.blocks, id, s.height + 1).Some? <==> id in AllIds(s.blocks)
    ensures forall i | 0 <= i < |s.blocks| && id in IdSet(s.blocks[i]) ::
              NodeScan(s.blocks, id, s.height + 1) == FindTx(s.blocks[i].transactions, id)
  {
    HeightScanExact(env, s.blocks, h);
    NodeScanExact(env, s, id);
    forall i | 0 <= i < |s.blocks| && id in IdSet(s.blocks[i])
      ensures NodeScan(s.blocks, id, s.height + 1) == FindTx(s.blocks[i].transactions, id)
    {
      NodeScanAt(env, s, i, id);
    }
  }

  /** Nothing between genesis and the newest block is missing; a caller reads this off two numbers. */
  predicate NoGap(s: Ledger) { |s.blocks| == s.height + 1 }

  /** A run state has a gap exactly if its first retained block after genesis is not at height 1, or if only
      genesis is left of a longer chain. */
  lemma {:induction false} GapShape(env: Env, s: Ledger)
    requires RunInvariant(env, s)
    ensures |s.blocks| <= s.height + 1
    ensures |s.blocks| > 1 ==> (NoGap(s) <==> s.blocks[1].header.height == 1)
  {
    if |s.blocks| > 1 {
      RetainedHeights(env, s.blocks, |s.blocks| - 1);
    }
  }

  /** With a gap, a position above genesis does not hold the block of that height. */
  lemma {:induction false} Displaced(env: Env, s: Ledger, h: nat)
    requires RunInvariant(env, s) && 1 <= h < |s.blocks|
    ensures s.blocks[h].header.height == h <==> NoGap(s)
  {
    GapShape(env, s);
    RetainedHeights(env, s.blocks, h);
  }

  /** Height lookup after prunes, exactly: it answers like the scan for genesis and above the chain's height,
      and everywhere between exactly when there is no gap. */
  lemma {:induction false} HeightLookupExact(env: Env, s: Ledger, h: U64)
    requires RunInvariant(env, s)
    ensures ByHeight(s, h) == AsLookup(AtHeight(s.blocks, h)) <==> h == 0 || h > s.height || NoGap(s)
  {
    GapShape(env, s);
    if h > s.height {
      forall i | 0 <= i < |s.blocks|
        ensures s.blocks[i].header.height != h
      {
        HeightsBelow(env, s, i);
      }
      AtHeightNone(s.blocks, h);
    } else if h < |s.blocks| {
      HeightLookupInside(env, s, h);
    }
  }

  lemma {:induction false} HeightLookupInside(env: Env, s: Ledger, h: U64)
    requires RunInvariant(env, s) && h < |s.blocks|
    ensures Found(s.blocks[h]) == AsLookup(AtHeight(s.blocks, h)) <==> h == 0 || NoGap(s)
  {
    if h > 0 {
      Displaced(env, s, h);
    }
    if s.blocks[h].header.height == h {
      AtHeightFinds(env, s.blocks, h);
    } else if AtHeight(s.blocks, h).Some? {
      var i := AtHeightWitness(s.blocks, h);
    }
  }

  /** All height lookups answer like the scan exactly when there is no gap. */
  lemma {:induction false} HeightLookupsNeedNoGap(env: Env, s: Ledger)
    requires RunInvariant(env, s)
    ensures (forall h: U64 :: ByHeight(s, h) == AsLookup(AtHeight(s.blocks, h))) <==> NoGap(s)
  {
    GapShape(env, s);
    if NoGap(s) {
      forall h: U64
        ensures ByHeight(s, h) == AsLookup(AtHeight(s.blocks, h))
      {
        HeightLookupExact(env, s, h);
      }
    } else {
      HeightLookupExact(env, s, 1);
    }
  }

  /** Looking an indexed block up by its height returns it exactly if it is genesis or there is no gap. */
  lemma {:induction false} RetainedByHeight(env: Env, s: Ledger, i: nat)
    requires RunInvariant(env, s) && i < |s.blocks|
    ensures ByHeight(s, s.blocks[i].header.height) == Found(s.blocks[i]) <==> i == 0 || NoGap(s)
  {
    HeightsBelow(env, s, i);
    AtHeightFinds(env, s.blocks, i);
    HeightLookupExact(env, s, s.blocks[i].header.height);
    if i > 0 {
      RetainedHeights(env, s.blocks, i);
    }
  }

  /** An id of one block is in no other, so a lookup that lands elsewhere finds nothing. */
  lemma {:induction false} TxLookupAt(env: Env, s: Ledger, i: nat, id: Hash)
    requires RunInvariant(env, s) && i < |s.blocks| && id in IdSet(s.blocks[i])
    ensures TxById(s, id) == AsLookup(FindTx(s.blocks[i].transactions, id)) <==> i == 0 || NoGap(s)
  {
    var h := s.blocks[i].header.height;
    TxIndexAt(s.blocks, i, id);
    RetainedByHeight(env, s, i);
    FindTxInBlock(s.blocks[i], id);
    if h < |s.blocks| && h != i {
      IdElsewhere(s.blocks, i, h, id);
    }
    TxThrough(s, i, id);
  }

  /** A transaction lookup is right exactly when the height lookup behind it is. */
  lemma {:induction false} TxThrough(s: Ledger, i: nat, id: Hash)
    requires i < |s.blocks| && id in s.txToBlock && s.txToBlock[id] == s.blocks[i].header.height
    requires FindTx(s.blocks[i].transactions, id).Some?
    requires var h := s.txToBlock[id]; h < |s.blocks| && h != i ==> FindTx(s.blocks[h].transactions, id) == None
    ensures TxById(s, id) == AsLookup(FindTx(s.blocks[i].transactions, id))
       <==> ByHeight(s, s.blocks[i].header.height) == Found(s.blocks[i])
  {
  }

  lemma {:induction false} IdElsewhere(bs: seq<Block>, i: nat, j: nat, id: Hash)
    requires DisjointIds(bs) && i < |bs| && j < |bs| && i != j && id in IdSet(bs[i])
    ensures FindTx(bs[j].transactions, id) == None
  {
    assert IdSet(bs[if i < j then i else j]) !! IdSet(bs[if i < j then j else i]);
    FindTxInBlock(bs[j], id);
  }

  /** Transaction lookup after prunes, exactly: it answers like the full node's search for genesis ids and ids
      that are not retained, and for every other id exactly when there is no gap. */
  lemma {:induction false} TxLookupExact(env: Env, s: Ledger, id: Hash)
    requires RunInvariant(env, s)
    ensures TxById(s, id) == AsLookup(NodeScan(s.blocks, id, s.height + 1))
       <==> id !in AllIds(s.blocks) || id in IdSet(s.blocks[0]) || NoGap(s)
  {
    NodeScanExact(env, s, id);
    TxIndexKeys(s.blocks);
    if id in AllIds(s.blocks) {
      var i := HolderOf(s.blocks, id);
      NodeScanAt(env, s, i, id);
      TxLookupAt(env, s, i, id);
      assert i > 0 ==> IdSet(s.blocks[0]) !! IdSet(s.blocks[i]);
    }
  }

  /** Hash lookup after prunes, exactly, barring a collision of retained header encodings: it answers like the
      scan for the genesis hash and hashes that are not retained, and for every other exactly when there is no
      gap. */
  lemma {:induction false} HashLookupExact(env: Env, s: Ledger, x: Hash)
    requires RunInvariant(env, s) && HashIndexExact(s)
    ensures || (ByHash(s, x) == AsLookup(ScanHash(s.blocks, x))
                <==> x !in Hashes(s.blocks) || x == s.genesisHash || NoGap(s))
            || HasCollision(env.hash, HeaderInputs(s.blocks))
  {
    HashIndexKeys(s.blocks);
    if !HasCollision(env.hash, HeaderInputs(s.blocks)) {
      if ScanHash(s.blocks, x).Some? {
        var i := ScanHashWitness(s.blocks, x);
        HashIndexAt(env, s.blocks, i);
        OnlyHolder(env, s.blocks, i);
        RetainedByHeight(env, s, i);
      } else if x in Hashes(s.blocks) {
        var i := HashIndexWitness(s.blocks, x);
        ScanHashSome(s.blocks, i);
      }
    }
  }

  /** What each lookup of a run state answers correctly. */
  ghost predicate LookupsExact(s: Ledger, h: U64, id: Hash)
    requires s.blocks != []
  {
    && (ByHeight(s, h) == AsLookup(AtHeight(s.blocks, h)) <==> h == 0 || h > s.height || NoGap(s))
    && (TxById(s, id) == AsLookup(NodeScan(s.blocks, id, s.height + 1))
        <==> id !in AllIds(s.blocks) || id in IdSet(s.blocks[0]) || NoGap(s))
  }

  ghost predicate HashLookupRight(s: Ledger, x: Hash) {
    ByHash(s, x) == AsLookup(ScanHash(s.blocks, x)) <==> x !in Hashes(s.blocks) || x == s.genesisHash || NoGap(s)
  }

  /** From every genesis configuration, over every run of adds and prunes and for every argument: the indexed
      lookups answer like the scans except, when there is a gap, for what lies above genesis.  The hash lookup
      needs that no two header encodings of the run collide. */
  lemma {:induction false} LookupsNeedNoGap(env: Env, validators: seq<PublicKey>, timestamp: U64, ops: seq<Op>,
                                            h: U64, x: Hash, id: Hash)
    requires validators != []
    ensures var start := NewLedger(env, validators, timestamp);
            var s := Run(env, start, ops);
            && LookupsExact(s, h, id)
            && (HashLookupRight(s, x) || HasCollision(env.hash, RunInputs(start, ops)))
  {
    var start := NewLedger(env, validators, timestamp);
    StartInvariant(env, validators, timestamp);
    RunsKeepInvariant(env, start, ops);
    StateLookups(env, Run(env, start, ops), h, id);
    RunHashLookup(env, start, ops, x);
  }

  lemma {:induction false} StateLookups(env: Env, s: Ledger, h: U64, id: Hash)
    requires RunInvariant(env, s)
    ensures LookupsExact(s, h, id)
  {
    HeightLookupExact(env, s, h);
    TxLookupExact(env, s, id);
  }

  lemma {:induction false} RunHashLookup(env: Env, start: Ledger, ops: seq<Op>, x: Hash)
    requires start.blocks != [] && RunInvariant(env, start) && HashIndexExact(start)
    ensures HashLookupRight(Run(env, start, ops), x) || HasCollision(env.hash, RunInputs(start, ops))
  {
    if !HasCollision(env.hash, RunInputs(start, ops)) {
      var s := Run(env, start, ops);
      RunsKeepInvariant(env, start, ops);
      RunsWithinInputs(env, start, ops, RunInputs(start, ops));
      CollisionMonotone(env.hash, HeaderInputs(s.blocks), RunInputs(start, ops));
      HashLookupExact(env, s, x);
    }
  }

  lemma {:induction false} StartInvariant(env: Env, validators: seq<PublicKey>, timestamp: U64)
    requires validators != []
    ensures RunInvariant(env, NewLedger(env, validators, timestamp))
    ensures HashIndexExact(NewLedger(env, validators, timestamp))
  {
    GenesisSound(env, validators, timestamp);
    IndexedInvariant(env, [GenesisBlock(env, validators, timestamp)]);
  }

  /** Nor does `verify`: in a run state it succeeds exactly when only genesis is left or no block between
      genesis and the suffix is missing. */
  lemma {:induction false} VerifyNeedsNoGap(env: Env, s: Ledger)
    requires RunInvariant(env, s)
    ensures VerifyBlocks(env, s.blocks).Ok? <==> |s.blocks| == 1 || NoGap(s)
  {
    VerifyExact(env, s.blocks);
    if |s.blocks| > 1 {
      RetainedHeights(env, s.blocks, |s.blocks| - 1);
      if ChainOk(env, s.blocks) {
        assert LinkedAt(s.blocks, 1);
      }
    }
  }
}
