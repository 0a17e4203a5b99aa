/** Reading a store back: `load_blockchain` and `get_latest_block` over every run of adds and prunes. */
module ReloadTheorems {
  import opened Encoding
  import opened Blocks
  import opened Ledgers
  import opened LedgerTheorems
  import opened RunTheorems
  import opened GapTheorems
  import opened ReuseTheorems
  import opened StoreStates
  import opened StoreTheorems
  import opened PersistenceTheorems

  // ---------------------------------------------------------------- what the replay sees

  /** Under every height the store gives what the list has there. */
  ghost predicate Serves(c: Codec, s: StoreState, bs: seq<Block>) {
    forall h: U64 :: BlockByHeight(c, s, h) == Ok(AtHeight(bs, h))
  }

  lemma {:induction false} MirrorServes(c: Codec, s: StoreState, chain: Ledger)
    requires Lawful(c) && Mirrors(c, s, chain)
    ensures Serves(c, s, chain.blocks)
  {
    forall h: U64
      ensures BlockByHeight(c, s, h) == Ok(AtHeight(chain.blocks, h))
    {
      MirrorLookups(c, s, chain, h, ZERO, ZERO);
    }
  }

  /** No block between genesis and the others is missing. */
  predicate Contiguous(bs: seq<Block>) { |bs| <= 1 || bs[1].header.height == 1 }

  lemma {:induction false} ContiguousIsChain(env: Env, bs: seq<Block>)
    requires Retained(env, bs) && Contiguous(bs)
    ensures ChainOk(env, bs)
  {
    forall i | 1 <= i < |bs|
      ensures LinkedAt(bs, i)
    {
    }
  }

  lemma {:induction false} ChainIsContiguous(env: Env, bs: seq<Block>)
    requires ChainOk(env, bs)
    ensures Contiguous(bs)
  {
    if |bs| > 1 {
      HeightIsPosition(env, bs, 1);
    }
  }

  lemma {:induction false} AtPosition(env: Env, bs: seq<Block>, h: U64)
    requires ChainOk(env, bs) && DisjointIds(bs)
    ensures AtHeight(bs, h) == if h < |bs| then Some(bs[h]) else None
  {
    if h < |bs| {
      ChainIsRetained(env, bs);
      HeightIsPosition(env, bs, h);
      AtHeightFinds(env, bs, h);
    } else {
      forall i | 0 <= i < |bs|
        ensures bs[i].header.height != h
      {
        HeightIsPosition(env, bs, i);
      }
      AtHeightNone(bs, h);
    }
  }

  // ---------------------------------------------------------------- the three courses of a replay

  /** From the right genesis a chain is replayed block by block. */
  lemma {:induction false} LoadsChain(env: Env, c: Codec, s: StoreState, bs: seq<Block>, n: nat)
    requires ChainOk(env, bs) && DisjointIds(bs) && Serves(c, s, bs) && n < |bs| && n < 0x1_0000_0000_0000_0000
    ensures LoadUpTo(env, c, s, Indexed(bs[..1]), n) == Ok(Indexed(bs[..n + 1]))
  {
    if n > 0 {
      LoadsChain(env, c, s, bs, n - 1);
      NextLoads(env, c, s, bs, n);
    }
  }

  lemma {:induction false} NextLoads(env: Env, c: Codec, s: StoreState, bs: seq<Block>, n: U64)
    requires ChainOk(env, bs) && DisjointIds(bs) && Serves(c, s, bs) && 0 < n < |bs|
    ensures LoadNext(env, c, s, Indexed(bs[..n]), n) == Ok(Indexed(bs[..n + 1]))
  {
    AtPosition(env, bs, n);
    ExtendsPrefix(env, bs, n);
  }

  /** Missing heights above are skipped. */
  lemma {:induction false} LoadRest(env: Env, c: Codec, s: StoreState, start: Ledger, m: nat, n: nat)
    requires start.blocks != [] && m <= n < 0x1_0000_0000_0000_0000 && LoadUpTo(env, c, s, start, m).Ok?
    requires forall h: U64 | m < h <= n :: BlockByHeight(c, s, h) == Ok(None)
    ensures LoadUpTo(env, c, s, start, n) == LoadUpTo(env, c, s, start, m)
    decreases n
  {
    if m < n {
      LoadRest(env, c, s, start, m, n - 1);
    }
  }

  lemma {:induction false} LoadSkips(env: Env, c: Codec, s: StoreState, start: Ledger, n: nat)
    requires start.blocks != [] && n < 0x1_0000_0000_0000_0000
    requires forall h: U64 | 1 <= h <= n :: BlockByHeight(c, s, h) == Ok(None)
    ensures LoadUpTo(env, c, s, start, n) == Ok(start)
  {
    if n > 0 {
      LoadSkips(env, c, s, start, n - 1);
    }
  }

  /** With nothing above genesis every height is skipped. */
  lemma {:induction false} LoadsNothing(env: Env, c: Codec, s: StoreState, bs: seq<Block>, start: Ledger, n: nat)
    requires Retained(env, bs) && |bs| == 1 && Serves(c, s, bs)
    requires start.blocks != [] && n < 0x1_0000_0000_0000_0000
    ensures LoadUpTo(env, c, s, start, n) == Ok(start)
  {
    forall h: U64 | 1 <= h <= n
      ensures BlockByHeight(c, s, h) == Ok(None)
    {
      AtHeightByPosition(env, bs, h, 0);
    }
    LoadSkips(env, c, s, start, n);
  }

  /** Below the first retained block nothing is found. */
  lemma {:induction false} GapSkipped(env: Env, c: Codec, s: StoreState, bs: seq<Block>, start: Ledger, n: nat)
    requires Retained(env, bs) && |bs| > 1 && Serves(c, s, bs) && start.blocks != [] && n < bs[1].header.height
    ensures LoadUpTo(env, c, s, start, n) == Ok(start)
  {
    forall h: U64 | 1 <= h <= n
      ensures BlockByHeight(c, s, h) == Ok(None)
    {
      AtHeightByPosition(env, bs, h, h - bs[1].header.height + 1);
    }
    LoadSkips(env, c, s, start, n);
  }

  /** From a lone genesis the first retained block decides: what it is refused with, the load fails with. */
  lemma {:induction false} FirstDecides(env: Env, c: Codec, s: StoreState, bs: seq<Block>, start: Ledger, n: nat)
    requires Retained(env, bs) && |bs| > 1 && Serves(c, s, bs) && start.blocks != []
    requires bs[1].header.height <= n < 0x1_0000_0000_0000_0000 && Extend(env, start, bs[1]).Err?
    ensures LoadUpTo(env, c, s, start, n) == Err(Extend(env, start, bs[1]).error)
  {
    var k := bs[1].header.height;
    GapSkipped(env, c, s, bs, start, k - 1);
    AtHeightFinds(env, bs, 1);
    assert LoadUpTo(env, c, s, start, k) == Err(Extend(env, start, bs[1]).error);
    LoadStops(env, c, s, start, k, n);
  }

  lemma {:induction false} GapRefused(env: Env, start: Ledger, b: Block)
    requires |start.blocks| == 1 && start.blocks[0].header.height == 0 && Sound(env, b) && b.header.height != 1
    ensures Extend(env, start, b) == Err(BlockHeightMismatch(1, b.header.height))
  {
    ValidateExact(env, b);
  }

  lemma {:induction false} LinkRefused(env: Env, start: Ledger, b: Block)
    requires |start.blocks| == 1 && start.blocks[0].header.height == 0 && Sound(env, b) && b.header.height == 1
    requires b.header.previousHash != start.blocks[0].header.hash
    ensures Extend(env, start, b) == Err(InvalidPreviousHash(start.blocks[0].header.hash, b.header.previousHash))
  {
    ValidateExact(env, b);
  }

  // ---------------------------------------------------------------- load_blockchain of a mirror

  /** The refusal of a store that looks empty. */
  predicate NothingSaved(s: StoreState) { s.metadata.chainHeight == 0 && s.metadata.genesisHash == ZERO }

  /** The chain a load starts from: a genesis rebuilt from the first validator alone. */
  function Rebuilt(env: Env, g: Block): (r: Ledger)
    ensures |r.blocks| == 1
  {
    NewLedger(env, [g.header.validator], g.header.timestamp)
  }

  lemma {:induction false} LoadStarts(env: Env, c: Codec, s: StoreState, bs: seq<Block>)
    requires Retained(env, bs) && Serves(c, s, bs)
    ensures Load(env, c, s)
         == if NothingSaved(s) then Err(InvalidInput("No blockchain data in storage"))
            else LoadUpTo(env, c, s, Rebuilt(env, bs[0]), s.metadata.chainHeight)
  {
    AtHeightFinds(env, bs, 0);
  }

  lemma {:induction false} GenesisFields(env: Env, validators: seq<PublicKey>, timestamp: U64)
    requires validators != []
    ensures var g := GenesisBlock(env, validators, timestamp);
            && g.header.validator == validators[0] && g.header.timestamp == timestamp && g.header.height == 0
            && |g.transactions| == |validators| && g.header.transactionCount == |validators| % 0x1_0000_0000
  {
  }

  /** One validator: the rebuilt genesis is the genesis. */
  lemma {:induction false} OneValidatorStart(env: Env, g: Block, validator: PublicKey, timestamp: U64)
    requires g == GenesisBlock(env, [validator], timestamp)
    ensures Rebuilt(env, g) == Indexed([g]) && g.header.height == 0
  {
    GenesisFields(env, [validator], timestamp);
  }

  /** The outcome of loading, in every state of chain and store that adds and prunes can reach from one validator:
      the retained blocks with indexes recomputed if they are contiguous, and otherwise a height mismatch at the
      first block above the gap. */
  lemma {:induction false} LoadMirrored(env: Env, c: Codec, s: StoreState, chain: Ledger, validator: PublicKey,
                                        timestamp: U64)
    requires Lawful(c) && RunInvariant(env, chain) && Mirrors(c, s, chain)
    requires chain.blocks[0] == GenesisBlock(env, [validator], timestamp)
    ensures Load(env, c, s)
         == if NothingSaved(s) then Err(InvalidInput("No blockchain data in storage"))
            else if Contiguous(chain.blocks) then Ok(Indexed(chain.blocks))
            else Err(BlockHeightMismatch(1, chain.blocks[1].header.height))
  {
    var bs, n := chain.blocks, s.metadata.chainHeight;
    MirrorServes(c, s, chain);
    LoadStarts(env, c, s, bs);
    OneValidatorStart(env, bs[0], validator, timestamp);
    assert bs[..1] == [bs[0]];
    if Contiguous(bs) {
      LoadsContiguous(env, c, s, bs, n);
    } else {
      assert bs[1] in bs;
      GapRefused(env, Indexed(bs[..1]), bs[1]);
      FirstDecides(env, c, s, bs, Indexed(bs[..1]), n);
    }
  }

  lemma {:induction false} LoadsContiguous(env: Env, c: Codec, s: StoreState, bs: seq<Block>, n: nat)
    requires Retained(env, bs) && Contiguous(bs) && Serves(c, s, bs) && n < 0x1_0000_0000_0000_0000
    requires forall b | b in bs :: b.header.height <= n
    ensures LoadUpTo(env, c, s, Indexed(bs[..1]), n) == Ok(Indexed(bs))
  {
    var m := |bs| - 1;
    ContiguousIsChain(env, bs);
    HeightIsPosition(env, bs, m);
    assert Last(bs) in bs;
    LoadsChain(env, c, s, bs, m);
    assert bs[..m + 1] == bs;
    forall h: U64 | m < h <= n
      ensures BlockByHeight(c, s, h) == Ok(None)
    {
      AtPosition(env, bs, h);
    }
    LoadRest(env, c, s, Indexed(bs[..1]), m, n);
  }

  /** The header encodings of a chain's genesis and of the genesis rebuilt from its first validator. */
  function GenesisInputs(env: Env, bs: seq<Block>): set<Bytes>
    requires bs != []
  {
    {HeaderBytes(bs[0].header), HeaderBytes(Rebuilt(env, bs[0]).blocks[0].header)}
  }

  /** A genesis of several validators differs from the rebuilt one in hash, or the two headers collide. */
  lemma {:induction false} RebuiltDiffers(env: Env, bs: seq<Block>, validators: seq<PublicKey>, timestamp: U64)
    requires bs != [] && 2 <= |validators| < 0x1_0000_0000 && bs[0] == GenesisBlock(env, validators, timestamp)
    ensures var rebuilt := Rebuilt(env, bs[0]).blocks[0];
            && rebuilt != bs[0] && rebuilt.header.height == 0
            && rebuilt == GenesisBlock(env, [validators[0]], timestamp)
            && (rebuilt.header.hash != bs[0].header.hash || HasCollision(env.hash, GenesisInputs(env, bs)))
  {
    var rebuilt := Rebuilt(env, bs[0]).blocks[0];
    GenesisFields(env, validators, timestamp);
    GenesisFields(env, [bs[0].header.validator], bs[0].header.timestamp);
    GenesisSound(env, validators, timestamp);
    GenesisSound(env, [bs[0].header.validator], bs[0].header.timestamp);
    if rebuilt.header.hash == bs[0].header.hash {
      HashBindsHeader(env, bs[0], rebuilt);
    }
  }

  /** The outcome with several genesis validators, in every such state: another chain when only genesis is left, a
      broken link when the retained blocks are contiguous (or the two genesis headers collide), and the same
      height mismatch at a gap. */
  lemma {:induction false} LoadOfOthers(env: Env, c: Codec, s: StoreState, chain: Ledger, validators: seq<PublicKey>,
                                        timestamp: U64)
    requires Lawful(c) && RunInvariant(env, chain) && Mirrors(c, s, chain) && 2 <= |validators| < 0x1_0000_0000
    requires chain.blocks[0] == GenesisBlock(env, validators, timestamp)
    ensures var other := GenesisBlock(env, [validators[0]], timestamp);
            || Load(env, c, s)
               == (if NothingSaved(s) then Err(InvalidInput("No blockchain data in storage"))
                   else if |chain.blocks| == 1 then Ok(Indexed([other]))
                   else if Contiguous(chain.blocks)
                   then Err(InvalidPreviousHash(other.header.hash, chain.blocks[0].header.hash))
                   else Err(BlockHeightMismatch(1, chain.blocks[1].header.height)))
            || (|chain.blocks| > 1 && HasCollision(env.hash, GenesisInputs(env, chain.blocks)))
    ensures GenesisBlock(env, [validators[0]], timestamp) != chain.blocks[0]
  {
    var bs, n, start := chain.blocks, s.metadata.chainHeight, Rebuilt(env, chain.blocks[0]);
    MirrorServes(c, s, chain);
    LoadStarts(env, c, s, bs);
    RebuiltDiffers(env, bs, validators, timestamp);
    assert start.blocks == [start.blocks[0]];
    if |bs| == 1 {
      LoadsNothing(env, c, s, bs, start, n);
    } else if !HasCollision(env.hash, GenesisInputs(env, bs)) {
      assert bs[1] in bs;
      OthersRefused(env, bs, start);
      FirstDecides(env, c, s, bs, start, n);
    }
  }

  lemma {:induction false} OthersRefused(env: Env, bs: seq<Block>, start: Ledger)
    requires Retained(env, bs) && |bs| > 1 && |start.blocks| == 1 && start.blocks[0].header.height == 0
    requires start.blocks[0].header.hash != bs[0].header.hash
    ensures Extend(env, start, bs[1])
         == Err(if bs[1].header.height == 1 then InvalidPreviousHash(start.blocks[0].header.hash, bs[0].header.hash)
                else BlockHeightMismatch(1, bs[1].header.height))
  {
    if bs[1].header.height == 1 {
      assert LinkedAt(bs, 1);
      LinkRefused(env, start, bs[1]);
    } else {
      GapRefused(env, start, bs[1]);
    }
  }

  // ---------------------------------------------------------------- store_blockchain, then load_blockchain

  /** A lone genesis that hashes to zero: its store looks empty. */
  ghost predicate LooksEmpty(bs: seq<Block>)
    requires bs != []
  {
    |bs| == 1 && bs[0].header.hash == ZERO
  }

  lemma {:induction false} StoredChain(env: Env, c: Codec, s: StoreState, bs: seq<Block>)
    requires ChainOk(env, bs) && DisjointIds(bs) && IsStored(c, s, bs)
    ensures RunInvariant(env, Indexed(bs)) && Contiguous(bs) && (NothingSaved(s) <==> LooksEmpty(bs))
  {
    IndexedInvariant(env, bs);
    ChainIsContiguous(env, bs);
    HeightIsPosition(env, bs, |bs| - 1);
  }

  /** Round trip: a chain grown from one genesis validator comes back whole, blocks and both indexes. */
  lemma {:induction false} LoadUndoesStore(env: Env, c: Codec, s: StoreState, bs: seq<Block>, validator: PublicKey,
                                           timestamp: U64)
    requires Lawful(c) && ChainOk(env, bs) && DisjointIds(bs) && IsStored(c, s, bs)
    requires bs[0] == GenesisBlock(env, [validator], timestamp)
    ensures Load(env, c, s)
         == if LooksEmpty(bs) then Err(InvalidInput("No blockchain data in storage")) else Ok(Indexed(bs))
  {
    StoredChain(env, c, s, bs);
    LoadMirrored(env, c, s, Indexed(bs), validator, timestamp);
  }

  /** With several genesis validators a load never gives the chain back: above genesis it fails, at genesis
      it fails or returns another chain, unless the two genesis headers collide. */
  lemma {:induction false} LoadNeedsOneValidator(env: Env, c: Codec, s: StoreState, bs: seq<Block>,
                                                 validators: seq<PublicKey>, timestamp: U64)
    requires Lawful(c) && ChainOk(env, bs) && DisjointIds(bs) && IsStored(c, s, bs)
    requires 2 <= |validators| < 0x1_0000_0000 && bs[0] == GenesisBlock(env, validators, timestamp)
    ensures |bs| > 1 ==> Load(env, c, s).Err? || HasCollision(env.hash, GenesisInputs(env, bs))
    ensures |bs| == 1 ==>
              || Load(env, c, s).Err?
              || (Load(env, c, s) == Ok(NewLedger(env, [validators[0]], timestamp))
                  && Load(env, c, s) != Ok(Indexed(bs)))
  {
    StoredChain(env, c, s, bs);
    LoadOfOthers(env, c, s, Indexed(bs), validators, timestamp);
  }

  /** After the first prune of a stored one-validator chain the load gives the whole chain if nothing was removed,
      genesis if everything above it was, and fails otherwise. */
  lemma {:induction false} LoadAfterPrune(env: Env, c: Codec, s: StoreState, bs: seq<Block>, validator: PublicKey,
                                          timestamp: U64, cutoff: U64, outcome: PruneOutcome)
    requires Lawful(c) && ChainOk(env, bs) && DisjointIds(bs) && IsStored(c, s, bs) && !LooksEmpty(bs)
    requires bs[0] == GenesisBlock(env, [validator], timestamp) && PruneBefore(c, s, cutoff) == Ok(outcome)
    ensures outcome.count == PruneCount(Indexed(bs), cutoff)
    ensures Load(env, c, outcome.state)
         == if outcome.count == 0 then Ok(Indexed(bs))
            else if outcome.count == |bs| - 1 then Ok(Indexed(bs[..1]))
            else Err(BlockHeightMismatch(1, outcome.count + 1))
  {
    PrunedMirror(env, c, s, bs, cutoff, outcome);
    LoadOfRemoved(env, c, outcome.state, bs, outcome.count, validator, timestamp);
  }

  lemma {:induction false} PrunedMirror(env: Env, c: Codec, s: StoreState, bs: seq<Block>, cutoff: U64,
                                        outcome: PruneOutcome)
    requires Lawful(c) && ChainOk(env, bs) && DisjointIds(bs) && IsStored(c, s, bs) && !LooksEmpty(bs)
    requires PruneBefore(c, s, cutoff) == Ok(outcome)
    ensures outcome.count == PruneCount(Indexed(bs), cutoff) && outcome.count < |bs| && !NothingSaved(outcome.state)
    ensures RunInvariant(env, RemoveRun(Indexed(bs), outcome.count))
    ensures Mirrors(c, outcome.state, RemoveRun(Indexed(bs), outcome.count))
  {
    StoredChain(env, c, s, bs);
    PrunesAgree(env, c, s, Indexed(bs), cutoff);
    PruneIsContiguous(env, Indexed(bs), cutoff);
    PruneKeeps(env, Indexed(bs), outcome.count);
  }

  lemma {:induction false} LoadOfRemoved(env: Env, c: Codec, s: StoreState, bs: seq<Block>, k: nat,
                                         validator: PublicKey, timestamp: U64)
    requires Lawful(c) && ChainOk(env, bs) && k < |bs| && !NothingSaved(s)
    requires RunInvariant(env, RemoveRun(Indexed(bs), k)) && Mirrors(c, s, RemoveRun(Indexed(bs), k))
    requires bs[0] == GenesisBlock(env, [validator], timestamp)
    ensures Load(env, c, s)
         == if k == 0 then Ok(Indexed(bs))
            else if k == |bs| - 1 then Ok(Indexed(bs[..1]))
            else Err(BlockHeightMismatch(1, k + 1))
  {
    LoadMirrored(env, c, s, RemoveRun(Indexed(bs), k), validator, timestamp);
    OutcomeByCount(env, bs, k);
  }

  /** What is left of a chain, by how much was removed. */
  lemma {:induction false} OutcomeByCount(env: Env, bs: seq<Block>, k: nat)
    requires ChainOk(env, bs) && k < |bs|
    ensures var left: seq<Block> := Without(bs, k);
            var outcome: Result<Ledger> := if Contiguous(left) then Ok(Indexed(left))
                                           else Err(BlockHeightMismatch(1, left[1].header.height));
            outcome == if k == 0 then Ok(Indexed(bs))
                       else if k == |bs| - 1 then Ok(Indexed(bs[..1]))
                       else Err(BlockHeightMismatch(1, k + 1))
  {
    WithoutShape(env, bs, k);
  }

  lemma {:induction false} WithoutShape(env: Env, bs: seq<Block>, k: nat)
    requires ChainOk(env, bs) && k < |bs|
    ensures k == 0 ==> Without(bs, k) == bs && Contiguous(Without(bs, k))
    ensures k == |bs| - 1 ==> Without(bs, k) == bs[..1]
    ensures 0 < k < |bs| - 1 ==> !Contiguous(Without(bs, k)) && Without(bs, k)[1].header.height == k + 1
  {
    if 0 < k < |bs| - 1 {
      HeightIsPosition(env, bs, k + 1);
    } else {
      ChainIsContiguous(env, bs);
    }
  }

  // ---------------------------------------------------------------- whole runs

  lemma {:induction false} RunKeepsGenesis(env: Env, s: Ledger, ops: seq<Op>)
    requires s.blocks != []
    ensures Run(env, s, ops).blocks[0] == s.blocks[0]
  {
    if ops != [] {
      var before := Run(env, s, ops[..|ops| - 1]);
      RunKeepsGenesis(env, s, ops[..|ops| - 1]);
      match ops[|ops| - 1]
      case Add(b) => ExtendExact(env, before, b);
      case Prune(_) =>
    }
  }

  /** The store after storing a chain and driving both through a run. */
  function Driven(env: Env, c: Codec, chain: Ledger, ops: seq<Op>, now: U64): StoreState
    requires |chain.blocks| == chain.height + 1
  {
    StoreRun(env, c, StoreChain(c, FreshStore(now), chain), chain, ops)
  }

  lemma {:induction false} DrivenMirrors(env: Env, c: Codec, validators: seq<PublicKey>, timestamp: U64, chain: Ledger,
                                         ops: seq<Op>, now: U64)
    requires Lawful(c) && validators != [] && Grown(env, validators, timestamp, chain)
    ensures chain.blocks != [] && |chain.blocks| == chain.height + 1
    ensures RunInvariant(env, Run(env, chain, ops))
    ensures Mirrors(c, Driven(env, c, chain, ops, now), Run(env, chain, ops))
    ensures Run(env, chain, ops).blocks[0] == GenesisBlock(env, validators, timestamp)
  {
    GrownChain(env, validators, timestamp, chain);
    StoreChainMirrors(env, c, chain.blocks, now);
    IndexedInvariant(env, chain.blocks);
    RunsKeepInvariant(env, chain, ops);
    MirrorRuns(env, c, StoreChain(c, FreshStore(now), chain), chain, ops);
    RunKeepsGenesis(env, chain, ops);
  }

  /** The outcome of loading after every run from one validator. */
  lemma {:induction false} ReloadValue(env: Env, c: Codec, validator: PublicKey, timestamp: U64, chain: Ledger,
                                       ops: seq<Op>, now: U64)
    requires Lawful(c) && Grown(env, [validator], timestamp, chain)
    ensures chain.blocks != [] && |chain.blocks| == chain.height + 1
    ensures var s, last := Driven(env, c, chain, ops, now), Run(env, chain, ops);
            Load(env, c, s)
            == if NothingSaved(s) then Err(InvalidInput("No blockchain data in storage"))
               else if Contiguous(last.blocks) then Ok(Indexed(last.blocks))
               else Err(BlockHeightMismatch(1, last.blocks[1].header.height))
  {
    DrivenMirrors(env, c, [validator], timestamp, chain, ops, now);
    LoadMirrored(env, c, Driven(env, c, chain, ops, now), Run(env, chain, ops), validator, timestamp);
  }

  /** Loading gives back the chain itself, height and indexes included, exactly if there is no gap. */
  lemma {:induction false} ChainComesBack(env: Env, chain: Ledger)
    requires RunInvariant(env, chain) && HashIndexExact(chain)
    ensures Contiguous(chain.blocks) && Indexed(chain.blocks) == chain <==> NoGap(chain)
  {
    GapShape(env, chain);
  }

  ghost predicate ReloadGives(env: Env, c: Codec, s: StoreState, chain: Ledger, validators: seq<PublicKey>) {
    Load(env, c, s) == Ok(chain) <==> |validators| == 1 && NoGap(chain) && !NothingSaved(s)
  }

  lemma {:induction false} ReloadState(env: Env, c: Codec, s: StoreState, chain: Ledger, validators: seq<PublicKey>,
                                       timestamp: U64)
    requires Lawful(c) && RunInvariant(env, chain) && Mirrors(c, s, chain) && HashIndexExact(chain)
    requires 1 <= |validators| < 0x1_0000_0000 && chain.blocks[0] == GenesisBlock(env, validators, timestamp)
    ensures ReloadGives(env, c, s, chain, validators) || HasCollision(env.hash, GenesisInputs(env, chain.blocks))
  {
    ChainComesBack(env, chain);
    if |validators| == 1 {
      assert validators == [validators[0]];
      LoadMirrored(env, c, s, chain, validators[0], timestamp);
    } else {
      LoadOfOthers(env, c, s, chain, validators, timestamp);
    }
  }

  /** Reload after every run of adds and prunes, exactly: from every genesis configuration, once a grown chain was
      stored and chain and store were driven on, the load gives the chain back if and only if the configuration
      had one validator, there is no gap, and the store does not look empty; or the two genesis headers, or two
      header encodings of the run, collide. */
  lemma {:induction false} ReloadExact(env: Env, c: Codec, validators: seq<PublicKey>, timestamp: U64, chain: Ledger,
                                       ops: seq<Op>, now: U64)
    requires Lawful(c) && 1 <= |validators| < 0x1_0000_0000 && Grown(env, validators, timestamp, chain)
    ensures chain.blocks != [] && |chain.blocks| == chain.height + 1
    ensures || ReloadGives(env, c, Driven(env, c, chain, ops, now), Run(env, chain, ops), validators)
            || HasCollision(env.hash, GenesisInputs(env, chain.blocks))
            || HasCollision(env.hash, RunInputs(chain, ops))
  {
    DrivenMirrors(env, c, validators, timestamp, chain, ops, now);
    if !HasCollision(env.hash, RunInputs(chain, ops)) {
      GrownChain(env, validators, timestamp, chain);
      IndexedInvariant(env, chain.blocks);
      RunsKeepHashKeys(env, chain, ops);
      ReloadState(env, c, Driven(env, c, chain, ops, now), Run(env, chain, ops), validators, timestamp);
      RunKeepsGenesis(env, chain, ops);
    }
  }

  /** The store round trip, exactly, for every chain grown from a genesis configuration and every fresh store:
      barring a collision of the two genesis headers, the load gives the chain back if and only if the
      configuration had one validator (and the lone genesis block does not hash to zero). */
  lemma {:induction false} RoundTripExact(env: Env, c: Codec, validators: seq<PublicKey>, timestamp: U64,
                                          chain: Ledger, now: U64)
    requires Lawful(c) && 1 <= |validators| < 0x1_0000_0000 && Grown(env, validators, timestamp, chain)
    ensures chain.blocks != [] && |chain.blocks| == chain.height + 1
    ensures || (Load(env, c, StoreChain(c, FreshStore(now), chain)) == Ok(chain)
                <==> |validators| == 1 && !LooksEmpty(chain.blocks))
            || HasCollision(env.hash, GenesisInputs(env, chain.blocks))
  {
    GrownChain(env, validators, timestamp, chain);
    StoreChainMirrors(env, c, chain.blocks, now);
    LoadExact(env, c, StoreChain(c, FreshStore(now), chain), chain.blocks, validators, timestamp);
  }

  lemma {:induction false} LoadExact(env: Env, c: Codec, s: StoreState, bs: seq<Block>, validators: seq<PublicKey>,
                                     timestamp: U64)
    requires Lawful(c) && ChainOk(env, bs) && DisjointIds(bs) && IsStored(c, s, bs)
    requires 1 <= |validators| < 0x1_0000_0000 && bs[0] == GenesisBlock(env, validators, timestamp)
    ensures || (Load(env, c, s) == Ok(Indexed(bs)) <==> |validators| == 1 && !LooksEmpty(bs))
            || HasCollision(env.hash, GenesisInputs(env, bs))
  {
    StoredChain(env, c, s, bs);
    HeightIsPosition(env, bs, |bs| - 1);
    ReloadState(env, c, s, Indexed(bs), validators, timestamp);
  }

  /** A load that fails is reachable from every one-validator genesis, and a further prune that removes nothing does
      not mend it: the chain of two more blocks is stored, the first of the two is pruned, and the load stops at
      the second. */
  lemma {:induction false} BrokenLoadReached(env: Env, c: Codec, validator: PublicKey, timestamp: U64, now: U64)
    requires Lawful(c) && timestamp + 1 < 0x1_0000_0000_0000_0000
    ensures var chain, cut := WithTwo(env, [validator], timestamp, []), Prune(timestamp + 1);
            && |chain.blocks| == chain.height + 1 && Grown(env, [validator], timestamp, chain)
            && PruneCount(chain, timestamp + 1) == 1 && PruneCount(Pruned(chain, timestamp + 1), timestamp + 1) == 0
            && Load(env, c, Driven(env, c, chain, [cut], now)) == Err(BlockHeightMismatch(1, 2))
            && Load(env, c, Driven(env, c, chain, [cut, cut], now)) == Err(BlockHeightMismatch(1, 2))
  {
    var chain, cut := WithTwo(env, [validator], timestamp, []), Prune(timestamp + 1);
    PrunedTwice(env, [validator], timestamp);
    BrokenLoad(env, c, validator, timestamp, [cut], now);
    BrokenLoad(env, c, validator, timestamp, [cut, cut], now);
  }

  lemma {:induction false} BrokenLoad(env: Env, c: Codec, validator: PublicKey, timestamp: U64, ops: seq<Op>, now: U64)
    requires Lawful(c) && timestamp + 1 < 0x1_0000_0000_0000_0000
    requires Run(env, WithTwo(env, [validator], timestamp, []), ops).blocks
          == [GenesisBlock(env, [validator], timestamp), Second(env, [validator], timestamp, [])]
    ensures var chain := WithTwo(env, [validator], timestamp, []);
            && |chain.blocks| == chain.height + 1 && Grown(env, [validator], timestamp, chain)
            && Load(env, c, Driven(env, c, chain, ops, now)) == Err(BlockHeightMismatch(1, 2))
  {
    var chain := WithTwo(env, [validator], timestamp, []);
    WithTwoGrown(env, [validator], timestamp, []);
    ReloadValue(env, c, validator, timestamp, chain, ops, now);
    SecondAccepted(env, [validator], timestamp, []);
    StoredRecords(env, c, [validator], timestamp, chain, now);
    StillSaved(env, c, chain, ops, now);
  }

  lemma {:induction false} PrunedTwice(env: Env, validators: seq<PublicKey>, timestamp: U64)
    requires validators != [] && timestamp + 1 < 0x1_0000_0000_0000_0000
    ensures var chain, cut := WithTwo(env, validators, timestamp, []), Prune(timestamp + 1);
            var after := Pruned(chain, timestamp + 1);
            && PruneCount(chain, timestamp + 1) == 1 && PruneCount(after, timestamp + 1) == 0
            && after.blocks == [GenesisBlock(env, validators, timestamp), Second(env, validators, timestamp, [])]
            && Run(env, chain, [cut]) == after && Run(env, chain, [cut, cut]) == after
  {
    var chain, cut := WithTwo(env, validators, timestamp, []), Prune(timestamp + 1);
    WithTwoPruned(env, validators, timestamp, []);
    PrunesCompose(chain, timestamp + 1, timestamp + 1);
    RunAppend(env, chain, [], cut);
    RunTwo(env, chain, cut, cut);
    assert [] + [cut] == [cut];
  }

  /** The recorded height never falls. */
  lemma {:induction false} HeightRecorded(env: Env, c: Codec, s: StoreState, chain: Ledger, ops: seq<Op>)
    requires chain.blocks != []
    ensures StoreRun(env, c, s, chain, ops).metadata.chainHeight >= s.metadata.chainHeight
  {
    if ops != [] {
      HeightRecorded(env, c, s, chain, ops[..|ops| - 1]);
    }
  }

  lemma {:induction false} StillSaved(env: Env, c: Codec, chain: Ledger, ops: seq<Op>, now: U64)
    requires |chain.blocks| == chain.height + 1
    requires StoreChain(c, FreshStore(now), chain).metadata.chainHeight > 0
    ensures !NothingSaved(Driven(env, c, chain, ops, now))
  {
    HeightRecorded(env, c, StoreChain(c, FreshStore(now), chain), chain, ops);
  }

  // ---------------------------------------------------------------- a gap stays

  lemma {:induction false} StepKeepsGap(env: Env, s: Ledger, op: Op)
    requires RunInvariant(env, s) && !Contiguous(s.blocks) && |Step(env, s, op).blocks| != 1
    ensures !Contiguous(Step(env, s, op).blocks)
  {
    match op
    case Add(b) => ExtendExact(env, s, b);
    case Prune(cutoff) =>
      var k := PruneCount(s, cutoff);
      PruneIsContiguous(env, s, cutoff);
      RetainedHeights(env, s.blocks, 1 + k);
  }

  /** No run mends a gap, and so none mends the load, until nothing but genesis is left. */
  lemma {:induction false} GapStays(env: Env, s: Ledger, ops: seq<Op>, n: nat)
    requires s.blocks != [] && RunInvariant(env, s) && !Contiguous(s.blocks) && n <= |ops|
    requires forall k | 0 < k <= n :: |StateAt(env, s, ops, k).blocks| != 1
    ensures !Contiguous(StateAt(env, s, ops, n).blocks)
  {
    if n > 0 {
      GapStays(env, s, ops, n - 1);
      RunsKeepInvariant(env, s, ops[..n - 1]);
      StateStep(env, s, ops, n);
      StepKeepsGap(env, StateAt(env, s, ops, n - 1), ops[n - 1]);
    }
  }

  // ---------------------------------------------------------------- get_latest_block

  lemma {:induction false} AboveLast(env: Env, bs: seq<Block>, h: U64)
    requires Retained(env, bs) && Last(bs).header.height <= h
    ensures AtHeight(bs, h) == if Last(bs).header.height == h then Some(Last(bs)) else None
  {
    if Last(bs).header.height == h {
      AtHeightFinds(env, bs, |bs| - 1);
    } else {
      forall i | 0 <= i < |bs|
        ensures bs[i].header.height != h
      {
        HeightsUpToLast(env, bs, i);
      }
      AtHeightNone(bs, h);
    }
  }

  /** The latest block of a mirroring store: the chain's head if the recorded height is still the head's. */
  lemma {:induction false} LatestMirrored(env: Env, c: Codec, s: StoreState, chain: Ledger)
    requires Lawful(c) && RunInvariant(env, chain) && Mirrors(c, s, chain)
    ensures LatestBlock(c, s)
         == if s.metadata.chainHeight == 0 && s.metadata.latestBlockHash == ZERO then Ok(None)
            else if s.metadata.chainHeight == Last(chain.blocks).header.height then Ok(Some(Last(chain.blocks)))
            else Ok(None)
  {
    MirrorServes(c, s, chain);
    assert Last(chain.blocks) in chain.blocks;
    AboveLast(env, chain.blocks, s.metadata.chainHeight);
  }

  /** The greatest height that a run's states end in. */
  function Highest(env: Env, s: Ledger, ops: seq<Op>): (r: U64)
    requires s.blocks != []
    ensures Last(Run(env, s, ops).blocks).header.height <= r
  {
    var now := Last(Run(env, s, ops).blocks).header.height;
    if ops == [] then now
    else
      var before := Highest(env, s, ops[..|ops| - 1]);
      if before < now then now else before
  }

  lemma {:induction false} HighestGrows(env: Env, s: Ledger, ops: seq<Op>, k: nat)
    requires s.blocks != [] && k <= |ops|
    ensures Highest(env, s, ops[..k]) <= Highest(env, s, ops)
    decreases |ops|
  {
    if k == |ops| {
      assert ops[..k] == ops;
    } else {
      var prefix := ops[..|ops| - 1];
      HighestGrows(env, s, prefix, k);
      assert prefix[..k] == ops[..k];
    }
  }

  /** The store records the greatest height, and a head hash only above genesis. */
  ghost predicate Recorded(s: StoreState, highest: U64) {
    s.metadata.chainHeight == highest && (highest == 0 ==> s.metadata.latestBlockHash == ZERO)
  }

  lemma {:induction false} StepRecords(env: Env, c: Codec, s: StoreState, chain: Ledger, op: Op, highest: U64)
    requires Lawful(c) && RunInvariant(env, chain) && Mirrors(c, s, chain) && Recorded(s, highest)
    requires Last(chain.blocks).header.height <= highest
    ensures var now := Last(Step(env, chain, op).blocks).header.height;
            var s' := match op
                      case Add(b) => if Extend(env, chain, b).Ok? then StoreBlock(c, s, b) else s
                      case Prune(cutoff) =>
                        (match PruneBefore(c, s, cutoff) case Ok(outcome) => outcome.state case Err(_) => s);
            Recorded(s', if highest < now then now else highest)
  {
    match op
    case Add(b) => ExtendExact(env, chain, b);
    case Prune(cutoff) =>
      PrunesAgree(env, c, s, chain, cutoff);
      PruneIsContiguous(env, chain, cutoff);
  }

  lemma {:induction false} RunsRecord(env: Env, c: Codec, s: StoreState, chain: Ledger, ops: seq<Op>)
    requires Lawful(c) && chain.blocks != [] && RunInvariant(env, chain) && Mirrors(c, s, chain)
    requires Recorded(s, Last(chain.blocks).header.height)
    ensures Recorded(StoreRun(env, c, s, chain, ops), Highest(env, chain, ops))
  {
    if ops != [] {
      var prefix := ops[..|ops| - 1];
      RunsRecord(env, c, s, chain, prefix);
      RunsKeepInvariant(env, chain, prefix);
      MirrorRuns(env, c, s, chain, prefix);
      StepRecords(env, c, StoreRun(env, c, s, chain, prefix), Run(env, chain, prefix), ops[|ops| - 1],
                  Highest(env, chain, prefix));
    }
  }

  /** The latest block of a stored chain is reported exactly when there is a block above genesis. */
  lemma {:induction false} LatestNeedsHeight(env: Env, c: Codec, s: StoreState, bs: seq<Block>)
    requires Lawful(c) && ChainOk(env, bs) && DisjointIds(bs) && IsStored(c, s, bs)
    ensures LatestBlock(c, s) == (if |bs| > 1 then Ok(Some(Last(bs))) else Ok(None))
  {
    StoredChain(env, c, s, bs);
    HeightIsPosition(env, bs, |bs| - 1);
    LatestMirrored(env, c, s, Indexed(bs));
  }

  /** Over every run: the latest block is the chain's head exactly if the head is above genesis and as high as the
      chain ever was, and otherwise none is reported. */
  lemma {:induction false} LatestExact(env: Env, c: Codec, validators: seq<PublicKey>, timestamp: U64, chain: Ledger,
                                       ops: seq<Op>, now: U64)
    requires Lawful(c) && validators != [] && Grown(env, validators, timestamp, chain)
    ensures chain.blocks != [] && |chain.blocks| == chain.height + 1
    ensures var s, head := Driven(env, c, chain, ops, now), Last(Run(env, chain, ops).blocks);
            && s.metadata.chainHeight == Highest(env, chain, ops)
            && LatestBlock(c, s)
               == if 0 < head.header.height == Highest(env, chain, ops) then Ok(Some(head)) else Ok(None)
  {
    DrivenMirrors(env, c, validators, timestamp, chain, ops, now);
    StoredRecords(env, c, validators, timestamp, chain, now);
    RunsRecord(env, c, StoreChain(c, FreshStore(now), chain), chain, ops);
    LatestMirrored(env, c, Driven(env, c, chain, ops, now), Run(env, chain, ops));
  }

  lemma {:induction false} StoredRecords(env: Env, c: Codec, validators: seq<PublicKey>, timestamp: U64,
                                         chain: Ledger, now: U64)
    requires validators != [] && Grown(env, validators, timestamp, chain)
    ensures chain.blocks != [] && |chain.blocks| == chain.height + 1 && RunInvariant(env, chain)
    ensures var s := StoreChain(c, FreshStore(now), chain);
            Mirrors(c, s, chain) && Recorded(s, Last(chain.blocks).header.height)
  {
    GrownChain(env, validators, timestamp, chain);
    IndexedInvariant(env, chain.blocks);
    StoreChainMirrors(env, c, chain.blocks, now);
    HeightIsPosition(env, chain.blocks, |chain.blocks| - 1);
  }

  /** A missing latest block is reachable from every genesis configuration: two blocks, a full prune, and the first
      of them again; the chain's head is at height 1 and the store still records 2. */
  lemma {:induction false} StaleLatestReached(env: Env, c: Codec, validators: seq<PublicKey>, timestamp: U64, now: U64)
    requires Lawful(c) && validators != [] && timestamp + 2 < 0x1_0000_0000_0000_0000
    ensures var chain, b := WithTwo(env, validators, timestamp, []), FirstEmpty(env, validators, timestamp);
            var ops := [Prune(timestamp + 2), Add(b)];
            && |chain.blocks| == chain.height + 1 && Grown(env, validators, timestamp, chain)
            && Last(Run(env, chain, ops).blocks) == b
            && LatestBlock(c, Driven(env, c, chain, ops, now)) == Ok(None)
  {
    var chain, b := WithTwo(env, validators, timestamp, []), FirstEmpty(env, validators, timestamp);
    var ops := [Prune(timestamp + 2), Add(b)];
    WithTwoGrown(env, validators, timestamp, []);
    LatestExact(env, c, validators, timestamp, chain, ops, now);
    Regrown(env, validators, timestamp);
    HighestGrows(env, chain, ops, 0);
    SecondAccepted(env, validators, timestamp, []);
    assert ops[..0] == [];
  }

  /** After a full prune the first block is accepted again. */
  lemma {:induction false} Regrown(env: Env, validators: seq<PublicKey>, timestamp: U64)
    requires validators != [] && timestamp + 2 < 0x1_0000_0000_0000_0000
    ensures var chain, b := WithTwo(env, validators, timestamp, []), FirstEmpty(env, validators, timestamp);
            Last(Run(env, chain, [Prune(timestamp + 2), Add(b)]).blocks) == b && b.header.height == 1
  {
    var chain, b := WithTwo(env, validators, timestamp, []), FirstEmpty(env, validators, timestamp);
    var b' := Second(env, validators, timestamp, []);
    var pruned := Pruned(chain, timestamp + 2);
    FirstAccepted(env, validators, timestamp);
    SecondAccepted(env, validators, timestamp, []);
    WithTwoBlocks(env, validators, timestamp, []);
    assert chain.blocks[1..] == [b, b'];
    PruneSplits([b, b'], timestamp + 2, 2);
    RunTwo(env, chain, Prune(timestamp + 2), Add(b));
    ExtendExact(env, NewLedger(env, validators, timestamp), b);
    ExtendExact(env, pruned, b);
  }
}
