/** What a chain that forgets can accept again: when a transaction id, and when a height, may come twice in a run. */
module ReuseTheorems {
  import opened Encoding
  import opened Blocks
  import opened Ledgers
  import opened LedgerTheorems
  import opened RunTheorems
  import opened GapTheorems

  /** The state after `i` operations. */
  function StateAt(env: Env, s: Ledger, ops: seq<Op>, i: nat): (r: Ledger)
    requires s.blocks != [] && i <= |ops|
    ensures r.blocks != []
  {
    Run(env, s, ops[..i])
  }

  /** The `i`-th operation of the run adds a block, and it is accepted. */
  ghost predicate AcceptedAt(env: Env, s: Ledger, ops: seq<Op>, i: nat)
    requires s.blocks != []
  {
    i < |ops| && ops[i].Add? && Extend(env, StateAt(env, s, ops, i), ops[i].block).Ok?
  }

  lemma {:induction false} StateStep(env: Env, s: Ledger, ops: seq<Op>, n: nat)
    requires s.blocks != [] && 0 < n <= |ops|
    ensures StateAt(env, s, ops, n) == Step(env, StateAt(env, s, ops, n - 1), ops[n - 1])
  {
    assert ops[..n] == ops[..n - 1] + [ops[n - 1]];
    RunAppend(env, s, ops[..n - 1], ops[n - 1]);
  }

  lemma {:induction false} RunConcat(env: Env, s: Ledger, a: seq<Op>, b: seq<Op>)
    requires s.blocks != []
    ensures Run(env, s, a + b) == Run(env, Run(env, s, a), b)
    decreases |b|
  {
    if b == [] {
      assert a + b == a;
    } else {
      var n := |b| - 1;
      RunConcat(env, s, a, b[..n]);
      ConcatLast(a, b);
      RunAppend(env, s, a + b[..n], b[n]);
    }
  }

  lemma {:induction false} GoesOn(env: Env, s: Ledger, ops: seq<Op>, i: nat, j: nat)
    requires s.blocks != [] && i < j <= |ops|
    ensures StateAt(env, s, ops, j) == Run(env, StateAt(env, s, ops, i + 1), ops[i + 1..j])
  {
    assert ops[..j] == ops[..i + 1] + ops[i + 1..j];
    RunConcat(env, s, ops[..i + 1], ops[i + 1..j]);
  }

  lemma {:induction false} AfterAccepted(env: Env, s: Ledger, ops: seq<Op>, i: nat)
    requires s.blocks != [] && AcceptedAt(env, s, ops, i)
    ensures Last(StateAt(env, s, ops, i + 1).blocks) == ops[i].block
  {
    assert ops[..i + 1] == ops[..i] + [ops[i]];
    RunAppend(env, s, ops[..i], ops[i]);
    ExtendExact(env, StateAt(env, s, ops, i), ops[i].block);
  }

  // ---------------------------------------------------------------- ids

  /** A prune between two positions whose cutoff lies above a timestamp. */
  ghost predicate PrunedBetween(ops: seq<Op>, i: nat, j: nat, timestamp: U64) {
    exists k :: i < k < j && k < |ops| && ops[k].Prune? && timestamp < ops[k].cutoff
  }

  /** One operation keeps a block above genesis unless it is a prune with a later cutoff. */
  lemma {:induction false} StepKeeps(env: Env, s: Ledger, op: Op, b: Block)
    requires s.blocks != [] && b in s.blocks && !(op.Prune? && b.header.timestamp < op.cutoff)
    ensures b in Step(env, s, op).blocks
  {
    match op
    case Add(c) => ExtendExact(env, s, c);
    case Prune(cutoff) =>
      assert s.blocks == [s.blocks[0]] + s.blocks[1..];
      SplitByAge(s.blocks[1..], cutoff);
  }

  /** A block stays until such a prune. */
  lemma {:induction false} StaysUntilPruned(env: Env, s: Ledger, ops: seq<Op>, b: Block)
    requires s.blocks != [] && b in s.blocks
    requires forall op | op in ops :: !(op.Prune? && b.header.timestamp < op.cutoff)
    ensures b in Run(env, s, ops).blocks
  {
    if ops != [] {
      var n := |ops| - 1;
      assert ops[n] in ops && forall op | op in ops[..n] :: op in ops;
      StaysUntilPruned(env, s, ops[..n], b);
      StepKeeps(env, Run(env, s, ops[..n]), ops[n], b);
    }
  }

  lemma {:induction false} AcceptedStays(env: Env, s: Ledger, ops: seq<Op>, i: nat, j: nat)
    requires s.blocks != [] && AcceptedAt(env, s, ops, i) && i < j <= |ops|
    requires !PrunedBetween(ops, i, j, ops[i].block.header.timestamp)
    ensures ops[i].block in StateAt(env, s, ops, j).blocks
  {
    var rest := ops[i + 1..j];
    forall op | op in rest
      ensures !(op.Prune? && ops[i].block.header.timestamp < op.cutoff)
    {
      var k :| 0 <= k < |rest| && rest[k] == op;
      assert ops[i + 1 + k] == op;
    }
    AfterAccepted(env, s, ops, i);
    GoesOn(env, s, ops, i, j);
    StaysUntilPruned(env, StateAt(env, s, ops, i + 1), rest, ops[i].block);
  }

  /** Ids come twice only across a prune: if two blocks accepted in a run share an id, a prune in between had a
      cutoff above the first block's timestamp. */
  lemma {:induction false} IdAgainNeedsPrune(env: Env, s: Ledger, ops: seq<Op>, i: nat, j: nat, id: Hash)
    requires s.blocks != [] && RunInvariant(env, s) && i < j
    requires AcceptedAt(env, s, ops, i) && AcceptedAt(env, s, ops, j)
    requires id in IdSet(ops[i].block) && id in IdSet(ops[j].block)
    ensures PrunedBetween(ops, i, j, ops[i].block.header.timestamp)
  {
    if !PrunedBetween(ops, i, j, ops[i].block.header.timestamp) {
      var before := StateAt(env, s, ops, j);
      AcceptedStays(env, s, ops, i, j);
      RunsKeepInvariant(env, s, ops[..j]);
      RetainedRefused(env, before, ops[i].block, ops[j].block, id);
    }
  }

  /** An id of a retained block is refused. */
  lemma {:induction false} RetainedRefused(env: Env, s: Ledger, b: Block, b': Block, id: Hash)
    requires RunInvariant(env, s) && b in s.blocks && id in IdSet(b) && id in IdSet(b')
    ensures Extend(env, s, b').Err?
  {
    TxIndexKeys(s.blocks);
    ExtendExact(env, s, b');
    assert id in AllIds(s.blocks);
  }

  /** In a run state a valid transaction can be added next if and only if no retained block has its id, whether or
      not it was in the chain before; `contains_transaction` tells. */
  lemma {:induction false} CanBeAdded(env: Env, s: Ledger, t: Transaction, validator: PublicKey)
    requires RunInvariant(env, s) && ValidateTransaction(env, t).Ok?
    requires Last(s.blocks).header.height + 1 < 0x1_0000_0000_0000_0000
    ensures (exists b: Block :: t in b.transactions && Extend(env, s, b).Ok?) <==> t.id !in AllIds(s.blocks)
    ensures t.id in s.txToBlock <==> t.id in AllIds(s.blocks)
  {
    TxIndexKeys(s.blocks);
    if t.id in AllIds(s.blocks) {
      forall b: Block | t in b.transactions
        ensures Extend(env, s, b).Err?
      {
        ExtendExact(env, s, b);
        assert t.id in IdSet(b);
      }
    } else {
      var last := Last(s.blocks);
      NextAccepted(env, s, [t], validator, last.header.timestamp);
      var b := NextBlock(env, last, [t], validator, last.header.timestamp);
      assert b.transactions[0] == t;
    }
  }

  // ---------------------------------------------------------------- heights

  ghost predicate OnlyGenesisBetween(env: Env, s: Ledger, ops: seq<Op>, i: nat, j: nat)
    requires s.blocks != []
  {
    exists k :: i < k <= j && k <= |ops| && |StateAt(env, s, ops, k).blocks| == 1
  }

  /** A prune that leaves a block above genesis leaves the last one. */
  lemma {:induction false} PruneKeepsLast(env: Env, s: Ledger, cutoff: U64)
    requires RunInvariant(env, s)
    ensures var after := Pruned(s, cutoff).blocks; |after| == 1 || Last(after) == Last(s.blocks)
  {
    PruneIsContiguous(env, s, cutoff);
  }

  lemma {:induction false} LastNeverFalls(env: Env, s: Ledger, op: Op)
    requires RunInvariant(env, s) && |Step(env, s, op).blocks| > 1
    ensures Last(Step(env, s, op).blocks).header.height >= Last(s.blocks).header.height
  {
    match op
    case Add(b) => ExtendExact(env, s, b);
    case Prune(cutoff) => PruneKeepsLast(env, s, cutoff);
  }

  /** The last block after `i` operations. */
  function LastAt(env: Env, s: Ledger, ops: seq<Op>, i: nat): Block
    requires s.blocks != [] && i <= |ops|
  {
    Last(StateAt(env, s, ops, i).blocks)
  }

  lemma {:induction false} LastStep(env: Env, s: Ledger, ops: seq<Op>, i: nat)
    requires s.blocks != [] && RunInvariant(env, s) && i < |ops| && |StateAt(env, s, ops, i + 1).blocks| != 1
    ensures LastAt(env, s, ops, i + 1).header.height >= LastAt(env, s, ops, i).header.height
  {
    assert ops[..i + 1] == ops[..i] + [ops[i]];
    RunAppend(env, s, ops[..i], ops[i]);
    RunsKeepInvariant(env, s, ops[..i]);
    LastNeverFalls(env, StateAt(env, s, ops, i), ops[i]);
  }

  /** While blocks above genesis are left, the last height does not fall. */
  lemma {:induction false} LastStaysAbove(env: Env, s: Ledger, ops: seq<Op>, i: nat, j: nat)
    requires s.blocks != [] && RunInvariant(env, s) && i < j <= |ops| && !OnlyGenesisBetween(env, s, ops, i, j)
    ensures LastAt(env, s, ops, j).header.height >= LastAt(env, s, ops, i + 1).header.height
  {
    if i + 1 < j {
      EarlierNotAlone(env, s, ops, i, j);
      LastStaysAbove(env, s, ops, i, j - 1);
      LastStep(env, s, ops, j - 1);
    }
  }

  lemma {:induction false} EarlierNotAlone(env: Env, s: Ledger, ops: seq<Op>, i: nat, j: nat)
    requires s.blocks != [] && i < j <= |ops| && !OnlyGenesisBetween(env, s, ops, i, j)
    ensures |StateAt(env, s, ops, j).blocks| != 1 && !OnlyGenesisBetween(env, s, ops, i, j - 1)
  {
  }

  /** Heights come again only after a full prune: between two accepted blocks of a run of which the later is not
      higher, there is a state with nothing but genesis. */
  lemma {:induction false} HeightAgainNeedsReset(env: Env, s: Ledger, ops: seq<Op>, i: nat, j: nat)
    requires s.blocks != [] && RunInvariant(env, s) && i < j
    requires AcceptedAt(env, s, ops, i) && AcceptedAt(env, s, ops, j)
    requires ops[j].block.header.height <= ops[i].block.header.height
    ensures OnlyGenesisBetween(env, s, ops, i, j)
  {
    if !OnlyGenesisBetween(env, s, ops, i, j) {
      AfterAccepted(env, s, ops, i);
      LastStaysAbove(env, s, ops, i, j);
      ExtendExact(env, StateAt(env, s, ops, j), ops[j].block);
    }
  }

  /** Adds alone, one by one, end in a block of height `h`. */
  ghost predicate ReachedByAdds(env: Env, s: Ledger, h: U64)
    requires s.blocks != []
  {
    exists bs :: bs != [] && Replay(env, s, bs).Ok? && Last(bs).header.height == h
  }

  /** Adds alone raise the last height by one each. */
  lemma {:induction false} AddsClimb(env: Env, s: Ledger, bs: seq<Block>)
    requires s.blocks != [] && bs != [] && Replay(env, s, bs).Ok?
    ensures Last(bs).header.height == Last(s.blocks).header.height + |bs|
    decreases |bs|
  {
    FirstOfAdds(env, s, bs);
    if |bs| > 1 {
      AddsClimb(env, Append(s, bs[0]), bs[1..]);
    }
  }

  lemma {:induction false} FirstOfAdds(env: Env, s: Ledger, bs: seq<Block>)
    requires s.blocks != [] && bs != [] && Replay(env, s, bs).Ok?
    ensures bs[0].header.height == Last(s.blocks).header.height + 1 && Replay(env, Append(s, bs[0]), bs[1..]).Ok?
  {
    ExtendExact(env, s, bs[0]);
  }

  /** From every state empty blocks lead to every greater height. */
  lemma {:induction false} EmptyBlocksClimb(env: Env, s: Ledger, validator: PublicKey, h: U64) returns (bs: seq<Block>)
    requires s.blocks != [] && Last(s.blocks).header.height < h
    ensures bs != [] && Replay(env, s, bs).Ok? && Last(bs).header.height == h
    decreases h - Last(s.blocks).header.height
  {
    var last := Last(s.blocks);
    NextAccepted(env, s, [], validator, last.header.timestamp);
    var b := NextBlock(env, last, [], validator, last.header.timestamp);
    var rest := [];
    if b.header.height < h {
      rest := EmptyBlocksClimb(env, Append(s, b), validator, h);
    }
    bs := [b] + rest;
    ReplayFirst(env, s, b, rest);
  }

  /** Without further prunes a block of height `h` can be accepted if and only if `h` is above the last retained
      block, whatever heights the chain had before. */
  lemma {:induction false} HeightsOpen(env: Env, s: Ledger, validator: PublicKey, h: U64)
    requires s.blocks != []
    ensures ReachedByAdds(env, s, h) <==> Last(s.blocks).header.height < h
  {
    if Last(s.blocks).header.height < h {
      var bs := EmptyBlocksClimb(env, s, validator, h);
    }
    if ReachedByAdds(env, s, h) {
      var bs :| bs != [] && Replay(env, s, bs).Ok? && Last(bs).header.height == h;
      AddsClimb(env, s, bs);
    }
  }

  // ---------------------------------------------------------------- the same block twice

  /** A block on a genesis, stamped like genesis. */
  function First(env: Env, validators: seq<PublicKey>, timestamp: U64, transactions: seq<Transaction>): Block
    requires validators != []
  {
    NextBlock(env, GenesisBlock(env, validators, timestamp), transactions, validators[0], timestamp)
  }

  /** After adding and pruning any block that links to genesis, genesis alone is left and the ids are forgotten. */
  lemma {:induction false} AddThenPrune(env: Env, s: Ledger, b: Block, cutoff: U64)
    requires |s.blocks| == 1 && Extend(env, s, b) == Ok(Append(s, b)) && b.header.timestamp < cutoff
    ensures var r := Run(env, s, [Add(b), Prune(cutoff)]);
            r.blocks == s.blocks && r.txToBlock.Keys == s.txToBlock.Keys
  {
    RunTwo(env, s, Add(b), Prune(cutoff));
    ExtendExact(env, s, b);
    Forgotten(s, b, cutoff);
  }

  lemma {:induction false} Forgotten(s: Ledger, b: Block, cutoff: U64)
    requires |s.blocks| == 1 && b.header.timestamp < cutoff && IdSet(b) !! s.txToBlock.Keys
    ensures var r := Pruned(Append(s, b), cutoff); r.blocks == s.blocks && r.txToBlock.Keys == s.txToBlock.Keys
  {
    var grown := Append(s, b);
    assert grown.blocks[1..] == [b];
    PruneSplits([b], cutoff, 1);
    assert AllIds([b]) == IdSet(b);
  }

  /** The very same block, with any new valid transactions, is accepted twice from every genesis configuration: ids
      and height come again. */
  lemma {:induction false} BlockAcceptedTwice(env: Env, validators: seq<PublicKey>, timestamp: U64,
                                              transactions: seq<Transaction>)
    requires validators != [] && timestamp + 1 < 0x1_0000_0000_0000_0000
    requires NewTo(env, validators, timestamp, transactions)
    ensures var s, b := NewLedger(env, validators, timestamp), First(env, validators, timestamp, transactions);
            var ops := [Add(b), Prune(timestamp + 1), Add(b)];
            b.transactions == transactions && AcceptedAt(env, s, ops, 0) && AcceptedAt(env, s, ops, 2)
  {
    var s, b := NewLedger(env, validators, timestamp), First(env, validators, timestamp, transactions);
    var ops := [Add(b), Prune(timestamp + 1), Add(b)];
    GenesisIds(GenesisBlock(env, validators, timestamp));
    NextAccepted(env, s, transactions, validators[0], timestamp);
    assert ops[..0] == [] && ops[..2] == [Add(b), Prune(timestamp + 1)];
    AddThenPrune(env, s, b, timestamp + 1);
    SameAnswer(env, s, StateAt(env, s, ops, 2), b);
  }

  /** Whether a block is accepted depends on the last block and the indexed ids only. */
  lemma {:induction false} SameAnswer(env: Env, s: Ledger, r: Ledger, b: Block)
    requires s.blocks != [] && r.blocks == s.blocks && r.txToBlock.Keys == s.txToBlock.Keys
    ensures Extend(env, s, b).Ok? <==> Extend(env, r, b).Ok?
  {
    ExtendExact(env, s, b);
    ExtendExact(env, r, b);
  }
}
