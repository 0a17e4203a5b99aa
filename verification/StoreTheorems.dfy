/** The store mirrors the chain: step by step over every run of adds and prunes, in bulk, and through a
    reload, with the exact conditions under which a reload gives the chain back. */
module StoreTheorems {
  import opened Encoding
  import opened Blocks
  import opened Ledgers
  import opened LedgerTheorems
  import opened RunTheorems
  import opened StoreStates

  // ---------------------------------------------------------------- key spaces

  /** Within each key space keys are injective. */
  lemma {:induction false} HeightKeyInjective(a: U64, b: U64)
    requires HeightKey(a) == HeightKey(b)
    ensures a == b
  {
    ConcatInjective(HEIGHT_PREFIX, LittleEndian(a, 8), HEIGHT_PREFIX, LittleEndian(b, 8));
    LittleEndian8Injective(a, b);
  }

  lemma {:induction false} HashKeyInjective(a: Hash, b: Hash)
    requires HashKey(a) == HashKey(b)
    ensures a == b
  {
    ConcatInjective(HASH_PREFIX, a, HASH_PREFIX, b);
  }

  lemma {:induction false} TxKeyInjective(a: Hash, b: Hash)
    requires TxKey(a) == TxKey(b)
    ensures a == b
  {
    ConcatInjective(TX_PREFIX, a, TX_PREFIX, b);
  }

  /** The four key spaces have different key lengths, so no key belongs to two of them. */
  lemma {:induction false} KeySpacesDisjoint(h: U64, x: Hash, id: Hash)
    ensures |HeightKey(h)| == 21 && |HashKey(x)| == 43 && |TxKey(id)| == 35 && |METADATA_KEY| == 10
  {
  }

  // ---------------------------------------------------------------- what one stored block changes

  lemma {:induction false} LocationsAt(c: Codec, data: map<Bytes, Bytes>, transactions: seq<Transaction>,
                                       l: TxLocation, id: Hash)
    ensures Entry(PutLocations(c, data, transactions, l), TxKey(id))
         == if exists t :: t in transactions && t.id == id then Some(c.encodeLocation(l)) else Entry(data, TxKey(id))
  {
    if transactions != [] {
      var n := |transactions| - 1;
      LocationsAt(c, data, transactions[..n], l, id);
      assert transactions == transactions[..n] + [transactions[n]];
      if TxKey(transactions[n].id) == TxKey(id) {
        TxKeyInjective(transactions[n].id, id);
      }
    }
  }

  lemma {:induction false} LocationsElsewhere(c: Codec, data: map<Bytes, Bytes>, transactions: seq<Transaction>,
                                              l: TxLocation, key: Bytes)
    requires |key| != 35
    ensures Entry(PutLocations(c, data, transactions, l), key) == Entry(data, key)
  {
    if transactions != [] {
      var n := |transactions| - 1;
      LocationsElsewhere(c, data, transactions[..n], l, key);
      assert |TxKey(transactions[n].id)| == 35;
    }
  }

  lemma {:induction false} StoredHeightEntry(c: Codec, s: StoreState, b: Block, h: U64)
    ensures Entry(StoreBlock(c, s, b).data, HeightKey(h))
         == if h == b.header.height then Some(c.encodeBlock(b)) else Entry(s.data, HeightKey(h))
  {
    var data := s.data[HeightKey(b.header.height) := c.encodeBlock(b)][HashKey(b.header.hash) := c.encodeBlock(b)];
    KeySpacesDisjoint(h, b.header.hash, b.header.hash);
    LocationsElsewhere(c, data, b.transactions, TxLocation(b.header.height, b.header.hash), HeightKey(h));
    if HeightKey(h) == HeightKey(b.header.height) {
      HeightKeyInjective(h, b.header.height);
    }
  }

  lemma {:induction false} StoredHashEntry(c: Codec, s: StoreState, b: Block, x: Hash)
    ensures Entry(StoreBlock(c, s, b).data, HashKey(x))
         == if x == b.header.hash then Some(c.encodeBlock(b)) else Entry(s.data, HashKey(x))
  {
    var data := s.data[HeightKey(b.header.height) := c.encodeBlock(b)][HashKey(b.header.hash) := c.encodeBlock(b)];
    KeySpacesDisjoint(b.header.height, x, x);
    LocationsElsewhere(c, data, b.transactions, TxLocation(b.header.height, b.header.hash), HashKey(x));
    if HashKey(x) == HashKey(b.header.hash) {
      HashKeyInjective(x, b.header.hash);
    }
  }

  lemma {:induction false} StoredTxEntry(c: Codec, s: StoreState, b: Block, id: Hash)
    ensures Entry(StoreBlock(c, s, b).data, TxKey(id))
         == if id in IdSet(b) then Some(c.encodeLocation(TxLocation(b.header.height, b.header.hash)))
            else Entry(s.data, TxKey(id))
  {
    var data := s.data[HeightKey(b.header.height) := c.encodeBlock(b)][HashKey(b.header.hash) := c.encodeBlock(b)];
    KeySpacesDisjoint(b.header.height, b.header.hash, id);
    LocationsAt(c, data, b.transactions, TxLocation(b.header.height, b.header.hash), id);
  }

  // ---------------------------------------------------------------- the mirror relation

  function BlockEntry(c: Codec, o: Option<Block>): Option<Bytes> {
    match o
    case None => None
    case Some(b) => Some(c.encodeBlock(b))
  }

  function LocationEntry(c: Codec, o: Option<Block>): Option<Bytes> {
    match o
    case None => None
    case Some(b) => Some(c.encodeLocation(TxLocation(b.header.height, b.header.hash)))
  }

  /** The block a hash is indexed under. */
  function Hashed(s: Ledger, x: Hash): Option<Block> {
    if x in s.hashToHeight then AtHeight(s.blocks, s.hashToHeight[x]) else None
  }

  /** The block a transaction id is indexed under. */
  function Holder(s: Ledger, id: Hash): Option<Block> {
    if id in s.txToBlock then AtHeight(s.blocks, s.txToBlock[id]) else None
  }

  /** Under each key space the store holds exactly what the ledger retains, and the recorded height covers
      every retained block. */
  ghost predicate Mirrors(c: Codec, s: StoreState, chain: Ledger) {
    && (forall h: U64 :: Entry(s.data, HeightKey(h)) == BlockEntry(c, AtHeight(chain.blocks, h)))
    && (forall x: Hash :: Entry(s.data, HashKey(x)) == BlockEntry(c, Hashed(chain, x)))
    && (forall id: Hash :: Entry(s.data, TxKey(id)) == LocationEntry(c, Holder(chain, id)))
    && (forall b | b in chain.blocks :: b.header.height <= s.metadata.chainHeight)
  }

  /** Indexed heights belong to listed blocks. */
  ghost predicate PointsInside(chain: Ledger) {
    && (forall x | x in chain.hashToHeight :: AtHeight(chain.blocks, chain.hashToHeight[x]).Some?)
    && (forall id | id in chain.txToBlock :: AtHeight(chain.blocks, chain.txToBlock[id]).Some?)
  }

  lemma {:induction false} AtHeightAppend(bs: seq<Block>, b: Block, h: U64)
    ensures AtHeight(bs + [b], h)
         == if AtHeight(bs, h).Some? then AtHeight(bs, h) else if b.header.height == h then Some(b) else None
  {
    if bs != [] {
      AtHeightAppend(bs[1..], b, h);
      assert (bs + [b])[1..] == bs[1..] + [b];
    } else {
      assert (bs + [b])[1..] == [];
    }
  }

  /** Storing a block of a new height next to appending it keeps the mirror. */
  lemma {:induction false} MirrorAppend(c: Codec, s: StoreState, chain: Ledger, b: Block)
    requires Mirrors(c, s, chain) && PointsInside(chain) && AtHeight(chain.blocks, b.header.height).None?
    ensures Mirrors(c, StoreBlock(c, s, b), Append(chain, b))
  {
    var s', chain' := StoreBlock(c, s, b), Append(chain, b);
    forall h: U64
      ensures Entry(s'.data, HeightKey(h)) == BlockEntry(c, AtHeight(chain'.blocks, h))
    {
      StoredHeightEntry(c, s, b, h);
      AtHeightAppend(chain.blocks, b, h);
    }
    forall x: Hash
      ensures Entry(s'.data, HashKey(x)) == BlockEntry(c, Hashed(chain', x))
    {
      MirrorAppendHash(c, s, chain, b, x);
    }
    forall id: Hash
      ensures Entry(s'.data, TxKey(id)) == LocationEntry(c, Holder(chain', id))
    {
      MirrorAppendTx(c, s, chain, b, id);
    }
  }

  lemma {:induction false} MirrorAppendHash(c: Codec, s: StoreState, chain: Ledger, b: Block, x: Hash)
    requires PointsInside(chain) && AtHeight(chain.blocks, b.header.height).None?
    requires Entry(s.data, HashKey(x)) == BlockEntry(c, Hashed(chain, x))
    ensures Entry(StoreBlock(c, s, b).data, HashKey(x)) == BlockEntry(c, Hashed(Append(chain, b), x))
  {
    StoredHashEntry(c, s, b, x);
    AtHeightAppend(chain.blocks, b, b.header.height);
    if x in chain.hashToHeight {
      AtHeightAppend(chain.blocks, b, chain.hashToHeight[x]);
    }
  }

  lemma {:induction false} MirrorAppendTx(c: Codec, s: StoreState, chain: Ledger, b: Block, id: Hash)
    requires PointsInside(chain) && AtHeight(chain.blocks, b.header.height).None?
    requires Entry(s.data, TxKey(id)) == LocationEntry(c, Holder(chain, id))
    ensures Entry(StoreBlock(c, s, b).data, TxKey(id)) == LocationEntry(c, Holder(Append(chain, b), id))
  {
    StoredTxEntry(c, s, b, id);
    AtHeightAppend(chain.blocks, b, b.header.height);
    if id in chain.txToBlock {
      AtHeightAppend(chain.blocks, b, chain.txToBlock[id]);
    }
  }

  lemma {:induction false} InvariantPointsInside(env: Env, chain: Ledger)
    requires RunInvariant(env, chain)
    ensures PointsInside(chain)
  {
    forall x | x in chain.hashToHeight
      ensures AtHeight(chain.blocks, chain.hashToHeight[x]).Some?
    {
      var i := IndexedAt(chain, x);
      AtHeightFinds(env, chain.blocks, i);
    }
    forall id | id in chain.txToBlock
      ensures AtHeight(chain.blocks, chain.txToBlock[id]).Some?
    {
      var i := TxIndexWitness(chain.blocks, id);
      AtHeightFinds(env, chain.blocks, i);
    }
  }

  /** A block that links to the last one has a height no retained block has. */
  lemma {:induction false} NextHeightIsNew(env: Env, chain: Ledger, b: Block)
    requires Retained(env, chain.blocks) && Linked(Last(chain.blocks), b)
    ensures AtHeight(chain.blocks, b.header.height).None?
  {
    var n := |chain.blocks| - 1;
    forall i | 0 <= i <= n
      ensures chain.blocks[i].header.height != b.header.height
    {
      if n > 0 { RetainedHeights(env, chain.blocks, n); }
      if i > 0 { RetainedHeights(env, chain.blocks, i); }
    }
    AtHeightNone(chain.blocks, b.header.height);
  }

  /** An accepted block, stored: the mirror holds again. */
  lemma {:induction false} MirrorAdd(env: Env, c: Codec, s: StoreState, chain: Ledger, b: Block)
    requires RunInvariant(env, chain) && Mirrors(c, s, chain) && Extend(env, chain, b).Ok?
    ensures Mirrors(c, StoreBlock(c, s, b), Extend(env, chain, b).value)
  {
    ExtendExact(env, chain, b);
    InvariantPointsInside(env, chain);
    NextHeightIsNew(env, chain, b);
    MirrorAppend(c, s, chain, b);
  }
}
