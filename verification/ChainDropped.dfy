/** A run that loses an orphan although it could be stored: a lower block with more work became the head. */
module ChainDropped {
  import opened ChainModel
  import opened ChainStore
  import opened ChainRules
  import opened ChainOrphans
  import opened ChainPipe
  import opened ChainStranded

  /** A long chain, and a fork of two blocks the second of which has more work than the chain. */
  datatype LowFork = LowFork(hash: Header -> BlockHash) {
    function Main(i: nat): (h: Header)
      ensures h.height == i && h.version == 1 && h.timestamp == 0 && h.totalDifficulty == 1 + i && h.nonce == 0
    {
      if i == 0 then Plain(0, BlockHash(0), 1, 0) else Plain(i, hash(Main(i - 1)), 1 + i, 0)
    }

    function Fork1(): Header { Plain(1, hash(Main(0)), 1, 1) }
    function Low(): Header { Plain(2, hash(Fork1()), 1000, 1) }

    /** The head is block `i` of the long chain, and of the fork only the first header is known. */
    ghost predicate Grew(v: View, i: nat) {
      && v.head.height == i && v.head.totalDifficulty == 1 + i && v.head.lastBlockH == hash(Main(i))
      && hash(Main(i)) in v.blocks && hash(Main(i)) in v.headers && v.headers[hash(Main(i))] == Main(i)
      && hash(Main(0)) in v.blocks && hash(Main(0)) in v.headers && v.headers[hash(Main(0))] == Main(0)
      && hash(Fork1()) in v.headers && v.headers[hash(Fork1())] == Fork1() && hash(Fork1()) !in v.blocks
    }
  }

  /** A block with more work than the head has not been stored. */
  lemma MoreWorkIsNew(j: Judge, v: View, h: Header)
    requires j.Good(v) && h.height > 0 && h.totalDifficulty > v.head.totalDifficulty
    ensures j.hash(h) !in v.blocks
  {
    assert j.hash(h) in v.blocks ==> BlockStored(v.headers, v.blocks, j.hash(h));
  }

  /** Whatever the hash function, this run ends with a block that could be stored, and is neither stored nor queued. */
  method LowerHead(hash: Header -> BlockHash) returns (c: Chain, lost: Block, ghost was: View)
    requires Injective(hash)
    ensures c.Valid() && c.Judging().Good(was) && c.Judging().Acceptable(was, Offered(lost.header))
    ensures Grown(was, c.Current()) && c.Current().head.totalDifficulty > was.head.totalDifficulty
    ensures c.orphans == [] && hash(lost.header) !in c.store.blocks
  {
    var s := LowFork(hash);
    var store := new ChainKVStore(hash);
    c := new Chain(store, LENIENT, Block(s.Main(0), 0), [hash(s.Main(0))]);
    var _ := c.SyncBlockHeader(s.Fork1(), SKIP_POW);
    for i := 0 to 50
      invariant c.Valid() && c.HeadShared() && c.rules == LENIENT && c.store.hash == hash
      invariant c.orphans == [] && s.Grew(c.Current(), i)
      invariant fresh(c) && fresh(c.store)
    {
      NextMain(c, s, i);
    }
    Gather(c, s);
    lost := Block(s.Main(52), 0);
    was := LastMain(c, s);
  }

  /** The long chain grows by a block. */
  method NextMain(c: Chain, s: LowFork, i: nat)
    requires c.Valid() && c.HeadShared() && c.rules == LENIENT && c.store.hash == s.hash
    requires c.orphans == [] && s.Grew(c.Current(), i) && i < 50
    modifies c, c.store`headers, c.store`blocks, c.store`heightIndex, c.store`head, c.store`headerHead
    ensures c.Valid() && c.HeadShared() && c.orphans == [] && s.Grew(c.Current(), i + 1)
  {
    hide Linked, Keyed, BlocksStored, SoundHead, View.HeadStored, View.MostWork, Judge.Acceptable, Check;
    c.ValidIsGood();
    MoreWorkIsNew(c.Judging(), c.Current(), s.Main(i + 1));
    ghost var v' := c.Current().Headed(s.hash, Block(s.Main(i + 1), 0));
    Offer(c, s.Main(i + 1));
    TurnsUnfold(c.Judging(), v', [], 0);
  }

  /** The head is block 50; blocks of the queue wait for its child and for the first block of the fork, which is stored. */
  ghost predicate Gathered(v: View, queue: seq<Orphaned>, s: LowFork) {
    && v.head.height == 50 && v.head.totalDifficulty == 51
    && s.hash(s.Main(50)) in v.blocks && s.hash(s.Main(50)) in v.headers && v.headers[s.hash(s.Main(50))] == s.Main(50)
    && s.hash(s.Fork1()) in v.headers && v.headers[s.hash(s.Fork1())] == s.Fork1() && s.hash(s.Fork1()) in v.blocks
    && queue == [Offered(s.Main(52)), Offered(s.Low())]
  }

  method Gather(c: Chain, s: LowFork)
    requires c.Valid() && c.HeadShared() && c.rules == LENIENT && c.store.hash == s.hash
    requires c.orphans == [] && s.Grew(c.Current(), 50)
    modifies c, c.store`headers, c.store`blocks, c.store`heightIndex, c.store`head, c.store`headerHead
    ensures c.Valid() && c.HeadShared() && Gathered(c.Current(), c.orphans, s)
  {
    hide Linked, Keyed, BlocksStored, SoundHead, View.HeadStored, View.MostWork, Judge.Acceptable, Check;
    c.ValidIsGood();
    MoreWorkIsNew(c.Judging(), c.Current(), s.Low());
    MoreWorkIsNew(c.Judging(), c.Current(), s.Main(52));
    ghost var v := c.Current();
    Offer(c, s.Low());
    assert c.Current() == v && c.orphans == [Offered(s.Low())];
    Offer(c, s.Main(52));
    assert c.Current() == v && c.orphans == [Offered(s.Main(52)), Offered(s.Low())];
    Offer(c, s.Fork1());
    assert c.Current() == v.With(s.hash, Block(s.Fork1(), 0));
  }

  /** Block 51 becomes the head, and then, in the retry, the second block of the fork. */
  method LastMain(c: Chain, s: LowFork) returns (ghost was: View)
    requires c.Valid() && c.HeadShared() && c.rules == LENIENT && c.store.hash == s.hash
    requires Gathered(c.Current(), c.orphans, s)
    modifies c, c.store`headers, c.store`blocks, c.store`heightIndex, c.store`head, c.store`headerHead
    ensures c.Valid() && c.Judging().Good(was) && c.Judging().Acceptable(was, Offered(s.Main(52)))
    ensures Grown(was, c.Current()) && c.Current().head.totalDifficulty > was.head.totalDifficulty
    ensures c.orphans == [] && s.hash(s.Main(52)) !in c.store.blocks
  {
    hide Linked, Keyed, BlocksStored, SoundHead, View.HeadStored, View.MostWork, Judge.Acceptable, Check;
    c.ValidIsGood();
    ghost var j := c.Judging();
    MoreWorkIsNew(j, c.Current(), s.Main(51));
    was := c.Current().Headed(s.hash, Block(s.Main(51), 0));
    Offer(c, s.Main(51));
    MoreWorkIsNew(j, was, s.Main(52));
    MoreWorkIsNew(j, was, s.Low());
    LenientBlock(j, was, s.Main(52));
    LenientBlock(j, was, s.Low());
    LowerHeadLoses(j, was, Offered(s.Main(52)), Offered(s.Low()));
  }
}
