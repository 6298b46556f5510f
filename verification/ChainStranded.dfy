/** A run that leaves an orphan waiting although it could be stored: its parent arrived on a fork. */
module ChainStranded {
  import opened ChainModel
  import opened ChainStore
  import opened ChainRules
  import opened ChainOrphans
  import opened ChainPipe

  const LENIENT: Rules := Rules(_ => true, _ => 0, _ => true, (_, _) => true, (_, _) => true, _ => true, true)

  const SKIP_POW: Options := Options(true, false)

  /** A header of which only the place in the chain, the work and a number matter. */
  function Plain(height: nat, previous: BlockHash, work: nat, number: nat): Header {
    Header(height, previous, 1, 0, 0, work, number)
  }

  function Offered(h: Header): Orphaned {
    (SKIP_POW, Block(h, 0))
  }

  /** Under lenient rules a header has to be in its place, and nothing else. */
  lemma LenientHeader(j: Judge, hs: Headers, h: Header, headHeight: nat)
    requires Linked(hs) && j.rules == LENIENT && h.version == 1 && h.timestamp == 0 && h.height < 100
    ensures j.HeaderAcceptable(hs, h, headHeight, SKIP_POW) <==>
            h.height <= headHeight + 1 && h.previous in hs && h.height == hs[h.previous].height + 1
  {
  }

  /** What the rules say of a new block, once its header is in its place. */
  lemma LenientBlock(j: Judge, v: View, h: Header)
    requires j.Good(v) && j.rules == LENIENT && h.version == 1 && h.timestamp == 0 && h.height < 100
    requires j.hash(h) !in v.blocks
    ensures h.height > v.head.height + 1 ==> j.IsOrphan(v, Offered(h))
    ensures h.height <= v.head.height + 1 && h.previous in v.headers && h.height == v.headers[h.previous].height + 1 ==>
            if h.previous in v.blocks then j.Acceptable(v, Offered(h)) else j.IsOrphan(v, Offered(h))
  {
    hide Linked, Keyed, Injective, BlocksStored, View.MostWork, RequiredAfter;
    LenientHeader(j, v.headers, h, v.head.height);
  }

  /** Two blocks of one chain, and three of a fork with less work. */
  datatype Story = Story(hash: Header -> BlockHash) {
    function Genesis(): Header { Plain(0, BlockHash(0), 1, 0) }
    function Main1(): Header { Plain(1, hash(Genesis()), 10, 1) }
    function Main2(): Header { Plain(2, hash(Main1()), 20, 2) }
    function Fork1(): Header { Plain(1, hash(Genesis()), 1, 3) }
    function Parent(): Header { Plain(2, hash(Fork1()), 1, 4) }
    function Child(): Header { Plain(3, hash(Parent()), 1, 5) }

    /** The genesis alone, with the headers of the fork. */
    function Start(): View {
      View(map[hash(Genesis()) := Genesis(), hash(Fork1()) := Fork1(), hash(Parent()) := Parent()],
           map[hash(Genesis()) := Block(Genesis(), 0)],
           Tip(0, hash(Genesis()), hash(Genesis()), 1))
    }

    /** The first block of the chain is the head, and the first of the fork is stored. */
    ghost function Middle(): View {
      Start().Headed(hash, Block(Main1(), 0)).With(hash, Block(Fork1(), 0))
    }

    ghost function End(): View {
      Middle().Headed(hash, Block(Main2(), 0))
    }
  }

  /** The last block makes the head move, and the queue is retried: the child first, then its parent. */
  lemma LastRetry(j: Judge, v: View, s: Story)
    requires j.Good(v) && j.rules == LENIENT && j.hash == s.hash
    requires v.head.height == 2 && v.head.totalDifficulty == 20
    requires s.hash(s.Fork1()) in v.blocks && s.hash(s.Fork1()) in v.headers && v.headers[s.hash(s.Fork1())] == s.Fork1()
    requires s.hash(s.Parent()) in v.headers && v.headers[s.hash(s.Parent())] == s.Parent()
    requires s.hash(s.Parent()) !in v.blocks && s.hash(s.Child()) !in v.blocks
    ensures var r := Check(j, v, [Offered(s.Parent()), Offered(s.Child())]);
      && r.queue == [Offered(s.Child())] && r.view.head == v.head
      && s.hash(s.Parent()) in r.view.blocks
      && j.Acceptable(r.view, Offered(s.Child()))
  {
    hide Linked, Keyed, BlocksStored, View.HeadStored, View.MostWork, Judge.Acceptable, Judge.IsOrphan, Check;
    var p, c := Offered(s.Parent()), Offered(s.Child());
    assert j.hash(c.1.header) != j.hash(p.1.header);
    LenientBlock(j, v, s.Child());
    LenientBlock(j, v, s.Parent());
    ChildFirst(j, v, p, c);
    LenientBlock(j, v.With(j.hash, p.1), s.Child());
  }

  /** The oldest orphan waits, and the next one is then stored on a fork. */
  lemma ChildFirst(j: Judge, v: View, p: Orphaned, c: Orphaned)
    requires j.Good(v) && j.Waits(v, c) && IsStored(j, v, p)
    ensures j.Good(v.With(j.hash, p.1))
    ensures Check(j, v, [p, c]) == Outcome(v.With(j.hash, p.1), [c])
  {
    hide Linked, Keyed, Injective, BlocksStored, View.HeadStored, View.MostWork, Judge.Acceptable, Judge.Waits, View.With, Turns, Check;
    var w := v.With(j.hash, p.1);
    TurnsUnfold(j, v, [p, c], 2);
    assert [p, c][..1] == [p] && [c, p][..1] == [c];
    NotBoth(j, v, c);
    StoringKeeps(j, v, p);
    assert Process(j, v, [p], c) == Outcome(v, [c, p]);
    TurnsUnfold(j, v, [c, p], 1);
    assert Process(j, v, [c], p) == Outcome(w, [c]);
    TurnsUnfold(j, w, [c], 0);
  }

  lemma NotBoth(j: Judge, v: View, o: Orphaned)
    requires Linked(v.headers)
    ensures !(j.Acceptable(v, o) && j.IsOrphan(v, o)) && !(j.Acceptable(v, o) && j.Waits(v, o))
  {
  }

  /** Offers a block to a chain with lenient rules, and says what comes of it. */
  method Offer(c: Chain, h: Header)
    requires c.Valid() && c.HeadShared() && c.rules == LENIENT && |c.orphans| < MAX_ORPHANS
    requires h.version == 1 && h.timestamp == 0 && h.height < 100 && c.store.hash(h) !in c.store.blocks
    requires h.height < c.store.head.value.height + MAX_ORPHANS
    requires h.height <= c.store.head.value.height + 1 ==>
      h.previous in c.store.headers && h.height == c.store.headers[h.previous].height + 1
    modifies c, c.store`headers, c.store`blocks, c.store`heightIndex, c.store`head, c.store`headerHead
    ensures c.Valid() && c.HeadShared() && c.now == old(c.now) && |c.orphans| <= |old(c.orphans)| + 1
    ensures c.Judging().Good(old(c.Current())) && c.Judging().Good(c.Current())
    ensures var (v, q) := (old(c.Current()), old(c.orphans));
      if h.height > v.head.height + 1 || h.previous !in v.blocks then c.Current() == v && c.orphans == [Offered(h)] + q
      else if h.totalDifficulty <= v.head.totalDifficulty then c.Current() == v.With(c.store.hash, Block(h, 0)) && c.orphans == q
      else
        var v' := v.Headed(c.store.hash, Block(h, 0));
        c.Judging().Good(v') && Outcome(c.Current(), c.orphans) == Check(c.Judging(), v', q)
  {
    hide Injective, Linked, Keyed, BlocksStored, SoundHead, View.MostWork, Judge.Acceptable, Judge.IsOrphan, Check;
    c.ValidIsGood();
    ghost var j, v := c.Judging(), c.Current();
    LenientBlock(j, v, h);
    NotBoth(j, v, Offered(h));
    if j.Acceptable(v, Offered(h)) { StoringKeeps(j, v, Offered(h)); }
    var _ := c.ProcessBlock(Block(h, 0), SKIP_POW);
    c.ValidIsGood();
  }

  /** Whatever the hash function, this run ends with an orphan that waits although it could be stored. */
  method ParentOnAFork(hash: Header -> BlockHash) returns (c: Chain, child: Block)
    requires Injective(hash)
    ensures c.Valid() && c.orphans == [Offered(child.header)] && child.header.previous in c.store.blocks
    ensures c.Judging().Acceptable(c.Current(), Offered(child.header))
  {
    var s := Story(hash);
    var store := new ChainKVStore(hash);
    c := new Chain(store, LENIENT, Block(s.Genesis(), 0), [hash(s.Genesis())]);
    child := Block(s.Child(), 0);
    HeadersFirst(c, s);
    ForkStored(c, s);
    HeadMoves(c, s);
  }

  /** The child comes before its parent, and the block they wait for comes on a fork. */
  method ForkStored(c: Chain, s: Story)
    requires c.Valid() && c.HeadShared() && c.rules == LENIENT && c.store.hash == s.hash
    requires c.Current() == s.Start() && c.orphans == []
    modifies c, c.store`headers, c.store`blocks, c.store`heightIndex, c.store`head, c.store`headerHead
    ensures c.Valid() && c.HeadShared() && c.Current() == s.Middle()
    ensures c.orphans == [Offered(s.Parent()), Offered(s.Child())]
  {
    hide Linked, Keyed, BlocksStored, TimesIncrease, SoundHead, View.HeadStored, View.MostWork, Turns;
    ghost var v := s.Start();
    Offer(c, s.Main1());
    TurnsUnfold(c.Judging(), v.Headed(s.hash, Block(s.Main1(), 0)), [], 0);
    v := v.Headed(s.hash, Block(s.Main1(), 0));
    assert c.Current() == v && c.orphans == [];
    Offer(c, s.Child());
    assert c.Current() == v && c.orphans == [Offered(s.Child())];
    Offer(c, s.Parent());
    assert c.Current() == v;
    Offer(c, s.Fork1());
  }

  method HeadMoves(c: Chain, s: Story)
    requires c.Valid() && c.HeadShared() && c.rules == LENIENT && c.store.hash == s.hash
    requires c.Current() == s.Middle() && c.orphans == [Offered(s.Parent()), Offered(s.Child())]
    modifies c, c.store`headers, c.store`blocks, c.store`heightIndex, c.store`head, c.store`headerHead
    ensures c.Valid() && c.orphans == [Offered(s.Child())] && s.hash(s.Parent()) in c.store.blocks
    ensures c.Judging().Acceptable(c.Current(), Offered(s.Child()))
  {
    hide Linked, Keyed, BlocksStored, TimesIncrease, SoundHead, View.HeadStored, View.MostWork, Check, Judge.Acceptable;
    Offer(c, s.Main2());
    LastRetry(c.Judging(), s.End(), s);
  }

  /** Header-first sync makes the headers of the fork known, without their blocks. */
  method HeadersFirst(c: Chain, s: Story)
    requires c.Valid() && c.HeadShared() && c.rules == LENIENT && c.store.hash == s.hash
    requires c.store.head.Some? && c.Current() == s.Start().(headers := map[s.hash(s.Genesis()) := s.Genesis()])
    requires c.store.syncHead.value.height == 0
    modifies c.store`headers, c.store`headerHead, c.store`syncHead
    ensures c.Valid() && c.HeadShared() && c.Current() == s.Start()
  {
    hide Keyed, BlocksStored, SoundHead, View.MostWork, RequiredAfter;
    var _ := c.SyncBlockHeader(s.Fork1(), SKIP_POW);
    var _ := c.SyncBlockHeader(s.Parent(), SKIP_POW);
  }
}
