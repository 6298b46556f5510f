/** What is true of every stored header and block, and what the work that a header claims amounts to. */
module ChainWork {
  import opened ChainModel
  import opened ChainStore
  import opened ChainRules
  import opened ChainOrphans
  import opened Consensus

  /** The header is proved by its own work, claims that of its chain, and is as difficult as its chain requires. */
  ghost predicate Checked(rules: Rules, hs: Headers, k: BlockHash)
    requires Linked(hs)
  {
    k in hs && hs[k].height > 0 ==>
      && HasParent(hs, k)
      && rules.powValid(hs[k])
      && hs[k].totalDifficulty == hs[hs[k].previous].totalDifficulty + rules.powDifficulty(hs[hs[k].previous])
      && hs[k].difficulty >= MINIMUM_DIFFICULTY
      && RequiredAfter(hs, hs[k].previous).Ok?
      && hs[k].difficulty >= RequiredAfter(hs, hs[k].previous).value
  }

  ghost predicate AllChecked(rules: Rules, hs: Headers)
    requires Linked(hs)
  {
    forall k {:trigger Checked(rules, hs, k)} :: Checked(rules, hs, k)
  }

  /** The header is of the one version there is, and not from the future. */
  ghost predicate Dated(hs: Headers, now: nat, k: BlockHash) {
    k in hs && hs[k].height > 0 ==>
      hs[k].version == 1 && hs[k].height <= HARD_FORK_INTERVAL && hs[k].timestamp <= now + 12 * BLOCK_TIME_SEC
  }

  ghost predicate AllDated(hs: Headers, now: nat) {
    forall k {:trigger Dated(hs, now, k)} :: Dated(hs, now, k)
  }

  /** The content of the block is valid, mature and applied, and its roots are those of its chain. */
  ghost predicate Fitting(rules: Rules, hs: Headers, blocks: map<BlockHash, Block>, k: BlockHash)
    requires Linked(hs)
  {
    k in blocks && k in hs && hs[k].height > 0 ==>
      && HasParent(hs, k)
      && rules.contentValid(blocks[k]) && rules.inputsMature(blocks[k])
      && rules.applies(Ancestry(hs, hs[k].previous), blocks[k])
      && rules.rootsMatch(Ancestry(hs, k), blocks[k])
  }

  ghost predicate AllFitting(rules: Rules, hs: Headers, blocks: map<BlockHash, Block>)
    requires Linked(hs)
  {
    forall k {:trigger Fitting(rules, hs, blocks, k)} :: Fitting(rules, hs, blocks, k)
  }

  // ---------------------------------------------------------------- storing keeps the laws

  lemma CheckedStays(rules: Rules, hs: Headers, hs': Headers, k: BlockHash)
    requires Linked(hs) && Linked(hs') && k in hs && Checked(rules, hs, k)
    requires forall j :: j in hs ==> j in hs' && hs'[j] == hs[j]
    ensures Checked(rules, hs', k)
  {
    hide Linked;
    if hs[k].height > 0 {
      HistoryStable(hs, hs', hs[k].previous);
    }
  }

  /** The rules accept a header in its place exactly if it would be dated and later than its parent, and, if its proof of
      work counts, checked. */
  lemma HeaderFitsIff(j: Judge, hs: Headers, h: Header, opts: Options)
    requires Linked(hs) && Keyed(hs, j.hash) && Injective(j.hash)
    requires h.previous in hs && h.height == hs[h.previous].height + 1
    ensures var hs' := hs[j.hash(h) := h];
      && Linked(hs')
      && (j.HeaderFits(hs, h, opts) <==>
          && Dated(hs', j.now, j.hash(h))
          && (h.timestamp > hs[h.previous].timestamp || j.rules.automatedTesting)
          && (!opts.skipPow ==> Checked(j.rules, hs', j.hash(h))))
  {
    hide Keyed, Injective;
    var hs' := hs[j.hash(h) := h];
    StoredHeaderKeeps(hs, j.hash, h);
    HistoryStable(hs, hs', h.previous);
    assert HasParent(hs', j.hash(h));
  }

  lemma FitIsPlaced(j: Judge, hs: Headers, h: Header, opts: Options)
    requires Linked(hs) && j.HeaderFits(hs, h, opts)
    ensures h.previous in hs && h.height == hs[h.previous].height + 1
  {
  }

  /** A header that is accepted with its proof of work keeps all headers checked. */
  lemma AcceptedIsChecked(j: Judge, hs: Headers, h: Header, opts: Options)
    requires Linked(hs) && Keyed(hs, j.hash) && Injective(j.hash) && AllChecked(j.rules, hs)
    requires j.HeaderFits(hs, h, opts) && !opts.skipPow
    ensures Linked(hs[j.hash(h) := h]) && AllChecked(j.rules, hs[j.hash(h) := h])
  {
    hide Keyed, Injective, Judge.HeaderFits;
    var hs' := hs[j.hash(h) := h];
    FitIsPlaced(j, hs, h, opts);
    HeaderFitsIff(j, hs, h, opts);
    StoredHeaderKeeps(hs, j.hash, h);
    forall k
      ensures Checked(j.rules, hs', k)
    {
      assert Checked(j.rules, hs, k);
      if k != j.hash(h) && k in hs { CheckedStays(j.rules, hs, hs', k); }
    }
  }

  lemma AcceptedIsDated(j: Judge, hs: Headers, h: Header, opts: Options)
    requires Linked(hs) && Keyed(hs, j.hash) && Injective(j.hash) && AllDated(hs, j.now)
    requires j.HeaderFits(hs, h, opts)
    ensures AllDated(hs[j.hash(h) := h], j.now)
  {
    hide Keyed, Injective, Judge.HeaderFits;
    var hs' := hs[j.hash(h) := h];
    FitIsPlaced(j, hs, h, opts);
    HeaderFitsIff(j, hs, h, opts);
    forall k
      ensures Dated(hs', j.now, k)
    {
      assert Dated(hs, j.now, k);
    }
  }

  /** The content of a block fits exactly if it would, once the block is stored. */
  lemma ContentFitsIff(j: Judge, v: View, b: Block)
    requires Linked(v.headers) && Keyed(v.headers, j.hash) && Injective(j.hash)
    requires b.header.previous in v.headers && b.header.height == v.headers[b.header.previous].height + 1
    ensures var v' := v.With(j.hash, b);
      Linked(v'.headers) && (j.ContentFits(v.headers, b) <==> Fitting(j.rules, v'.headers, v'.blocks, j.hash(b.header)))
  {
    hide Keyed, Injective;
    var v' := v.With(j.hash, b);
    StoredHeaderKeeps(v.headers, j.hash, b.header);
    AncestryStable(v.headers, v'.headers, b.header.previous);
    assert HasParent(v'.headers, j.hash(b.header));
  }

  /** An acceptable block keeps the content of all stored blocks fitting. */
  lemma AcceptedIsFitting(j: Judge, v: View, o: Orphaned)
    requires j.Good(v) && j.Acceptable(v, o) && AllFitting(j.rules, v.headers, v.blocks)
    ensures var v' := v.With(j.hash, o.1); Linked(v'.headers) && AllFitting(j.rules, v'.headers, v'.blocks)
  {
    hide Keyed, Injective, Linked, View.MostWork, Judge.HeaderFits, Judge.ContentFits;
    var h := o.1.header;
    var v' := v.With(j.hash, o.1);
    FitIsPlaced(j, v.headers, h, o.0);
    StoredHeaderKeeps(v.headers, j.hash, h);
    ContentFitsIff(j, v, o.1);
    forall k
      ensures Fitting(j.rules, v'.headers, v'.blocks, k)
    {
      if k != j.hash(h) && k in v.blocks {
        assert BlockStored(v.headers, v.blocks, k) && Fitting(j.rules, v.headers, v.blocks, k);
        FittingStays(j.rules, v.headers, v'.headers, v.blocks, v'.blocks, k);
      }
    }
  }

  lemma FittingStays(rules: Rules, hs: Headers, hs': Headers, blocks: map<BlockHash, Block>, blocks': map<BlockHash, Block>, k: BlockHash)
    requires Linked(hs) && Linked(hs') && k in hs && k in blocks && k in blocks' && blocks'[k] == blocks[k]
    requires Fitting(rules, hs, blocks, k) && forall j :: j in hs ==> j in hs' && hs'[j] == hs[j]
    ensures Fitting(rules, hs', blocks', k)
  {
    hide Linked, Ancestry;
    if hs[k].height > 0 {
      AncestryStable(hs, hs', k);
      AncestryStable(hs, hs', hs[k].previous);
    }
  }

  /** A header alone keeps the laws as well. */
  lemma HeaderKeepsLaws(j: Judge, v: View, h: Header, opts: Options)
    requires j.Good(v) && j.HeaderFits(v.headers, h, opts)
    ensures var v' := v.(headers := v.headers[j.hash(h) := h]);
      && Linked(v'.headers)
      && (AllChecked(j.rules, v.headers) && !opts.skipPow ==> AllChecked(j.rules, v'.headers))
      && (Lawful(j, v) ==> Lawful(j, v'))
  {
    hide Keyed, Injective, Linked, View.MostWork, Judge.HeaderFits, AllChecked, AllDated;
    var v' := v.(headers := v.headers[j.hash(h) := h]);
    FitIsPlaced(j, v.headers, h, opts);
    StoredHeaderKeeps(v.headers, j.hash, h);
    if AllChecked(j.rules, v.headers) && !opts.skipPow { AcceptedIsChecked(j, v.headers, h, opts); }
    if Lawful(j, v) {
      AcceptedIsDated(j, v.headers, h, opts);
      forall k
        ensures Fitting(j.rules, v'.headers, v'.blocks, k)
      {
        if k in v.blocks {
          assert BlockStored(v.headers, v.blocks, k) && Fitting(j.rules, v.headers, v.blocks, k);
          FittingStays(j.rules, v.headers, v'.headers, v.blocks, v'.blocks, k);
        }
      }
    }
  }

  // ---------------------------------------------------------------- processing keeps the laws

  ghost predicate NoneSkips(queue: seq<Orphaned>) {
    forall o :: o in queue ==> !o.0.skipPow
  }

  /** The headers are checked, and so will those be of the blocks that wait. */
  ghost predicate Sealed(j: Judge, v: View, queue: seq<Orphaned>)
    requires Linked(v.headers)
  {
    AllChecked(j.rules, v.headers) && NoneSkips(queue)
  }

  /** Versions and times of the headers and the content of the blocks are as the rules want them. */
  ghost predicate Lawful(j: Judge, v: View)
    requires Linked(v.headers)
  {
    AllDated(v.headers, j.now) && AllFitting(j.rules, v.headers, v.blocks)
  }

  lemma GenesisIsLawful(j: Judge, v: View, g: BlockHash)
    requires Linked(v.headers) && v.headers.Keys == {g} && v.headers[g].height == 0
    ensures Sealed(j, v, []) && Lawful(j, v)
  {
  }

  /** Storing an acceptable block keeps the laws, whether or not it becomes the head. */
  lemma StoringKeepsLaws(j: Judge, v: View, o: Orphaned)
    requires j.Good(v) && j.Acceptable(v, o)
    ensures var v' := v.With(j.hash, o.1);
      && Linked(v'.headers)
      && (AllChecked(j.rules, v.headers) && !o.0.skipPow ==> AllChecked(j.rules, v'.headers))
      && (Lawful(j, v) ==> Lawful(j, v'))
  {
    hide Linked, Keyed, Injective, BlocksStored, View.HeadStored, View.MostWork, Judge.HeaderFits, Judge.ContentFits;
    hide AllChecked, AllDated, AllFitting;
    HeaderPlace(j, v, o);
    StoredHeaderKeeps(v.headers, j.hash, o.1.header);
    if AllChecked(j.rules, v.headers) && !o.0.skipPow { AcceptedIsChecked(j, v.headers, o.1.header, o.0); }
    if Lawful(j, v) {
      AcceptedIsDated(j, v.headers, o.1.header, o.0);
      AcceptedIsFitting(j, v, o);
    }
  }

  lemma HeaderPlace(j: Judge, v: View, o: Orphaned)
    requires j.Good(v) && j.Acceptable(v, o)
    ensures var h := o.1.header;
      h.previous in v.headers && h.height == v.headers[h.previous].height + 1
  {
  }

  lemma {:induction false} ProcessKeepsLaws(j: Judge, v: View, queue: seq<Orphaned>, o: Orphaned)
    requires j.Good(v) && |queue| <= MAX_ORPHANS
    ensures var r := Process(j, v, queue, o);
      && (Sealed(j, v, queue) && !o.0.skipPow ==> Sealed(j, r.view, r.queue))
      && (Lawful(j, v) ==> Lawful(j, r.view))
    decreases |queue|, 2, 0
  {
    hide Linked, Keyed, Injective, BlocksStored, View.HeadStored, View.MostWork, Judge.Acceptable, Judge.Waits;
    hide AllChecked, Lawful, Process, ProcessTrace, Turns, TurnsTrace, Grown;
    ProcessUnfold(j, v, queue, o);
    if j.Acceptable(v, o) {
      StoringKeepsLaws(j, v, o);
      HeadIsNoHeader(j, v.With(j.hash, o.1), v.Headed(j.hash, o.1));
      if o.1.header.totalDifficulty > v.head.totalDifficulty {
        TurnsKeepLaws(j, v.Headed(j.hash, o.1), queue, |queue|);
      }
    }
  }

  lemma HeadIsNoHeader(j: Judge, v: View, v': View)
    requires Linked(v.headers) && v'.headers == v.headers && v'.blocks == v.blocks
    ensures Lawful(j, v') <==> Lawful(j, v)
  {
  }

  lemma {:induction false} TurnsKeepLaws(j: Judge, v: View, queue: seq<Orphaned>, n: nat)
    requires j.Good(v) && |queue| <= MAX_ORPHANS
    ensures var r := Turns(j, v, queue, n);
      && (Sealed(j, v, queue) ==> Sealed(j, r.view, r.queue))
      && (Lawful(j, v) ==> Lawful(j, r.view))
    decreases |queue|, 0, n
  {
    hide Judge.Good, AllChecked, Lawful, Process, Turns, Grown;
    GoodIsLinked(j, v);
    TurnsUnfold(j, v, queue, n);
    if n > 0 && queue != [] {
      var rest, o := queue[..|queue| - 1], queue[|queue| - 1];
      var m := Process(j, v, rest, o);
      GoodIsLinked(j, m.view);
      GoodIsLinked(j, Turns(j, m.view, m.queue, n - 1).view);
      ProcessKeepsLaws(j, v, rest, o);
      TurnsKeepLaws(j, m.view, m.queue, n - 1);
    }
  }

  lemma GoodIsLinked(j: Judge, v: View)
    requires j.Good(v)
    ensures Linked(v.headers)
  {
  }

  // ---------------------------------------------------------------- the work of a chain

  /** What the proofs of work of these headers are worth together. */
  ghost function WorkOf(rules: Rules, hs: Headers, chain: seq<BlockHash>): nat
    requires forall a :: a in chain ==> a in hs
  {
    if chain == [] then 0
    else
      var n := |chain| - 1;
      WorkOf(rules, hs, chain[..n]) + rules.powDifficulty(hs[chain[n]])
  }

  /** The ancestors of a header, without the header itself. */
  ghost function Below(hs: Headers, k: BlockHash): (c: seq<BlockHash>)
    requires Linked(hs) && k in hs
    ensures |c| == hs[k].height && forall a :: a in c ==> a in hs
  {
    forall i: nat | i < hs[k].height
      ensures Ancestry(hs, k)[i] in hs
    {
      AncestorAt(hs, k, i);
    }
    Ancestry(hs, k)[..hs[k].height]
  }

  lemma BelowStep(hs: Headers, k: BlockHash)
    requires Linked(hs) && k in hs && hs[k].height > 0
    ensures HasParent(hs, k) && Below(hs, k) == Below(hs, hs[k].previous) + [hs[k].previous]
  {
    assert HasParent(hs, k);
    var a := Ancestry(hs, hs[k].previous);
    assert a == a[..|a| - 1] + [a[|a| - 1]];
  }

  /** If every header was checked, the total of each is that of the genesis and the work of the headers below it. */
  lemma {:induction false} TotalIsWork(rules: Rules, hs: Headers, k: BlockHash)
    requires Linked(hs) && AllChecked(rules, hs) && k in hs
    ensures Ancestry(hs, k)[0] in hs
    ensures hs[k].totalDifficulty == hs[Ancestry(hs, k)[0]].totalDifficulty + WorkOf(rules, hs, Below(hs, k))
    decreases hs[k].height
  {
    AncestorAt(hs, k, 0);
    if hs[k].height > 0 {
      BelowStep(hs, k);
      assert Checked(rules, hs, k);
      TotalIsWork(rules, hs, hs[k].previous);
    }
  }

  /** No stored block is on a chain with more work below it than the head's. */
  lemma HeadHasMostWork(j: Judge, v: View, k: BlockHash)
    requires j.Good(v) && AllChecked(j.rules, v.headers)
    requires k in v.blocks && k in v.headers && v.headers[k].height > 0 && v.head.height > 0
    ensures WorkOf(j.rules, v.headers, Below(v.headers, k)) <= WorkOf(j.rules, v.headers, Below(v.headers, v.head.lastBlockH))
  {
    hide Keyed, Injective, BlocksStored, AllChecked, WorkOf, Ancestry, Below;
    TotalIsWork(j.rules, v.headers, k);
    TotalIsWork(j.rules, v.headers, v.head.lastBlockH);
    GenesisIsCommon(v.headers, k, v.head.lastBlockH);
  }
}
