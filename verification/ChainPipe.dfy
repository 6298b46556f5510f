/** The block acceptance pipeline, and the queue of orphan blocks that are retried. */
module ChainPipe {
  import opened Wrappers
  import opened ChainModel
  import opened ChainStore
  import opened ChainRules
  import opened ChainOrphans
  import opened ChainWork
  import opened Consensus

  /** The blocks of a fork, and the one it forks from, are all in the store. */
  lemma ForkStored(hs: Headers, blocks: map<BlockHash, Block>, k: BlockHash, forked: BlockHash, hashes: seq<BlockHash>)
    requires Linked(hs) && BlocksStored(hs, blocks) && k in blocks && k in hs && forked in hs
    requires Ancestry(hs, forked) + hashes == Ancestry(hs, k)
    ensures forked in blocks && blocks[forked].header == hs[forked]
    ensures forall i :: 0 <= i < |hashes| ==> hashes[i] in blocks
  {
    AncestorsStored(hs, blocks, k);
    hide Ancestry;
    forall x | x in Ancestry(hs, forked) + hashes
      ensures x in blocks
    {
      assert x in Ancestry(hs, k);
    }
    assert forked == Ancestry(hs, forked)[hs[forked].height];
    assert BlockStored(hs, blocks, forked);
  }

  /** Each block applies on top of `ext` and the blocks before it. */
  ghost predicate AllApply(rules: Rules, blocks: map<BlockHash, Block>, ext: seq<BlockHash>, hashes: seq<BlockHash>)
    requires forall i :: 0 <= i < |hashes| ==> hashes[i] in blocks
  {
    forall i :: 0 <= i < |hashes| ==> rules.applies(ext + hashes[..i], blocks[hashes[i]])
  }

  lemma AppliesOneMore(rules: Rules, blocks: map<BlockHash, Block>, ext: seq<BlockHash>, hashes: seq<BlockHash>, n: nat)
    requires n < |hashes| && forall i :: 0 <= i < |hashes| ==> hashes[i] in blocks
    requires AllApply(rules, blocks, ext, hashes[..n]) && rules.applies(ext + hashes[..n], blocks[hashes[n]])
    ensures AllApply(rules, blocks, ext, hashes[..n + 1])
  {
    forall i | 0 <= i < n + 1
      ensures hashes[..n + 1][..i] == hashes[..i] && (i < n ==> hashes[..n][..i] == hashes[..i])
    {
    }
  }

  /** If the chain below a block decides whether it applies, as the fixed predicate `applies` has it, a fork can be
      replayed: each of its blocks was applied on the same ancestry when it was stored. The trees look spent outputs
      up in an index that storing rewrites; `OutputReplay.ReplayRightIff` has the exact condition for that. */
  lemma ForkApplies(rules: Rules, hs: Headers, blocks: map<BlockHash, Block>, k: BlockHash, forked: BlockHash, hashes: seq<BlockHash>)
    requires Linked(hs) && BlocksApply(rules, hs, blocks) && k in hs && forked in hs
    requires Ancestry(hs, forked) + hashes == Ancestry(hs, k)
    requires forall i :: 0 <= i < |hashes| ==> hashes[i] in blocks
    ensures AllApply(rules, blocks, Ancestry(hs, forked), hashes)
  {
    hide Linked, Ancestry;
    forall i | 0 <= i < |hashes|
      ensures rules.applies(Ancestry(hs, forked) + hashes[..i], blocks[hashes[i]])
    {
      ForkAppliesAt(rules, hs, blocks, k, Ancestry(hs, forked), hashes, i);
    }
  }

  lemma ForkAppliesAt(rules: Rules, hs: Headers, blocks: map<BlockHash, Block>, k: BlockHash, base: seq<BlockHash>, hashes: seq<BlockHash>, i: nat)
    requires Linked(hs) && BlocksApply(rules, hs, blocks) && k in hs && i < |hashes| && hashes[i] in blocks
    requires base != [] && base + hashes == Ancestry(hs, k)
    ensures rules.applies(base + hashes[..i], blocks[hashes[i]])
  {
    hide Linked, Ancestry;
    var n := |base| + i;
    AncestorAt(hs, k, n);
    var a := hashes[i];
    assert Ancestry(hs, k)[n] == a && Ancestry(hs, k)[..n + 1][..n] == base + hashes[..i];
    ParentAncestry(hs, a);
    assert Applies(rules, hs, blocks, a);
  }

  lemma ParentAncestry(hs: Headers, k: BlockHash)
    requires Linked(hs) && k in hs && hs[k].height > 0
    ensures HasParent(hs, k) && Ancestry(hs, hs[k].previous) == Ancestry(hs, k)[..hs[k].height]
  {
  }

  /** The genesis alone is a sound chain. */
  lemma GenesisIsSound(hash: Header -> BlockHash, rules: Rules, genesis: Block)
    requires genesis.header.height == 0 && Injective(hash)
    ensures var g, h := hash(genesis.header), genesis.header;
      && SoundStore(hash, rules, map[g := h], map[g := genesis])
      && (forall index :: Indexed(map[g := h], index, g, 0))
      && forall index :: Indexed(map[g := h], index, g, 1) ==>
           SoundHead(hash, View(map[g := h], map[g := genesis], Tip(0, g, g, 1)), index, [g])
  {
    var g, h := hash(genesis.header), genesis.header;
    assert BlocksStored(map[g := h], map[g := genesis]);
  }

  lemma IndexedBelow(hs: Headers, index: map<nat, Header>, k: BlockHash, n: nat, m: nat)
    requires Linked(hs) && k in hs && m <= n <= hs[k].height + 1 && Indexed(hs, index, k, n)
    ensures Indexed(hs, index, k, m)
  {
  }

  class Chain {
    const store: ChainKVStore
    const rules: Rules
    /** The clock, which moves between calls. */
    var now: nat
    /** The blocks last applied to the sum trees, in order. */
    var applied: seq<BlockHash>
    var orphans: seq<Orphaned>
    var head: Tip

    /** Starts on the genesis, or opens a chain again that was left in a sound state. */
    constructor (store: ChainKVStore, rules: Rules, genesis: Block, applied: seq<BlockHash>)
      requires store.head.None? ==>
        && store.headers == map[] && store.blocks == map[] && store.heightIndex == map[] && store.syncHead.None?
        && genesis.header.height == 0 && Injective(store.hash) && applied == [store.hash(genesis.header)]
      requires store.head.Some? ==>
        && SoundStore(store.hash, rules, store.headers, store.blocks) && store.headerHead.Some?
        && var v := View(store.headers, store.blocks, store.head.value);
        SoundHead(store.hash, v, store.heightIndex, applied) && v.MostWork()
      modifies store
      ensures Valid() && HeadShared() && this.store == store && this.rules == rules && orphans == []
      ensures this.applied == applied
      ensures old(store.head).None? ==>
        var g := store.hash(genesis.header);
        store.head == store.syncHead == Some(Tip(0, g, g, 1))
        && Current() == View(map[g := genesis.header], map[g := genesis], Tip(0, g, g, 1))
        && Sealed(Judging(), Current(), orphans) && Lawful(Judging(), Current())
      ensures old(store.head).Some? ==>
        && Current() == old(View(store.headers, store.blocks, store.head.value))
        && store.syncHead == if old(store.syncHead).Some? then old(store.syncHead) else store.head
    {
      hide Keyed, BlocksStored, TimesIncrease, Indexed, Injective, Sealed, Lawful;
      this.store := store;
      this.rules := rules;
      this.applied := applied;
      now := 0;
      orphans := [];
      if store.head.Some? {
        head := store.head.value;
      } else {
        head := Tip(0, store.hash(genesis.header), store.hash(genesis.header), 1);
      }
      new;
      if store.head.None? {
        var g := store.hash(genesis.header);
        store.SaveBlock(genesis);
        GenesisIsSound(store.hash, rules, genesis);
        GenesisIsLawful(Judging(), View(store.headers, store.blocks, Tip(0, g, g, 1)), g);
        store.SetupHeight(g, g);
        store.SaveHead(Tip(0, g, g, 1));
      }
      if store.syncHead.None? {
        store.syncHead := store.head;
      }
    }

    /** The store is sound, times included, and hashes do not collide. */
    ghost predicate StoreSound()
      reads this, store
    {
      && SoundStore(store.hash, rules, store.headers, store.blocks)
      && store.syncHead.Some? && store.headerHead.Some?
    }

    /** The head is a stored block; the index and the list of applied blocks follow its chain. */
    ghost predicate HeadSound()
      requires StoreSound()
      reads this, store
    {
      store.head.Some? && SoundHead(store.hash, Current(), store.heightIndex, applied)
    }

    ghost predicate Valid()
      reads this, store
    {
      StoreSound() && HeadSound() && Current().MostWork() && |orphans| <= MAX_ORPHANS
    }

    /** The head in memory is the stored one. */
    ghost predicate HeadShared()
      reads this, store
    {
      store.head == Some(head)
    }

    ghost function Judging(): Judge
      reads `now
    {
      Judge(store.hash, rules, now)
    }

    ghost function Current(): View
      requires store.head.Some?
      reads store
    {
      View(store.headers, store.blocks, store.head.value)
    }

    /** Refuses blocks that were handled lately. */
    method CheckKnown(b: BlockHash, ctxHead: Tip) returns (e: Option<Error>)
      ensures e == if View(store.headers, store.blocks, ctxHead).Known(b) then Some(Unfit) else None
    {
      if b == ctxHead.lastBlockH || b == ctxHead.prevBlockH {
        return Some(Unfit);
      }
      if b in store.blocks && store.blocks[b].header.totalDifficulty <= ctxHead.totalDifficulty {
        return Some(Unfit);
      }
      return None;
    }

    /** What a refusal of a header says is true. */
    ghost predicate Warranted(e: Error, h: Header, headHeight: nat, opts: Options)
      requires Linked(store.headers)
      reads this, store
    {
      var known := h.previous in store.headers;
      match e
      case Orphan => h.height > headHeight + 1
      case InvalidBlockVersion(version) => version == h.version && !(h.height <= HARD_FORK_INTERVAL && version == 1)
      case InvalidBlockTime =>
        h.timestamp > now + 12 * BLOCK_TIME_SEC || (known && h.timestamp <= store.headers[h.previous].timestamp)
      case InvalidPow => !opts.skipPow && !rules.powValid(h)
      case StoreErr => !known
      case InvalidBlockHeight => known && h.height != store.headers[h.previous].height + 1
      case WrongTotalDifficulty =>
        && !opts.skipPow && known
        && var prev := store.headers[h.previous];
        h.totalDifficulty != prev.totalDifficulty + rules.powDifficulty(prev)
      case DifficultyTooLow =>
        && !opts.skipPow && known
        && var required := RequiredAfter(store.headers, h.previous);
        h.difficulty < MINIMUM_DIFFICULTY || (required.Ok? && h.difficulty < required.value)
      case Other => known && RequiredAfter(store.headers, h.previous).Err?
      case _ => false
    }

    method ValidateHeader(h: Header, ctxHead: Tip, opts: Options) returns (e: Option<Error>)
      requires Linked(store.headers)
      ensures e.None? <==> Judging().HeaderAcceptable(store.headers, h, ctxHead.height, opts)
      ensures e == Some(Orphan) <==> h.height > ctxHead.height + 1
      ensures e.Some? ==> Warranted(e.value, h, ctxHead.height, opts)
    {
      if h.height > ctxHead.height + 1 {
        return Some(Orphan);
      }
      if !ValidHeaderVersion(h.height, h.version) {
        return Some(InvalidBlockVersion(h.version));
      }
      if h.timestamp > now + 12 * BLOCK_TIME_SEC {
        return Some(InvalidBlockTime);
      }
      if !opts.skipPow {
        if !rules.powValid(h) {
          return Some(InvalidPow);
        }
      }
      if h.previous !in store.headers {
        return Some(StoreErr);
      }
      var prev := store.headers[h.previous];
      if h.height != prev.height + 1 {
        return Some(InvalidBlockHeight);
      }
      if h.timestamp <= prev.timestamp && !rules.automatedTesting {
        return Some(InvalidBlockTime);
      }
      if !opts.skipPow {
        if h.difficulty < MINIMUM_DIFFICULTY {
          return Some(DifficultyTooLow);
        }
        if h.totalDifficulty != prev.totalDifficulty + rules.powDifficulty(prev) {
          return Some(WrongTotalDifficulty);
        }
        var difficulty := DifficultyAfter(store, h.previous);
        if difficulty.Err? {
          return Some(Other);
        }
        if h.difficulty < difficulty.value {
          return Some(DifficultyTooLow);
        }
      }
      return None;
    }

    /** Applies the block on top of its own chain, wherever that forks off the current one. */
    method Extend(b: Block) returns (r: Result<seq<BlockHash>, Error>)
      requires StoreSound() && HeadSound() && b.header.previous in store.blocks && b.header.previous in store.headers
      requires store.headers[b.header.previous].height <= store.head.value.height
      ensures r == if rules.applies(Ancestry(store.headers, b.header.previous), b)
                   then Ok(Ancestry(store.headers, b.header.previous) + [store.hash(b.header)]) else Err(SumTreeErr)
    {
      hide Injective, TimesIncrease, Ancestry, BlocksApply, IsForkPoint;
      var ext := applied;
      if b.header.previous != store.head.value.lastBlockH {
        var hashes, forked := store.FindFork(b.header.previous, store.head.value.lastBlockH);
        ForkStored(store.headers, store.blocks, b.header.previous, forked, hashes);
        ForkApplies(rules, store.headers, store.blocks, b.header.previous, forked, hashes);
        // go back to the forking block, then apply the fork
        ext := ext[..store.blocks[forked].header.height + 1];
        var replayed := ApplyForked(ext, hashes);
        ext := replayed.value;
      }
      if !rules.applies(ext, b) {
        return Err(SumTreeErr);
      }
      return Ok(ext + [store.hash(b.header)]);
    }

    /** Applies stored blocks, one after the other; each has to apply on top of those before it, by the fixed
        predicate `applies`. */
    method ApplyForked(ext0: seq<BlockHash>, hashes: seq<BlockHash>) returns (r: Result<seq<BlockHash>, Error>)
      requires forall i :: 0 <= i < |hashes| ==> hashes[i] in store.blocks
      ensures r == if AllApply(rules, store.blocks, ext0, hashes) then Ok(ext0 + hashes) else Err(SumTreeErr)
    {
      var ext := ext0;
      for i := 0 to |hashes|
        invariant ext == ext0 + hashes[..i] && AllApply(rules, store.blocks, ext0, hashes[..i])
      {
        assert hashes[i] in store.blocks;
        assert hashes[..i + 1] == hashes[..i] + [hashes[i]];
        if !rules.applies(ext, store.blocks[hashes[i]]) {
          assert hashes[..i] == hashes[..i + 1][..i];
          return Err(SumTreeErr);
        }
        AppliesOneMore(rules, store.blocks, ext0, hashes, i);
        ext := ext + [hashes[i]];
      }
      assert hashes[..|hashes|] == hashes;
      return Ok(ext);
    }

    /** Checks the block's content on top of its own chain, wherever that forks off the current one. */
    method ValidateBlock(b: Block) returns (r: Result<seq<BlockHash>, Error>)
      requires StoreSound() && HeadSound() && b.header.previous in store.blocks && b.header.previous in store.headers
      requires store.headers[b.header.previous].height <= store.head.value.height
      ensures r.Ok? ==> r.value == Ancestry(store.headers, b.header.previous) + [store.hash(b.header)]
      ensures r.Err? ==> r.error in {InvalidBlockProof, SumTreeErr, InvalidRoot, ImmatureCoinbase}
      ensures r.Ok? <==> Judging().ContentFits(store.headers, b)
    {
      if !rules.contentValid(b) {
        return Err(InvalidBlockProof);
      }
      var applying := Extend(b);
      if applying.Err? {
        return applying;
      }
      var ext := applying.value;
      if !rules.rootsMatch(ext, b) {
        return Err(InvalidRoot);
      }
      if !rules.inputsMature(b) {
        return Err(ImmatureCoinbase);
      }
      return Ok(ext);
    }

    /** Saves a valid block; nothing about the head changes yet. */
    method AddBlock(b: Block)
      requires StoreSound() && HeadSound() && b.header.previous in store.blocks && b.header.previous in store.headers
      requires b.header.height == store.headers[b.header.previous].height + 1
      requires b.header.timestamp > store.headers[b.header.previous].timestamp || rules.automatedTesting
      requires rules.applies(Ancestry(store.headers, b.header.previous), b)
      modifies store`headers, store`blocks
      ensures StoreSound() && HeadSound() && store.hash(b.header) in store.headers && store.hash(b.header) in store.blocks
      ensures store.headers[store.hash(b.header)] == b.header
      ensures Ancestry(store.headers, store.hash(b.header)) ==
              old(Ancestry(store.headers, b.header.previous)) + [store.hash(b.header)]
      ensures OnlyGrown(old(store.headers), old(store.blocks))
      ensures Current() == old(Current()).With(store.hash, b)
    {
      hide SoundHead, Injective, Linked, Keyed, BlocksStored, TimesIncrease, Ancestry;
      StoringKeepsSound(store.hash, rules, Current(), store.heightIndex, applied, b, true);
      store.SaveBlock(b);
    }

    /** Everything stored before is still stored. */
    ghost predicate OnlyGrown(hs: Headers, blocks: map<BlockHash, Block>)
      reads store
    {
      && (forall k :: k in hs ==> k in store.headers && store.headers[k] == hs[k])
      && (forall k :: k in blocks ==> k in store.blocks)
    }

    /** Makes a stored block the head if its chain has more work than the head's. */
    method UpdateHead(b: Block, opts: Options, ext: seq<BlockHash>) returns (r: Option<Tip>)
      requires StoreSound() && HeadSound()
      requires store.hash(b.header) in store.headers && store.headers[store.hash(b.header)] == b.header
      requires store.hash(b.header) in store.blocks && ext == Ancestry(store.headers, store.hash(b.header))
      requires b.header.height <= store.head.value.height + 1 && b.header.previous in store.blocks
      modifies this`applied, store`heightIndex, store`head, store`headerHead
      ensures StoreSound() && HeadSound()
      ensures r == if b.header.totalDifficulty > old(store.head.value.totalDifficulty)
                   then Some(TipOf(store.hash, b.header)) else None
      ensures store.head == if r.Some? then r else old(store.head)
      ensures r.None? ==> applied == old(applied) && store.heightIndex == old(store.heightIndex)
    {
      hide Injective, Keyed, Indexed, Linked, TimesIncrease, BlocksStored, Ancestry;
      var tip := TipOf(store.hash, b.header);
      if tip.totalDifficulty > store.head.value.totalDifficulty {
        IndexedBelow(store.headers, store.heightIndex, store.head.value.lastBlockH, store.head.value.height + 1, b.header.height);
        store.SetupHeight(store.hash(b.header), store.head.value.lastBlockH);
        if opts.sync {
          store.SaveBodyHead(tip);
        } else {
          store.SaveHead(tip);
        }
        applied := ext;
        return Some(tip);
      }
      return None;
    }

    /** The pipeline: a block is refused, found to be an orphan, stored on a fork, or made the head. */
    method PipeProcessBlock(b: Block, opts: Options) returns (r: Result<Option<Tip>, Error>)
      requires Valid()
      modifies `applied, store`headers, store`blocks, store`heightIndex, store`head, store`headerHead
      ensures Valid() && OnlyGrown(old(store.headers), old(store.blocks))
      ensures r.Ok? <==> old(Judging().Acceptable(Current(), (opts, b)))
      ensures r == Err(Orphan) <==> old(Judging().IsOrphan(Current(), (opts, b)))
      ensures r.Ok? ==> r.value == if b.header.totalDifficulty > old(store.head.value.totalDifficulty)
                                   then Some(TipOf(store.hash, b.header)) else None
      ensures Current() == if r.Err? then old(Current())
                           else if r.value.Some? then old(Current()).Headed(store.hash, b)
                           else old(Current()).With(store.hash, b)
      ensures !(r.Ok? && r.value.Some?) ==> applied == old(applied) && store.heightIndex == old(store.heightIndex)
      ensures old(AllChecked(rules, store.headers)) && !opts.skipPow ==> AllChecked(rules, store.headers)
      ensures old(Lawful(Judging(), Current())) ==> Lawful(Judging(), Current())
    {
      hide RequiredAfter, Indexed, TimesIncrease, Injective, AllChecked, Lawful;
      LawsGoOn(b, opts);
      var ctxHead := store.head.value;
      var known := CheckKnown(store.hash(b.header), ctxHead);
      if known.Some? {
        return Err(known.value);
      }
      var refused := ValidateHeader(b.header, ctxHead, opts);
      if refused.Some? {
        return Err(refused.value);
      }
      if b.header.previous !in store.blocks {
        return Err(Orphan);
      }
      r := AcceptBlock(b, opts);
    }

    /** The unit of work on a block with a good header: validate, save, and move the head if it has more work. */
    method AcceptBlock(b: Block, opts: Options) returns (r: Result<Option<Tip>, Error>)
      requires StoreSound() && HeadSound() && b.header.previous in store.blocks && b.header.previous in store.headers
      requires b.header.height == store.headers[b.header.previous].height + 1 <= store.head.value.height + 1
      requires b.header.timestamp > store.headers[b.header.previous].timestamp || rules.automatedTesting
      modifies `applied, store`headers, store`blocks, store`heightIndex, store`head, store`headerHead
      ensures StoreSound() && HeadSound() && OnlyGrown(old(store.headers), old(store.blocks))
      ensures r.Ok? <==> old(Judging().ContentFits(store.headers, b))
      ensures r != Err(Orphan)
      ensures r.Ok? ==> r.value == if b.header.totalDifficulty > old(store.head.value.totalDifficulty)
                                   then Some(TipOf(store.hash, b.header)) else None
      ensures Current() == if r.Err? then old(Current())
                           else if r.value.Some? then old(Current()).Headed(store.hash, b)
                           else old(Current()).With(store.hash, b)
      ensures !(r.Ok? && r.value.Some?) ==> applied == old(applied) && store.heightIndex == old(store.heightIndex)
    {
      hide StoreSound, HeadSound;
      var ext := ValidateBlock(b);
      if ext.Err? {
        return Err(ext.error);
      }
      AddBlock(b);
      var h := UpdateHead(b, opts, ext.value);
      return Ok(h);
    }

    /** Feeds a block to the pipeline; a new head sets off another try of the orphans. */
    method ProcessBlock(b: Block, opts: Options) returns (r: Result<Option<Tip>, Error>)
      requires Valid() && HeadShared()
      modifies `applied, `orphans, `head, store`headers, store`blocks, store`heightIndex, store`head, store`headerHead
      ensures Valid() && HeadShared() && OnlyGrown(old(store.headers), old(store.blocks))
      ensures r.Ok? <==> old(Judging().Acceptable(Current(), (opts, b)))
      ensures r == Err(Orphan) <==> old(Judging().IsOrphan(Current(), (opts, b)))
      ensures r.Ok? ==> r.value == if b.header.totalDifficulty > old(store.head.value.totalDifficulty)
                                   then Some(TipOf(store.hash, b.header)) else None
      ensures Outcome(Current(), orphans) == Process(Judging(), old(Current()), old(orphans), (opts, b))
      // as long as the proof of work counts, every header is checked; and content and times are always as they should be
      ensures old(Sealed(Judging(), Current(), orphans)) && !opts.skipPow ==> Sealed(Judging(), Current(), orphans)
      ensures old(Lawful(Judging(), Current())) ==> Lawful(Judging(), Current())
      ensures r.Err? || r == Ok(None) ==> applied == old(applied) && store.heightIndex == old(store.heightIndex)
      decreases |orphans|, 2
    {
      hide Injective, Keyed, Indexed, Linked, TimesIncrease, BlocksStored, Ancestry, View.HeadStored, View.MostWork;
      hide Judge.Acceptable, Judge.IsOrphan, AllChecked, Lawful;
      ProcessKeepsLaws(Judging(), Current(), orphans, (opts, b));
      var height := store.head.value.height;
      r := PipeProcessBlock(b, opts);
      match r {
        case Ok(Some(tip)) =>
          head := tip;
          CheckOrphans();
        case Ok(None) =>
        case Err(Orphan) =>
          if b.header.height < height + MAX_ORPHANS {
            orphans := [(opts, b)] + orphans;
            if |orphans| > MAX_ORPHANS {
              orphans := orphans[..MAX_ORPHANS];
            }
          }
        case Err(_) =>
      }
    }

    /** Pops each orphan and tries it again; one that is still an orphan is queued again. */
    method CheckOrphans()
      requires Valid() && HeadShared()
      modifies `applied, `orphans, `head, store`headers, store`blocks, store`heightIndex, store`head, store`headerHead
      ensures Valid() && HeadShared() && OnlyGrown(old(store.headers), old(store.blocks))
      ensures Outcome(Current(), orphans) == Check(Judging(), old(Current()), old(orphans))
      decreases |orphans|, 1
    {
      hide Valid, HeadShared, StoreSound, HeadSound, SoundStore, SoundHead, Injective, Judge.Good, Process, Check, Turns, Grown, OnlyGrown;
      ValidIsGood();
      var orphanCount := |orphans|;
      TurnsUnfold(Judging(), Current(), orphans, orphanCount);
      for i := 0 to orphanCount
        invariant Valid() && HeadShared()
        invariant |orphans| <= old(|orphans|) <= MAX_ORPHANS && store.head.Some? && Judging().Good(Current())
        invariant Turns(Judging(), Current(), orphans, orphanCount - i) == Check(Judging(), old(Current()), old(orphans))
      {
        TurnsUnfold(Judging(), Current(), orphans, orphanCount - i);
        if |orphans| > 0 {
          RetryOldest();
        } else {
          TurnsUnfold(Judging(), Current(), orphans, orphanCount - i - 1);
        }
      }
      TurnsUnfold(Judging(), Current(), orphans, 0);
      OnlyGrew(old(Current()));
    }

    lemma OnlyGrew(was: View)
      requires store.head.Some? && Grown(was, Current())
      ensures OnlyGrown(was.headers, was.blocks)
    {
    }

    /** One turn of the retry. */
    method RetryOldest()
      requires Valid() && HeadShared() && orphans != []
      modifies `applied, `orphans, `head, store`headers, store`blocks, store`heightIndex, store`head, store`headerHead
      ensures Valid() && HeadShared()
      ensures Judging().Good(old(Current())) && store.head.Some? && |orphans| <= |old(orphans)| <= MAX_ORPHANS
      ensures Outcome(Current(), orphans) ==
              Process(Judging(), old(Current()), old(orphans[..|orphans| - 1]), old(orphans[|orphans| - 1]))
      decreases |orphans|, 0
    {
      hide SoundStore, SoundHead, Judge.Good, View.MostWork, Judge.Acceptable, Judge.IsOrphan, Process, Injective;
      ValidIsGood();
      var (opts, orphan) := orphans[|orphans| - 1];
      orphans := orphans[..|orphans| - 1];
      var _ := ProcessBlock(orphan, opts);
    }

    lemma LawsGoOn(b: Block, opts: Options)
      requires Valid()
      ensures Judging().Acceptable(Current(), (opts, b)) ==>
        var v := Current().With(store.hash, b);
        && Linked(v.headers)
        && (AllChecked(rules, store.headers) && !opts.skipPow ==> AllChecked(rules, v.headers))
        && (Lawful(Judging(), Current()) ==> Lawful(Judging(), v) && Lawful(Judging(), Current().Headed(store.hash, b)))
    {
      hide AllChecked, Lawful, Judge.Acceptable, Linked, Keyed, Injective, BlocksStored, View.MostWork;
      if Judging().Acceptable(Current(), (opts, b)) {
        StoringKeepsLaws(Judging(), Current(), (opts, b));
        HeadIsNoHeader(Judging(), Current().With(store.hash, b), Current().Headed(store.hash, b));
      }
    }

    lemma ValidIsGood()
      requires Valid()
      ensures store.head.Some? && Judging().Good(Current()) && |orphans| <= MAX_ORPHANS
    {
    }

    /** Header-first sync: the header is stored and the sync head moves, but not the chain itself. */
    method SyncBlockHeader(h: Header, opts: Options) returns (r: Result<Option<Tip>, Error>)
      requires Valid()
      modifies store`headers, store`headerHead, store`syncHead
      ensures Valid() && OnlyGrown(old(store.headers), old(store.blocks))
      ensures store.head == old(store.head) && store.heightIndex == old(store.heightIndex)
      ensures store.blocks == old(store.blocks)
      ensures store.headers == if r.Ok? then old(store.headers)[store.hash(h) := h] else old(store.headers)
      ensures r.Ok? <==> old(Judging().HeaderAcceptable(store.headers, h, store.syncHead.value.height, opts))
      ensures r.Ok? ==> store.syncHead == r.value == Some(TipOf(store.hash, h)) && store.hash(h) in store.headers
      ensures store.headerHead == if r.Ok? && h.totalDifficulty > old(store.headerHead.value.totalDifficulty)
                                  then Some(TipOf(store.hash, h)) else old(store.headerHead)
      ensures old(AllChecked(rules, store.headers)) && !opts.skipPow ==> AllChecked(rules, store.headers)
      ensures old(Lawful(Judging(), Current())) ==> Lawful(Judging(), Current())
    {
      hide SoundStore, SoundHead, Injective, RequiredAfter, View.MostWork, AllChecked, Lawful;
      SoundIsLinked();
      LawsGoOnWithHeader(h, opts);
      var refused := ValidateHeader(h, store.syncHead.value, opts);
      if refused.Some? {
        return Err(refused.value);
      }
      AddBlockHeader(h);
      var tip := TipOf(store.hash, h);
      UpdateSyncTips(tip);
      return Ok(Some(tip));
    }

    lemma LawsGoOnWithHeader(h: Header, opts: Options)
      requires Valid()
      ensures Judging().HeaderFits(store.headers, h, opts) ==>
        var v := Current().(headers := store.headers[store.hash(h) := h]);
        && Linked(v.headers)
        && (AllChecked(rules, store.headers) && !opts.skipPow ==> AllChecked(rules, v.headers))
        && (Lawful(Judging(), Current()) ==> Lawful(Judging(), v))
    {
      hide AllChecked, Lawful, Judge.HeaderFits, Linked, Keyed, Injective, BlocksStored, View.MostWork;
      if Judging().HeaderFits(store.headers, h, opts) { HeaderKeepsLaws(Judging(), Current(), h, opts); }
    }

    lemma SoundIsLinked()
      requires StoreSound()
      ensures Linked(store.headers)
    {
    }

    method UpdateSyncTips(tip: Tip)
      requires StoreSound() && HeadSound()
      modifies store`headerHead, store`syncHead
      ensures StoreSound() && HeadSound() && store.syncHead == Some(tip)
      ensures store.headerHead == if tip.totalDifficulty > old(store.headerHead.value.totalDifficulty)
                                  then Some(tip) else old(store.headerHead)
    {
      if tip.totalDifficulty > store.headerHead.value.totalDifficulty {
        store.headerHead := Some(tip);
      }
      store.syncHead := Some(tip);
    }

    method AddBlockHeader(h: Header)
      requires StoreSound() && HeadSound() && h.previous in store.headers
      requires h.height == store.headers[h.previous].height + 1
      requires h.timestamp > store.headers[h.previous].timestamp || rules.automatedTesting
      modifies store`headers
      ensures StoreSound() && HeadSound() && store.hash(h) in store.headers
      ensures old(Current().MostWork()) ==> Current().MostWork()
      ensures OnlyGrown(old(store.headers), old(store.blocks))
      ensures store.headers == old(store.headers)[store.hash(h) := h]
    {
      hide SoundHead, View.MostWork, Injective, Linked, Keyed, BlocksStored, TimesIncrease;
      StoringKeepsSound(store.hash, rules, Current(), store.heightIndex, applied, Block(h, 0), false);
      if Current().MostWork() {
        HeaderKeepsMostWork(Current(), Current().(headers := store.headers[store.hash(h) := h]));
      }
      store.SaveBlockHeader(h);
    }

    /** For a stored header no higher than the head, the index tells ancestors of the head apart. */
    lemma OnCurrentChainIffAncestor(k: BlockHash)
      requires Valid() && k in store.headers && store.headers[k].height <= store.head.value.height
      ensures store.IsOnCurrentChain(store.headers[k]) <==> k in Ancestry(store.headers, store.head.value.lastBlockH)
    {
      var hs, head := store.headers, store.head.value.lastBlockH;
      OnChainIsAncestor(hs, store.heightIndex, store.hash, head, store.head.value.height + 1, k);
      if Ancestry(hs, head)[hs[k].height] != k {
        NotAtItsHeight(hs, head, k);
      }
    }
  }
}
