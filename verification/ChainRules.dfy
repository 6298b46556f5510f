/** The rules that decide whether a block is stored, deferred or refused, on the values they depend on. */
module ChainRules {
  import opened ChainModel
  import opened ChainStore
  import opened Consensus

  const MAX_ORPHANS: nat := 50

  datatype Options = Options(skipPow: bool, sync: bool)

  datatype Error =
    | Orphan
    | Unfit
    | InvalidBlockVersion(version: nat)
    | InvalidBlockTime
    | InvalidPow
    | StoreErr
    | InvalidBlockHeight
    | DifficultyTooLow
    | WrongTotalDifficulty
    | Other
    | InvalidBlockProof
    | SumTreeErr
    | InvalidRoot
    | ImmatureCoinbase

  /** What the pipeline asks of cryptography, of the sum trees and of the output index. These are fixed predicates:
      `applies` depends on the chain below a block, and `inputsMature` on the block, but not on the indexes of
      outputs by commitment, which storing blocks rewrites. */
  datatype Rules = Rules(
    powValid: Header -> bool,
    powDifficulty: Header -> nat,
    contentValid: Block -> bool,
    applies: (seq<BlockHash>, Block) -> bool,
    rootsMatch: (seq<BlockHash>, Block) -> bool,
    inputsMature: Block -> bool,
    automatedTesting: bool)

  /** No two headers have the same hash. */
  ghost predicate Injective(hash: Header -> BlockHash) {
    forall x, y {:trigger hash(x), hash(y)} :: hash(x) == hash(y) ==> x == y
  }

  function TipOf(hash: Header -> BlockHash, h: Header): Tip {
    Tip(h.height, hash(h), h.previous, h.totalDifficulty)
  }

  /** The store with one more header, a child of a stored one. */
  lemma StoredHeaderKeeps(hs: Headers, hash: Header -> BlockHash, h: Header)
    requires Linked(hs) && Keyed(hs, hash) && Injective(hash)
    requires h.previous in hs && h.height == hs[h.previous].height + 1
    ensures var hs' := hs[hash(h) := h];
      && Linked(hs') && Keyed(hs', hash)
      && (forall j :: j in hs ==> hs'[j] == hs[j])
      && Ancestry(hs', hash(h)) == Ancestry(hs, h.previous) + [hash(h)]
  {
    var k := hash(h);
    var hs' := hs[k := h];
    assert k in hs ==> hash(hs[k]) == hash(h) && hs[k] == h;
    forall j | j in hs' && hs'[j].height > 0
      ensures HasParent(hs', j)
    {
      if j != k { assert HasParent(hs, j); }
    }
    assert Linked(hs');
    AncestryStable(hs, hs', h.previous);
  }

  lemma StoredHeaderKeepsTimes(hs: Headers, hash: Header -> BlockHash, h: Header)
    requires Linked(hs) && Keyed(hs, hash) && Injective(hash) && TimesIncrease(hs)
    requires h.previous in hs && h.height == hs[h.previous].height + 1 && h.timestamp > hs[h.previous].timestamp
    ensures TimesIncrease(hs[hash(h) := h])
  {
    var k := hash(h);
    var hs' := hs[k := h];
    assert k in hs ==> hash(hs[k]) == hash(h) && hs[k] == h;
    forall j | HasParent(hs', j)
      ensures hs'[j].timestamp > hs'[hs'[j].previous].timestamp
    {
      if j != k && j in hs {
        if hs[j].height > 0 { assert HasParent(hs, j); }
      }
    }
  }

  lemma StoredHeaderKeepsBlocks(hs: Headers, blocks: map<BlockHash, Block>, hash: Header -> BlockHash, h: Header)
    requires Keyed(hs, hash) && Injective(hash) && BlocksStored(hs, blocks)
    ensures BlocksStored(hs[hash(h) := h], blocks)
  {
    assert hash(h) in hs ==> hash(hs[hash(h)]) == hash(h) && hs[hash(h)] == h;
    forall k | k in blocks
      ensures BlockStored(hs[hash(h) := h], blocks, k)
    {
      assert BlockStored(hs, blocks, k);
    }
  }

  lemma StoredBlockKeeps(hs: Headers, blocks: map<BlockHash, Block>, hash: Header -> BlockHash, b: Block)
    requires Keyed(hs, hash) && Injective(hash) && BlocksStored(hs, blocks) && b.header.previous in blocks
    ensures BlocksStored(hs[hash(b.header) := b.header], blocks[hash(b.header) := b])
  {
    var k := hash(b.header);
    assert k in hs ==> hash(hs[k]) == k && hs[k] == b.header;
    var hs', blocks' := hs[k := b.header], blocks[k := b];
    hide Injective, Keyed;
    forall j | j in blocks'
      ensures BlockStored(hs', blocks', j)
    {
      if j != k { assert BlockStored(hs, blocks, j); }
    }
  }

  /** A block on its way in, with the options it came with. */
  type Orphaned = (Options, Block)

  /** What decides the fate of a block: the stored headers and blocks, and the head. */
  datatype View = View(headers: Headers, blocks: map<BlockHash, Block>, head: Tip) {
    /** The block was handled lately. */
    ghost predicate Known(k: BlockHash) {
      || k == head.lastBlockH || k == head.prevBlockH
      || (k in blocks && blocks[k].header.totalDifficulty <= head.totalDifficulty)
    }

    /** The view after storing a block on a fork. */
    ghost function With(hash: Header -> BlockHash, b: Block): View {
      View(headers[hash(b.header) := b.header], blocks[hash(b.header) := b], head)
    }

    /** The view after a block became the head. */
    ghost function Headed(hash: Header -> BlockHash, b: Block): View {
      With(hash, b).(head := TipOf(hash, b.header))
    }

    /** The head is a stored block, and so is its parent. */
    ghost predicate HeadStored(hash: Header -> BlockHash) {
      && head.lastBlockH in blocks && head.lastBlockH in headers && head.prevBlockH in blocks
      && head.height == headers[head.lastBlockH].height
      && (head.height > 0 ==> head == TipOf(hash, headers[head.lastBlockH]))
    }

    /** No stored block has more work than the head; the genesis counts as 1, whatever its header says. */
    ghost predicate MostWork() {
      forall k :: k in blocks && k in headers && headers[k].height > 0 ==>
        headers[k].totalDifficulty <= head.totalDifficulty
    }
  }

  lemma IndexStable(hs: Headers, hs': Headers, index: map<nat, Header>, k: BlockHash, n: nat)
    requires Linked(hs) && Linked(hs') && k in hs && n <= hs[k].height + 1 && Indexed(hs, index, k, n)
    requires forall j :: j in hs ==> j in hs' && hs'[j] == hs[j]
    ensures Indexed(hs', index, k, n) && Ancestry(hs', k) == Ancestry(hs, k)
  {
    AncestryStable(hs, hs', k);
  }

  /** Block `k` can be applied on top of its own ancestry. */
  ghost predicate Applies(rules: Rules, hs: Headers, blocks: map<BlockHash, Block>, k: BlockHash)
    requires Linked(hs)
  {
    k in blocks && HasParent(hs, k) ==> rules.applies(Ancestry(hs, hs[k].previous), blocks[k])
  }

  ghost predicate BlocksApply(rules: Rules, hs: Headers, blocks: map<BlockHash, Block>)
    requires Linked(hs)
  {
    forall k {:trigger Applies(rules, hs, blocks, k)} :: Applies(rules, hs, blocks, k)
  }

  /** By the fixed predicate `applies`, a new block that applies, or a header alone, leaves every stored block applicable. */
  lemma StoringKeepsApplied(rules: Rules, hs: Headers, hs': Headers, blocks: map<BlockHash, Block>, blocks': map<BlockHash, Block>, k: BlockHash)
    requires Linked(hs) && Linked(hs') && BlocksStored(hs, blocks) && BlocksApply(rules, hs, blocks)
    requires forall j :: j in hs ==> j in hs' && hs'[j] == hs[j]
    requires forall j :: j in blocks' && j != k ==> j in blocks && blocks'[j] == blocks[j]
    requires Applies(rules, hs', blocks', k)
    ensures BlocksApply(rules, hs', blocks')
  {
    hide Linked, Ancestry;
    forall j
      ensures Applies(rules, hs', blocks', j)
    {
      if j in blocks' && j != k && HasParent(hs', j) {
        assert BlockStored(hs, blocks, j) && Applies(rules, hs, blocks, j);
        if hs[j].height > 0 { ParentStored(hs, j); AncestryStable(hs, hs', hs[j].previous); }
      }
    }
  }

  lemma ParentStored(hs: Headers, k: BlockHash)
    requires Linked(hs) && k in hs && hs[k].height > 0
    ensures HasParent(hs, k)
  {
  }

  /** Headers and blocks are linked, hashes do not collide, and times increase except in automated tests. */
  ghost predicate SoundStore(hash: Header -> BlockHash, rules: Rules, hs: Headers, blocks: map<BlockHash, Block>) {
    && Linked(hs) && Keyed(hs, hash) && BlocksStored(hs, blocks) && Injective(hash)
    && (!rules.automatedTesting ==> TimesIncrease(hs)) && BlocksApply(rules, hs, blocks)
  }

  /** The index of heights and the list of applied blocks follow the chain of the head. */
  ghost predicate SoundHead(hash: Header -> BlockHash, v: View, index: map<nat, Header>, applied: seq<BlockHash>)
    requires Linked(v.headers)
  {
    && v.HeadStored(hash)
    && Indexed(v.headers, index, v.head.lastBlockH, v.head.height + 1)
    && applied == Ancestry(v.headers, v.head.lastBlockH)
  }

  lemma StoredApplies(hash: Header -> BlockHash, rules: Rules, v: View, b: Block, withBlock: bool)
    requires Linked(v.headers) && Keyed(v.headers, hash) && Injective(hash) && BlocksStored(v.headers, v.blocks)
    requires BlocksApply(rules, v.headers, v.blocks)
    requires b.header.previous in v.headers && b.header.height == v.headers[b.header.previous].height + 1
    requires withBlock ==> rules.applies(Ancestry(v.headers, b.header.previous), b)
    ensures var v' := if withBlock then v.With(hash, b) else v.(headers := v.headers[hash(b.header) := b.header]);
      Linked(v'.headers) && BlocksApply(rules, v'.headers, v'.blocks)
  {
    hide BlocksApply;
    var h := b.header;
    var v' := if withBlock then v.With(hash, b) else v.(headers := v.headers[hash(h) := h]);
    StoredHeaderKeeps(v.headers, hash, h);
    AncestryStable(v.headers, v'.headers, h.previous);
    if withBlock {
      StoringKeepsApplied(rules, v.headers, v'.headers, v.blocks, v'.blocks, hash(h));
    } else {
      OldApplies(rules, v.headers, v'.headers, v.blocks, hash(h));
      StoringKeepsApplied(rules, v.headers, v'.headers, v.blocks, v'.blocks, hash(h));
    }
  }

  lemma OldApplies(rules: Rules, hs: Headers, hs': Headers, blocks: map<BlockHash, Block>, k: BlockHash)
    requires Linked(hs) && Linked(hs') && BlocksStored(hs, blocks) && BlocksApply(rules, hs, blocks)
    requires forall j :: j in hs ==> j in hs' && hs'[j] == hs[j]
    ensures Applies(rules, hs', blocks, k)
  {
    hide Linked, Ancestry;
    if k in blocks && HasParent(hs', k) {
      assert BlockStored(hs, blocks, k) && Applies(rules, hs, blocks, k);
      if hs[k].height > 0 { ParentStored(hs, k); AncestryStable(hs, hs', hs[k].previous); }
    }
  }

  /** Storing a child of a stored header, with or without its block, keeps all of it sound. */
  lemma StoringKeepsSound(hash: Header -> BlockHash, rules: Rules, v: View, index: map<nat, Header>,
                          applied: seq<BlockHash>, b: Block, withBlock: bool)
    requires SoundStore(hash, rules, v.headers, v.blocks) && SoundHead(hash, v, index, applied)
    requires b.header.previous in v.headers && b.header.height == v.headers[b.header.previous].height + 1
    requires b.header.timestamp > v.headers[b.header.previous].timestamp || rules.automatedTesting
    requires withBlock ==> b.header.previous in v.blocks && rules.applies(Ancestry(v.headers, b.header.previous), b)
    ensures var v' := if withBlock then v.With(hash, b) else v.(headers := v.headers[hash(b.header) := b.header]);
      && SoundStore(hash, rules, v'.headers, v'.blocks) && SoundHead(hash, v', index, applied)
      && Ancestry(v'.headers, hash(b.header)) == Ancestry(v.headers, b.header.previous) + [hash(b.header)]
      && Grown(v, v')
  {
    var h := b.header;
    StoredHeaderKeeps(v.headers, hash, h);
    if withBlock { StoredBlockKeeps(v.headers, v.blocks, hash, b); } else { StoredHeaderKeepsBlocks(v.headers, v.blocks, hash, h); }
    if !rules.automatedTesting { StoredHeaderKeepsTimes(v.headers, hash, h); }
    StoredApplies(hash, rules, v, b, withBlock);
    hide Keyed, Linked, BlocksStored, TimesIncrease;
    IndexStable(v.headers, v.headers[hash(h) := h], index, v.head.lastBlockH, v.head.height + 1);
    hide Indexed, Ancestry, Injective;
  }

  /** From `v` to `v'` nothing stored was lost, and the head changed only for more work. */
  ghost predicate Grown(v: View, v': View) {
    && (forall k :: k in v.headers ==> k in v'.headers && v'.headers[k] == v.headers[k])
    && v.blocks.Keys <= v'.blocks.Keys
    && (v'.head == v.head || (v'.head.totalDifficulty > v.head.totalDifficulty && v'.head.height > 0))
  }

  /** A header alone adds no block, so the head keeps the most work. */
  lemma HeaderKeepsMostWork(v: View, v': View)
    requires BlocksStored(v.headers, v.blocks) && Grown(v, v') && v'.blocks == v.blocks && v'.head == v.head && v.MostWork()
    ensures v'.MostWork()
  {
    forall k | k in v'.blocks
      ensures k in v.headers && v'.headers[k] == v.headers[k]
    {
      assert BlockStored(v.headers, v.blocks, k);
    }
  }

  /** The rules as they apply at one time. */
  datatype Judge = Judge(hash: Header -> BlockHash, rules: Rules, now: nat) {
    /** Everything a header must satisfy, whatever the head. */
    ghost predicate HeaderFits(hs: Headers, h: Header, opts: Options)
      requires Linked(hs)
    {
      && ValidHeaderVersion(h.height, h.version)
      && h.timestamp <= now + 12 * BLOCK_TIME_SEC
      && h.previous in hs
      && var prev := hs[h.previous];
      && h.height == prev.height + 1
      && (h.timestamp > prev.timestamp || rules.automatedTesting)
      && (!opts.skipPow ==>
          && rules.powValid(h)
          && h.difficulty >= MINIMUM_DIFFICULTY
          && h.totalDifficulty == prev.totalDifficulty + rules.powDifficulty(prev)
          && RequiredAfter(hs, h.previous).Ok?
          && h.difficulty >= RequiredAfter(hs, h.previous).value)
    }

    ghost predicate HeaderAcceptable(hs: Headers, h: Header, headHeight: nat, opts: Options)
      requires Linked(hs)
    {
      h.height <= headHeight + 1 && HeaderFits(hs, h, opts)
    }

    ghost predicate ContentFits(hs: Headers, b: Block)
      requires Linked(hs) && b.header.previous in hs
    {
      && rules.contentValid(b) && rules.applies(Ancestry(hs, b.header.previous), b) && rules.inputsMature(b)
      && rules.rootsMatch(Ancestry(hs, b.header.previous) + [hash(b.header)], b)
    }

    /** The block gets stored: its header and its content are good, and so is its place in the chain. */
    ghost predicate Acceptable(v: View, o: Orphaned)
      requires Linked(v.headers)
    {
      var (opts, b) := o;
      && !v.Known(hash(b.header))
      && HeaderAcceptable(v.headers, b.header, v.head.height, opts)
      && b.header.previous in v.blocks && b.header.previous in v.headers
      && ContentFits(v.headers, b)
    }

    /** The block is too high for the head, or its parent has not been stored yet. */
    ghost predicate IsOrphan(v: View, o: Orphaned)
      requires Linked(v.headers)
    {
      var (opts, b) := o;
      && !v.Known(hash(b.header))
      && (b.header.height > v.head.height + 1
          || (HeaderAcceptable(v.headers, b.header, v.head.height, opts) && b.header.previous !in v.blocks))
    }

    /** An orphan goes to the queue, unless it is too far ahead. */
    ghost predicate Waits(v: View, o: Orphaned)
      requires Linked(v.headers)
    {
      IsOrphan(v, o) && o.1.header.height < v.head.height + MAX_ORPHANS
    }

    /** What holds of the view in every state that the pipeline reaches. */
    ghost predicate Good(v: View) {
      && Linked(v.headers) && Keyed(v.headers, hash) && Injective(hash) && BlocksStored(v.headers, v.blocks)
      && v.HeadStored(hash) && v.MostWork()
    }
  }

  /** A stored block is known, and a known block is stored; the genesis alone may go unrecognised. */
  lemma KnownIffStored(j: Judge, v: View, k: BlockHash)
    requires j.Good(v)
    requires k in v.headers ==> v.headers[k].height > 0
    ensures v.Known(k) <==> k in v.blocks
  {
    if k in v.blocks { assert BlockStored(v.headers, v.blocks, k); }
  }

  /** Storing an acceptable block keeps the view good, whether or not it becomes the head. */
  lemma StoringKeeps(j: Judge, v: View, o: Orphaned)
    requires j.Good(v) && j.Acceptable(v, o)
    ensures var v' := if o.1.header.totalDifficulty > v.head.totalDifficulty then v.Headed(j.hash, o.1) else v.With(j.hash, o.1);
      j.Good(v') && Grown(v, v')
  {
    hide Injective, Keyed, Linked, BlocksStored, Ancestry, RequiredAfter;
    var b := o.1;
    StoredHeaderKeeps(v.headers, j.hash, b.header);
    StoredBlockKeeps(v.headers, v.blocks, j.hash, b);
  }

  /** Storing other blocks spoils no good header, and as long as `applies` and `inputsMature` are fixed predicates, it
      changes nothing about the content of a block either. (In the trees both also depend on indexes of outputs by
      commitment, which storing rewrites.) */
  lemma FitsStay(j: Judge, v: View, v': View, o: Orphaned)
    requires Linked(v.headers) && Linked(v'.headers) && Grown(v, v')
    ensures j.HeaderFits(v.headers, o.1.header, o.0) ==> j.HeaderFits(v'.headers, o.1.header, o.0)
    ensures o.1.header.previous in v.headers ==> (j.ContentFits(v'.headers, o.1) <==> j.ContentFits(v.headers, o.1))
  {
    var p := o.1.header.previous;
    if p in v.headers {
      AncestryStable(v.headers, v'.headers, p);
      HistoryStable(v.headers, v'.headers, p);
    }
  }
}
