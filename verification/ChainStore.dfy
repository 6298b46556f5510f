/** The chain's key-value store: headers, blocks, tips and the index of headers by height. */
module ChainStore {
  import opened Wrappers
  import opened ChainModel
  import opened Consensus

  /** Headers and blocks agree, and the ancestors of a stored block are stored blocks. */
  ghost predicate BlocksStored(hs: Headers, blocks: map<BlockHash, Block>) {
    forall k {:trigger BlockStored(hs, blocks, k)} :: k in blocks ==> BlockStored(hs, blocks, k)
  }

  ghost predicate BlockStored(hs: Headers, blocks: map<BlockHash, Block>, k: BlockHash) {
    && k in blocks && k in hs && hs[k] == blocks[k].header
    && (hs[k].height > 0 ==> hs[k].previous in blocks)
  }

  lemma {:induction false} AncestorsStored(hs: Headers, blocks: map<BlockHash, Block>, k: BlockHash)
    requires Linked(hs) && BlocksStored(hs, blocks) && k in blocks && k in hs
    ensures forall a :: a in Ancestry(hs, k) ==> a in blocks
    decreases hs[k].height
  {
    assert BlockStored(hs, blocks, k);
    if hs[k].height > 0 {
      assert HasParent(hs, k);
      AncestorsStored(hs, blocks, hs[k].previous);
    }
  }

  /** Times of stored headers strictly increase from parent to child. */
  ghost predicate TimesIncrease(hs: Headers) {
    forall k {:trigger HasParent(hs, k)} :: HasParent(hs, k) ==> hs[k].timestamp > hs[hs[k].previous].timestamp
  }

  /** What the difficulty iterator yields from block `k` back to the genesis, which it leaves out. */
  ghost function History(hs: Headers, k: BlockHash): (h: seq<Sample>)
    requires Linked(hs) && k in hs
    ensures |h| == hs[k].height
    decreases hs[k].height
  {
    if hs[k].height == 0 then []
    else
      assert HasParent(hs, k);
      [Sample(hs[k].timestamp, hs[k].difficulty)] + History(hs, hs[k].previous)
  }

  /** Adding headers changes no history. */
  lemma {:induction false} HistoryStable(hs: Headers, hs': Headers, k: BlockHash)
    requires Linked(hs) && Linked(hs') && k in hs
    requires forall j :: j in hs ==> j in hs' && hs'[j] == hs[j]
    ensures History(hs', k) == History(hs, k)
    decreases hs[k].height
  {
    if hs[k].height > 0 {
      assert HasParent(hs, k) && HasParent(hs', k);
      HistoryStable(hs, hs', hs[k].previous);
    }
  }

  /** The history holds time and difficulty of the ancestors, the nearest first. */
  lemma {:induction false} HistoryAt(hs: Headers, k: BlockHash, i: nat)
    requires Linked(hs) && k in hs && i < hs[k].height
    ensures var a := Ancestry(hs, k)[hs[k].height - i];
      a in hs && History(hs, k)[i] == Sample(hs[a].timestamp, hs[a].difficulty)
    decreases hs[k].height
  {
    assert HasParent(hs, k);
    if i > 0 {
      HistoryAt(hs, hs[k].previous, i - 1);
    }
  }

  lemma {:induction false} HistoryDecreases(hs: Headers, k: BlockHash)
    requires Linked(hs) && TimesIncrease(hs) && k in hs
    ensures StrictlyDecreasing(History(hs, k))
    ensures forall i :: 0 <= i < hs[k].height ==> History(hs, k)[i].timestamp <= hs[k].timestamp
    decreases hs[k].height
  {
    if hs[k].height > 0 {
      assert HasParent(hs, k);
      HistoryDecreases(hs, hs[k].previous);
    }
  }

  lemma GenesisIndexed(hs: Headers, index: map<nat, Header>, k: BlockHash)
    requires Linked(hs) && k in hs && hs[k].height == 0 && 0 in index && index[0] == hs[k]
    ensures Indexed(hs, index, k, 1)
  {
  }

  lemma KeyedAt(hs: Headers, hash: Header -> BlockHash, k: BlockHash)
    requires Keyed(hs, hash) && k in hs
    ensures hash(hs[k]) == k
  {
  }

  lemma IndexedAt(hs: Headers, index: map<nat, Header>, hash: Header -> BlockHash, k: BlockHash, n: nat, i: nat)
    requires Linked(hs) && k in hs && n <= hs[k].height + 1 && i < n && Indexed(hs, index, k, n)
    ensures i in index
  {
  }

  lemma IndexBelow(hs: Headers, before: map<nat, Header>, after: map<nat, Header>, k: BlockHash, n: nat)
    requires Linked(hs) && k in hs && 0 < n <= hs[k].height + 1 && Indexed(hs, before, k, n)
    requires forall i: nat :: i < n ==> (i in before ==> i in after && after[i] == before[i])
    ensures Indexed(hs, after, k, n) && Indexed(hs, after, k, n - 1)
  {
  }

  class ChainKVStore {
    const hash: Header -> BlockHash
    var headers: Headers
    var blocks: map<BlockHash, Block>
    var heightIndex: map<nat, Header>
    var head: Option<Tip>
    var headerHead: Option<Tip>
    var syncHead: Option<Tip>

    constructor (hash: Header -> BlockHash)
      ensures this.hash == hash && headers == map[] && blocks == map[] && heightIndex == map[]
      ensures head == headerHead == syncHead == None
    {
      this.hash := hash;
      headers := map[];
      blocks := map[];
      heightIndex := map[];
      head, headerHead, syncHead := None, None, None;
    }

    ghost predicate Sound()
      reads this
    {
      Linked(headers) && Keyed(headers, hash) && BlocksStored(headers, blocks)
    }

    method SaveBlock(b: Block)
      modifies `headers, `blocks
      ensures headers == old(headers)[hash(b.header) := b.header]
      ensures blocks == old(blocks)[hash(b.header) := b]
    {
      blocks := blocks[hash(b.header) := b];
      headers := headers[hash(b.header) := b.header];
    }

    method SaveBlockHeader(h: Header)
      modifies `headers
      ensures headers == old(headers)[hash(h) := h]
    {
      headers := headers[hash(h) := h];
    }

    /** In sync mode only the body chain's head moves. */
    method SaveBodyHead(t: Tip)
      modifies `head
      ensures head == Some(t)
    {
      head := Some(t);
    }

    method SaveHead(t: Tip)
      modifies `head, `headerHead
      ensures head == headerHead == Some(t)
    {
      head, headerHead := Some(t), Some(t);
    }

    /** Whether the index has this very header at its height. */
    predicate IsOnCurrentChain(h: Header)
      reads this
    {
      h.height in heightIndex && hash(h) == hash(heightIndex[h.height])
    }

    /** Enters a header and its ancestors, down to the first that the index has already. */
    method SetupHeight(k: BlockHash, ghost headOf: BlockHash)
      requires Linked(headers) && Keyed(headers, hash) && k in headers && headOf in headers
      // the new block is at most one above the head
      requires headers[k].height <= headers[headOf].height + 1
      requires Indexed(headers, heightIndex, headOf, headers[k].height)
      modifies `heightIndex
      ensures Indexed(headers, heightIndex, k, headers[k].height + 1)
      ensures forall i :: i > headers[k].height ==>
        (i in heightIndex <==> i in old(heightIndex)) && (i in heightIndex ==> heightIndex[i] == old(heightIndex)[i])
      decreases headers[k].height
    {
      hide Indexed, Keyed, Ancestry;
      var header := headers[k];
      ghost var before := heightIndex;
      heightIndex := heightIndex[header.height := header];
      if header.height == 0 {
        GenesisIndexed(headers, heightIndex, k);
        return;
      }
      assert HasParent(headers, k);
      var prev := headers[header.previous];
      IndexBelow(headers, before, heightIndex, headOf, header.height);
      OnChainIsAncestor(headers, heightIndex, hash, headOf, header.height, header.previous);
      if IsOnCurrentChain(prev) {
        KeyedAt(headers, hash, header.previous);
        IndexedAt(headers, heightIndex, hash, headOf, header.height, prev.height);
        IndexOfAncestor(headers, heightIndex, headOf, header.height, header.previous);
      } else {
        SetupHeight(header.previous, headOf);
      }
      IndexExtends(headers, heightIndex, k);
    }

    /** Walks back from `previous` to the current chain, noting the blocks passed on the way. */
    method FindFork(previous: BlockHash, ghost headOf: BlockHash) returns (hashes: seq<BlockHash>, forked: BlockHash)
      requires Linked(headers) && Keyed(headers, hash) && previous in headers && headOf in headers
      requires headers[previous].height <= headers[headOf].height
      requires Indexed(headers, heightIndex, headOf, headers[headOf].height + 1)
      ensures forked in headers && Ancestry(headers, forked) + hashes == Ancestry(headers, previous)
      ensures headers[forked].height <= headers[headOf].height
      ensures Ancestry(headers, headOf)[..headers[forked].height + 1] == Ancestry(headers, forked)
      ensures IsForkPoint(headers, previous, headOf, forked)
    {
      var current := previous;
      hashes := [];
      while true
        invariant current in headers && headers[current].height <= headers[headOf].height
        invariant Ancestry(headers, current) + hashes == Ancestry(headers, previous)
        invariant forall x :: x in hashes ==> x !in Ancestry(headers, headOf)
        decreases headers[current].height
      {
        hide Indexed, Keyed;
        var header := headers[current];
        OnChainIsAncestor(headers, heightIndex, hash, headOf, headers[headOf].height + 1, current);
        if IsOnCurrentChain(header) {
          break;
        }
        NotAtItsHeight(headers, headOf, current);
        GenesisIsCommon(headers, current, headOf);
        assert header.height > 0 ==> HasParent(headers, current);
        hashes := [current] + hashes;
        current := header.previous;
      }
      forked := current;
      ForkPointFound(headers, previous, headOf, forked, hashes);
    }
  }

  /** A block that is not in a chain at its own height is not in it at all. */
  lemma NotAtItsHeight(hs: Headers, head: BlockHash, k: BlockHash)
    requires Linked(hs) && head in hs && k in hs && hs[k].height <= hs[head].height
    requires Ancestry(hs, head)[hs[k].height] != k
    ensures k !in Ancestry(hs, head)
  {
    forall i: nat | i <= hs[head].height
      ensures Ancestry(hs, head)[i] != k
    {
      AncestorAt(hs, head, i);
    }
  }

  lemma ForkPointFound(hs: Headers, j: BlockHash, head: BlockHash, f: BlockHash, hashes: seq<BlockHash>)
    requires Linked(hs) && j in hs && head in hs && f in hs && hs[f].height <= hs[head].height
    requires Ancestry(hs, f) + hashes == Ancestry(hs, j)
    requires Ancestry(hs, head)[hs[f].height] == f
    requires forall x :: x in hashes ==> x !in Ancestry(hs, head)
    ensures IsForkPoint(hs, j, head, f)
  {
    assert f == Ancestry(hs, f)[hs[f].height] == Ancestry(hs, j)[hs[f].height];
    forall g | g in Ancestry(hs, j) && g in Ancestry(hs, head)
      ensures g in hs && hs[g].height <= hs[f].height
    {
      var i :| 0 <= i < |Ancestry(hs, f)| && Ancestry(hs, f)[i] == g;
      AncestorAt(hs, f, i);
    }
  }

  /** Steps back through the headers, yielding times and difficulties. */
  class DifficultyIter {
    var next: BlockHash
    const store: ChainKVStore

    constructor (start: BlockHash, store: ChainKVStore)
      ensures next == start && this.store == store
    {
      next := start;
      this.store := store;
    }

    method Next() returns (r: Option<Result<Sample, DifficultyError>>)
      modifies `next
      ensures old(next) !in store.headers ==> r == Some(Err(TargetError)) && next == old(next)
      ensures Linked(store.headers) && old(next) in store.headers ==>
              var h := History(store.headers, old(next));
              if h == [] then r == None
              else r == Some(Ok(h[0])) && next in store.headers && h[1..] == History(store.headers, next)
    {
      if next !in store.headers {
        return Some(Err(TargetError));
      }
      var bh := store.headers[next];
      assert Linked(store.headers) && bh.height > 0 ==> HasParent(store.headers, next);
      if bh.height == 0 {
        return None;
      }
      next := bh.previous;
      return Some(Ok(Sample(bh.timestamp, bh.difficulty)));
    }
  }

  /** The difficulty that a child of block `k` must meet. */
  ghost function RequiredAfter(hs: Headers, k: BlockHash): Result<nat, DifficultyError>
    requires Linked(hs) && k in hs
  {
    Required(History(hs, k))
  }

  /** Runs the iterator for as long as the difficulty rule reads it, and applies the rule. */
  method DifficultyAfter(store: ChainKVStore, k: BlockHash) returns (r: Result<nat, DifficultyError>)
    requires Linked(store.headers) && k in store.headers
    ensures r == RequiredAfter(store.headers, k)
  {
    var iter := new DifficultyIter(k, store);
    var cursor: seq<Result<Sample, DifficultyError>> := [];
    ghost var h := History(store.headers, k);
    hide Required, Readable, Values;
    while |cursor| <= DIFFICULTY_ADJUST_WINDOW + MEDIAN_TIME_WINDOW
      invariant |cursor| <= |h| && iter.next in store.headers && iter.store == store
      invariant History(store.headers, iter.next) == h[|cursor|..]
      invariant forall i :: 0 <= i < |cursor| ==> cursor[i] == Ok(h[i])
      invariant |cursor| <= Read(|h|)
      decreases |h| - |cursor|
    {
      var item := iter.Next();
      if item.None? {
        break;
      }
      cursor := cursor + [item.value];
    }
    CursorIsHistory(cursor, h);
    r := NextDifficulty(cursor);
  }

  lemma CursorIsHistory(cursor: seq<Result<Sample, DifficultyError>>, h: seq<Sample>)
    requires |cursor| == Read(|h|) && forall i :: 0 <= i < |cursor| ==> cursor[i] == Ok(h[i])
    ensures Readable(cursor) && Read(|cursor|) == |cursor|
    ensures Required(Values(cursor, |cursor|)) == Required(h)
  {
    var v := Values(cursor, |cursor|);
    assert v == h[..|cursor|];
    assert First(v, 34) == First(h, 34);
    hide Required;
    RequiredReadsWindows(h, First(h, 34));
    RequiredReadsWindows(v, First(h, 34));
  }

  /** On a store with increasing times, the rule always gives a difficulty, within its bounds. */
  lemma StoredDifficultyBounds(hs: Headers, k: BlockHash)
    requires Linked(hs) && TimesIncrease(hs) && k in hs && LongEnough(History(hs, k))
    ensures var h := History(hs, k);
      && RequiredAfter(hs, k).Ok?
      && AtLeastMinimum(3 * Average(h) / 4) <= RequiredAfter(hs, k).value <= AtLeastMinimum(6 * Average(h) / 5)
  {
    HistoryDecreases(hs, k);
    RequiredWithinBounds(History(hs, k));
  }
}
