/** Block headers linked by hash, the ancestry they make, and the index of headers by height. */
module ChainModel {
  datatype BlockHash = BlockHash(id: nat)

  datatype Header = Header(
    height: nat,
    previous: BlockHash,
    version: nat,
    timestamp: nat,
    difficulty: nat,
    totalDifficulty: nat,
    nonce: nat)

  datatype Block = Block(header: Header, body: nat)

  datatype Tip = Tip(height: nat, lastBlockH: BlockHash, prevBlockH: BlockHash, totalDifficulty: nat)

  type Headers = map<BlockHash, Header>

  ghost predicate HasParent(hs: Headers, k: BlockHash) {
    k in hs && hs[k].previous in hs && hs[hs[k].previous].height + 1 == hs[k].height
  }

  /** Every stored header is one above a stored header, down to the one genesis. */
  ghost predicate Linked(hs: Headers) {
    && (forall k {:trigger HasParent(hs, k)} :: k in hs && hs[k].height > 0 ==> HasParent(hs, k))
    && (forall j, k :: j in hs && k in hs && hs[j].height == 0 && hs[k].height == 0 ==> j == k)
  }

  /** The chain that leads from the genesis to block `k`, in order. */
  ghost function Ancestry(hs: Headers, k: BlockHash): (c: seq<BlockHash>)
    requires Linked(hs) && k in hs
    ensures |c| == hs[k].height + 1 && c[|c| - 1] == k
    decreases hs[k].height
  {
    if hs[k].height == 0 then [k] else (assert HasParent(hs, k); Ancestry(hs, hs[k].previous) + [k])
  }

  /** The ancestry holds one stored header at each height, and starts with each one's own ancestry. */
  lemma {:induction false} AncestorAt(hs: Headers, k: BlockHash, i: nat)
    requires Linked(hs) && k in hs && i <= hs[k].height
    ensures var a := Ancestry(hs, k)[i];
      a in hs && hs[a].height == i && Ancestry(hs, a) == Ancestry(hs, k)[..i + 1]
    decreases hs[k].height
  {
    if i < hs[k].height {
      assert HasParent(hs, k);
      AncestorAt(hs, hs[k].previous, i);
      assert Ancestry(hs, k)[..i + 1] == Ancestry(hs, hs[k].previous)[..i + 1];
    } else {
      assert Ancestry(hs, k)[..i + 1] == Ancestry(hs, k);
    }
  }

  /** Adding headers changes no ancestry. */
  lemma {:induction false} AncestryStable(hs: Headers, hs': Headers, k: BlockHash)
    requires Linked(hs) && Linked(hs') && k in hs
    requires forall j :: j in hs ==> j in hs' && hs'[j] == hs[j]
    ensures Ancestry(hs', k) == Ancestry(hs, k)
    decreases hs[k].height
  {
    if hs[k].height > 0 {
      assert HasParent(hs, k) && HasParent(hs', k);
      AncestryStable(hs, hs', hs[k].previous);
    }
  }

  lemma GenesisIsCommon(hs: Headers, j: BlockHash, k: BlockHash)
    requires Linked(hs) && j in hs && k in hs
    ensures Ancestry(hs, j)[0] == Ancestry(hs, k)[0]
  {
    AncestorAt(hs, j, 0);
    AncestorAt(hs, k, 0);
  }

  // ---------------------------------------------------------------- the height index

  /** Below height `n`, the index holds the headers of `k`'s ancestors. */
  ghost predicate Indexed(hs: Headers, index: map<nat, Header>, k: BlockHash, n: nat)
    requires Linked(hs) && k in hs && n <= hs[k].height + 1
  {
    forall i: nat :: i < n ==> i in index && Ancestry(hs, k)[i] in hs && index[i] == hs[Ancestry(hs, k)[i]]
  }

  ghost predicate Keyed(hs: Headers, hash: Header -> BlockHash) {
    forall k :: k in hs ==> hash(hs[k]) == k
  }

  /** A header that the index confirms, at a height the head covers, is an ancestor of the head. */
  lemma OnChainIsAncestor(hs: Headers, index: map<nat, Header>, hash: Header -> BlockHash, head: BlockHash, n: nat, k: BlockHash)
    requires Linked(hs) && Keyed(hs, hash) && head in hs && k in hs
    requires n <= hs[head].height + 1 && hs[k].height < n && Indexed(hs, index, head, n)
    ensures hash(index[hs[k].height]) == k <==> Ancestry(hs, head)[hs[k].height] == k
    ensures hash(index[hs[k].height]) == k ==> Ancestry(hs, k) == Ancestry(hs, head)[..hs[k].height + 1]
  {
    AncestorAt(hs, head, hs[k].height);
  }

  /** An index that covers the ancestors of the parent covers those of the child, once it is entered. */
  lemma IndexExtends(hs: Headers, index: map<nat, Header>, k: BlockHash)
    requires Linked(hs) && HasParent(hs, k)
    requires Indexed(hs, index, hs[k].previous, hs[k].height)
    requires hs[k].height in index && index[hs[k].height] == hs[k]
    ensures Indexed(hs, index, k, hs[k].height + 1)
  {
  }

  /** The index of the head serves each of the head's ancestors as well. */
  lemma IndexOfAncestor(hs: Headers, index: map<nat, Header>, head: BlockHash, n: nat, k: BlockHash)
    requires Linked(hs) && head in hs && k in hs && n <= hs[head].height + 1 && Indexed(hs, index, head, n)
    requires hs[k].height < n && Ancestry(hs, head)[hs[k].height] == k
    ensures Indexed(hs, index, k, hs[k].height + 1)
  {
    AncestorAt(hs, head, hs[k].height);
  }

  // ---------------------------------------------------------------- forks

  /** `f` is the highest common ancestor of `j` and `k`. */
  ghost predicate IsForkPoint(hs: Headers, j: BlockHash, k: BlockHash, f: BlockHash)
    requires Linked(hs) && j in hs && k in hs
  {
    && f in Ancestry(hs, j) && f in Ancestry(hs, k)
    && forall g :: g in Ancestry(hs, j) && g in Ancestry(hs, k) ==> g in hs && f in hs && hs[g].height <= hs[f].height
  }
}
