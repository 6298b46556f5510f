/** What a block does to the pool, in terms of inputs and outputs alone. */
module PoolConflicts {
  import opened Wrappers
  import opened PoolState
  import opened PoolSweep

  /** The transaction spends an unspent chain output that the block spends, or creates an output that the block creates. */
  ghost predicate Touched(txs: map<Hash, Transaction>, utxo: set<Commitment>, b: Block, h: Hash) {
    && h in txs
    && (|| (exists c :: c in txs[h].Ins() && c in b.Ins() && c in utxo)
        || (exists c :: c in txs[h].Outs() && c in b.Outs()))
  }

  /** `h` spends an output of `g` that the chain does not have. */
  ghost predicate Depends(txs: map<Hash, Transaction>, utxo: set<Commitment>, g: Hash, h: Hash) {
    g in txs && h in txs && exists c :: c in txs[g].Outs() && c in txs[h].Ins() && c !in utxo
  }

  /** A path of dependent transactions that starts with one the block touches. */
  ghost predicate Path(txs: map<Hash, Transaction>, utxo: set<Commitment>, b: Block, path: seq<Hash>) {
    && |path| > 0 && Touched(txs, utxo, b, path[0])
    && forall i: nat :: i < |path| - 1 ==> Depends(txs, Unspent(utxo, b), path[i], path[i + 1])
  }

  /** The block touches the transaction, or one that it depends on through outputs the new chain lacks. */
  ghost predicate Doomed(txs: map<Hash, Transaction>, utxo: set<Commitment>, b: Block, h: Hash) {
    exists path: seq<Hash> :: Path(txs, utxo, b, path) && path[|path| - 1] == h
  }

  /** A transaction conflicts with the block exactly if the block touches it. */
  lemma ConflictingIffTouched(s: State, utxo: set<Commitment>, b: Block, h: Hash)
    requires Inv(s) && InSync(s, utxo)
    ensures Conflicting(s, b, h) <==> Touched(s.txs, utxo, b, h)
  {
    hide Transaction.Ins, Transaction.Outs, Block.Ins, Block.Outs, Inv;
    if Conflicting(s, b, h) { ConflictingIsTouched(s, utxo, b, h); }
    if Touched(s.txs, utxo, b, h) { TouchedIsConflicting(s, utxo, b, h); }
  }

  lemma ConflictingIsTouched(s: State, utxo: set<Commitment>, b: Block, h: Hash)
    requires Inv(s) && InSync(s, utxo) && Conflicting(s, b, h)
    ensures Touched(s.txs, utxo, b, h)
  {
    hide Transaction.Ins, Transaction.Outs, Block.Ins, Block.Outs, OutputsPartitioned, InputsPartitioned, RootsExact, Acyclic;
    if c :| c in b.Ins() && c in s.consumed && s.consumed[c].destination == Some(h) {
      assert IsExternal(s.txs, c, s.consumed[c]);
    } else if c :| c in b.Outs() && c in s.edges && s.edges[c].source == Some(h) {
      assert IsInternal(s.txs, c, s.edges[c]);
    } else {
      var c :| c in b.Outs() && c in s.available && s.available[c].source == Some(h);
      assert IsDangling(s.txs, c, s.available[c]);
    }
  }

  lemma TouchedIsConflicting(s: State, utxo: set<Commitment>, b: Block, h: Hash)
    requires Inv(s) && InSync(s, utxo) && Touched(s.txs, utxo, b, h)
    ensures Conflicting(s, b, h)
  {
    hide Transaction.Ins, Transaction.Outs, Block.Ins, Block.Outs, MapsSound, RootsExact, Acyclic;
    if c :| c in s.txs[h].Ins() && c in b.Ins() && c in utxo {
      SyncedApart(s, utxo, c);
      assert InputPlaced(s, h, c);
    } else {
      var c :| c in s.txs[h].Outs() && c in b.Outs();
      assert OutputPlaced(s, h, c);
    }
  }

  /** An orphaned child is one that depends on its parent. */
  lemma OrphanedIffDepends(s: State, utxo: set<Commitment>, g: Hash, h: Hash)
    requires Inv(s)
    requires forall c :: c in s.consumed ==> (forall k :: k in s.txs ==> c !in s.txs[k].Outs())
    ensures IsOrphanedChild(s, utxo, g, h) <==> Depends(s.txs, utxo, g, h)
  {
    hide Transaction.Ins, Transaction.Outs, RootsExact, Acyclic;
    if IsOrphanedChild(s, utxo, g, h) {
      var c :| c in s.edges && c !in utxo && s.edges[c].source == Some(g) && s.edges[c].destination == Some(h);
      assert IsInternal(s.txs, c, s.edges[c]);
    }
    if Depends(s.txs, utxo, g, h) {
      var c :| c in s.txs[g].Outs() && c in s.txs[h].Ins() && c !in utxo;
      assert OutputPlaced(s, g, c) && InputPlaced(s, h, c);
    }
  }

  /** In step with the chain, no input that the chain provides is created by the pool. */
  lemma ConsumedIsNotCreated(s: State, utxo: set<Commitment>)
    requires Inv(s) && InSync(s, utxo)
    ensures forall c :: c in s.consumed ==> (forall k :: k in s.txs ==> c !in s.txs[k].Outs())
  {
    hide Transaction.Ins, Transaction.Outs, RootsExact, Acyclic, MapsSound;
    forall c, k | c in s.consumed && k in s.txs
      ensures c !in s.txs[k].Outs()
    {
      SyncedApart(s, utxo, c);
      assert c in s.txs[k].Outs() ==> OutputPlaced(s, k, c);
    }
  }

  lemma {:induction false} PathIsMarked(s: State, utxo: set<Commitment>, b: Block, marked: set<Hash>, path: seq<Hash>, n: nat)
    requires Inv(s) && InSync(s, utxo) && IsMarking(s, Unspent(utxo, b), b, marked)
    requires Path(s.txs, utxo, b, path) && n < |path|
    ensures path[n] in marked
  {
    hide Inv, InSync, Conflicting, Touched, IsOrphanedChild, Depends;
    if n == 0 {
      ConflictingIffTouched(s, utxo, b, path[0]);
    } else {
      PathIsMarked(s, utxo, b, marked, path, n - 1);
      assert Depends(s.txs, Unspent(utxo, b), path[n - 1], path[n - 1 + 1]);
      ConsumedIsNotCreated(s, utxo);
      OrphanedIffDepends(s, Unspent(utxo, b), path[n - 1], path[n]);
    }
  }

  lemma DoomedGoesOn(txs: map<Hash, Transaction>, utxo: set<Commitment>, b: Block, g: Hash, h: Hash)
    requires Doomed(txs, utxo, b, g) && Depends(txs, Unspent(utxo, b), g, h)
    ensures Doomed(txs, utxo, b, h)
  {
    hide Touched, Depends;
    var path: seq<Hash> :| Path(txs, utxo, b, path) && path[|path| - 1] == g;
    var longer := path + [h];
    forall i: nat | i < |longer| - 1
      ensures Depends(txs, Unspent(utxo, b), longer[i], longer[i + 1])
    {
      assert i < |path| - 1 ==> Depends(txs, Unspent(utxo, b), path[i], path[i + 1]);
    }
    assert Path(txs, utxo, b, longer);
  }

  lemma TouchedIsDoomed(txs: map<Hash, Transaction>, utxo: set<Commitment>, b: Block, h: Hash)
    requires Touched(txs, utxo, b, h)
    ensures Doomed(txs, utxo, b, h)
  {
    assert Path(txs, utxo, b, [h]);
  }

  lemma DoomedIsKnown(txs: map<Hash, Transaction>, utxo: set<Commitment>, b: Block, h: Hash)
    requires Doomed(txs, utxo, b, h)
    ensures h in txs
  {
    var path: seq<Hash> :| Path(txs, utxo, b, path) && path[|path| - 1] == h;
    if |path| > 1 { assert Depends(txs, Unspent(utxo, b), path[|path| - 2], path[|path| - 2 + 1]); }
  }

  /** The least marking is exactly the set of the doomed. */
  lemma MarkedIffDoomed(s: State, utxo: set<Commitment>, b: Block, marked: set<Hash>, h: Hash)
    requires Inv(s) && InSync(s, utxo) && IsMarking(s, Unspent(utxo, b), b, marked)
    ensures h in marked <==> Doomed(s.txs, utxo, b, h)
  {
    hide Inv, InSync, Conflicting, Touched, IsOrphanedChild, Depends;
    if Doomed(s.txs, utxo, b, h) {
      var path: seq<Hash> :| Path(s.txs, utxo, b, path) && path[|path| - 1] == h;
      PathIsMarked(s, utxo, b, marked, path, |path| - 1);
    }
    var doomed := set k | k in s.txs && Doomed(s.txs, utxo, b, k);
    forall k | Conflicting(s, b, k)
      ensures k in doomed
    {
      ConflictingIffTouched(s, utxo, b, k);
      TouchedIsDoomed(s.txs, utxo, b, k);
      DoomedIsKnown(s.txs, utxo, b, k);
    }
    forall g, k | g in doomed && IsOrphanedChild(s, Unspent(utxo, b), g, k)
      ensures k in doomed
    {
      ConsumedIsNotCreated(s, utxo);
      OrphanedIffDepends(s, Unspent(utxo, b), g, k);
      DoomedGoesOn(s.txs, utxo, b, g, k);
      DoomedIsKnown(s.txs, utxo, b, k);
    }
    assert MarkClosed(s, Unspent(utxo, b), doomed);
  }

  /** A transaction stays in the pool exactly if it is not doomed. */
  lemma SurvivesIff(s: State, utxo: set<Commitment>, b: Block, marked: set<Hash>, h: Hash)
    requires Inv(s) && InSync(s, utxo) && IsMarking(s, Unspent(utxo, b), b, marked)
    ensures h in Swept(s, marked).txs <==> h in s.txs && !Doomed(s.txs, utxo, b, h)
    ensures h in Swept(s, marked).txs ==> Swept(s, marked).txs[h] == s.txs[h]
  {
    hide Inv, InSync, IsMarking, Swept, Doomed;
    MarkedIffDoomed(s, utxo, b, marked, h);
    SweptTransactions(s, marked);
  }

  lemma SurvivorsAre(s: State, utxo: set<Commitment>, b: Block, marked: set<Hash>)
    requires Inv(s) && InSync(s, utxo) && IsMarking(s, Unspent(utxo, b), b, marked)
    ensures forall h :: h in marked <==> Doomed(s.txs, utxo, b, h)
    ensures forall h :: h in marked ==> h in s.txs
    ensures forall h :: h in Swept(s, marked).txs <==> h in s.txs && !Doomed(s.txs, utxo, b, h)
    ensures forall h :: h in Swept(s, marked).txs ==> Swept(s, marked).txs[h] == s.txs[h]
  {
    hide Inv, InSync, IsMarking, Swept, Doomed;
    forall h
      ensures h in marked <==> Doomed(s.txs, utxo, b, h)
      ensures h in marked ==> h in s.txs
      ensures h in Swept(s, marked).txs <==> h in s.txs && !Doomed(s.txs, utxo, b, h)
      ensures h in Swept(s, marked).txs ==> Swept(s, marked).txs[h] == s.txs[h]
    {
      MarkedIffDoomed(s, utxo, b, marked, h);
      SurvivesIff(s, utxo, b, marked, h);
      if h in marked { DoomedIsKnown(s.txs, utxo, b, h); }
    }
  }
}
