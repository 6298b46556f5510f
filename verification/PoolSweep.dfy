/** Mark and sweep: what a block does to the pool. */
module PoolSweep {
  import opened Wrappers
  import opened PoolState

  /** `h` is one of the marked transactions, and has not been removed yet. */
  ghost predicate Sweeping(s: State, marked: set<Hash>, done: set<Hash>, h: Hash) {
    Inv(s) && done <= marked <= s.txs.Keys && h in marked && h !in done
  }

  /** Which edges lead to and from the transaction `h`. */
  lemma EdgesOf(s: State, h: Hash, c: Commitment)
    requires Inv(s) && h in s.txs
    ensures c in s.edges ==>
            && (c in s.txs[h].Ins() <==> s.edges[c].destination == Some(h))
            && (c in s.txs[h].Outs() <==> s.edges[c].source == Some(h))
            && IsInternal(s.txs, c, s.edges[c])
    ensures c in s.available ==>
            && (c in s.txs[h].Outs() <==> s.available[c].source == Some(h))
            && c !in s.edges && IsDangling(s.txs, c, s.available[c])
    ensures c in s.consumed ==>
            && (c in s.txs[h].Ins() <==> s.consumed[c].destination == Some(h))
            && c !in s.edges && IsExternal(s.txs, c, s.consumed[c])
  {
    hide Transaction.Ins, Transaction.Outs;
    if c in s.txs[h].Ins() { assert InputPlaced(s, h, c); }
    if c in s.txs[h].Outs() { assert OutputPlaced(s, h, c); }
    if c in s.edges { EdgeIsPlaced(s, c); }
    if c in s.available { assert IsDangling(s.txs, c, s.available[c]); }
    if c in s.consumed { assert IsExternal(s.txs, c, s.consumed[c]); }
  }

  lemma RemoveStepEdge(s: State, marked: set<Hash>, done: set<Hash>, h: Hash, c: Commitment)
    requires Sweeping(s, marked, done, h)
    ensures var a, b := Removed(PartSwept(s, marked, done), s.txs[h], marked), PartSwept(s, marked, done + {h});
      (c in a.edges <==> c in b.edges) && (c in a.edges ==> a.edges[c] == b.edges[c])
  {
    hide Transaction.Ins, Transaction.Outs, Inv;
    EdgesOf(s, h, c);
  }

  lemma RemoveStepAvailable(s: State, marked: set<Hash>, done: set<Hash>, h: Hash, c: Commitment)
    requires Sweeping(s, marked, done, h)
    ensures var a, b := Removed(PartSwept(s, marked, done), s.txs[h], marked), PartSwept(s, marked, done + {h});
      (c in a.available <==> c in b.available) && (c in a.available ==> a.available[c] == b.available[c])
  {
    hide Transaction.Ins, Transaction.Outs, Inv;
    EdgesOf(s, h, c);
  }

  lemma RemoveStepConsumed(s: State, marked: set<Hash>, done: set<Hash>, h: Hash, c: Commitment)
    requires Sweeping(s, marked, done, h)
    ensures var a, b := Removed(PartSwept(s, marked, done), s.txs[h], marked), PartSwept(s, marked, done + {h});
      (c in a.consumed <==> c in b.consumed) && (c in a.consumed ==> a.consumed[c] == b.consumed[c])
  {
    hide Transaction.Ins, Transaction.Outs, Inv;
    EdgesOf(s, h, c);
  }

  lemma RemoveStepMaps(s: State, marked: set<Hash>, done: set<Hash>, h: Hash)
    requires Sweeping(s, marked, done, h)
    ensures var a, b := Removed(PartSwept(s, marked, done), s.txs[h], marked), PartSwept(s, marked, done + {h});
      a.edges == b.edges && a.available == b.available && a.consumed == b.consumed
  {
    hide Removed, PartSwept, Inv;
    var a, b := Removed(PartSwept(s, marked, done), s.txs[h], marked), PartSwept(s, marked, done + {h});
    forall c
      ensures (c in a.edges <==> c in b.edges) && (c in a.edges ==> a.edges[c] == b.edges[c])
      ensures (c in a.available <==> c in b.available) && (c in a.available ==> a.available[c] == b.available[c])
      ensures (c in a.consumed <==> c in b.consumed) && (c in a.consumed ==> a.consumed[c] == b.consumed[c])
    {
      RemoveStepEdge(s, marked, done, h, c);
      RemoveStepAvailable(s, marked, done, h, c);
      RemoveStepConsumed(s, marked, done, h, c);
    }
    assert a.edges == b.edges;
    assert a.available == b.available;
    assert a.consumed == b.consumed;
  }

  /** Removing one more marked transaction: the partial sweep grows by it, whatever the order. */
  lemma RemoveStep(s: State, marked: set<Hash>, done: set<Hash>, h: Hash)
    requires Sweeping(s, marked, done, h)
    ensures Removed(PartSwept(s, marked, done), s.txs[h], marked) == PartSwept(s, marked, done + {h})
  {
    hide Transaction.Ins, Transaction.Outs, From, To;
    RemoveStepMaps(s, marked, done, h);
    KeyedAt(s, h);
    hide Inv;
    assert s.txs - done - {h} == s.txs - (done + {h});
  }

  lemma KeyedAt(s: State, h: Hash)
    requires Inv(s) && h in s.txs
    ensures s.txs[h].hash == h
  {
  }

  lemma NothingSwept(s: State, marked: set<Hash>)
    requires Inv(s)
    ensures PartSwept(s, marked, {}) == s
  {
    hide Transaction.Ins, Transaction.Outs, Inv;
    var a := PartSwept(s, marked, {});
    assert a.edges == s.edges && a.available == s.available && a.consumed == s.consumed && a.txs == s.txs;
  }

  // ---------------------------------------------------------------- the swept pool

  /** Where a commitment of the old pool ends up. */
  lemma SweptAt(s: State, marked: set<Hash>, c: Commitment)
    requires Inv(s)
    ensures var w := Swept(s, marked);
      && (c in w.edges <==> c in s.edges && !From(s.edges[c], marked) && !To(s.edges[c], marked))
      && (c in w.edges ==> w.edges[c] == s.edges[c])
      && (c in w.available <==>
            || (c in s.available && !From(s.available[c], marked))
            || (c in s.edges && !From(s.edges[c], marked) && To(s.edges[c], marked)))
      && (c in w.available ==>
            w.available[c] == if c in s.edges then s.edges[c].(destination := None) else s.available[c])
      && (c in w.consumed <==>
            || (c in s.consumed && !To(s.consumed[c], marked))
            || (c in s.edges && From(s.edges[c], marked) && !To(s.edges[c], marked)))
      && (c in w.consumed ==>
            w.consumed[c] == if c in s.edges then s.edges[c].(source := None) else s.consumed[c])
  {
    hide HasParent, Acyclic;
    if c in s.edges { EdgeIsPlaced(s, c); }
  }

  lemma SweptTransactions(s: State, marked: set<Hash>)
    ensures Swept(s, marked).txs == s.txs - marked
  {
  }

  lemma SweptSoundAt(s: State, marked: set<Hash>, c: Commitment)
    requires Inv(s)
    ensures var w := Swept(s, marked);
      && w.txs == s.txs - marked
      && (c in w.edges ==> IsInternal(w.txs, c, w.edges[c]))
      && (c in w.available ==> IsDangling(w.txs, c, w.available[c]))
      && (c in w.consumed ==> IsExternal(w.txs, c, w.consumed[c]))
  {
    hide Swept, Transaction.Ins, Transaction.Outs, RootsExact, Acyclic, Keyed;
    SweptTransactions(s, marked);
    SweptAt(s, marked, c);
    if c in s.edges { EdgeIsPlaced(s, c); }
    if c in s.available { assert IsDangling(s.txs, c, s.available[c]); }
    if c in s.consumed { assert IsExternal(s.txs, c, s.consumed[c]); }
  }

  lemma SweptMapsSound(s: State, marked: set<Hash>)
    requires Inv(s)
    ensures MapsSound(Swept(s, marked))
  {
    var w := Swept(s, marked);
    hide Swept, Inv, IsInternal, IsDangling, IsExternal;
    forall c | c in w.edges ensures IsInternal(w.txs, c, w.edges[c]) { SweptSoundAt(s, marked, c); }
    forall c | c in w.available ensures IsDangling(w.txs, c, w.available[c]) { SweptSoundAt(s, marked, c); }
    forall c | c in w.consumed ensures IsExternal(w.txs, c, w.consumed[c]) { SweptSoundAt(s, marked, c); }
  }

  lemma SweptPartitioned(s: State, marked: set<Hash>)
    requires Inv(s)
    ensures OutputsPartitioned(Swept(s, marked)) && InputsPartitioned(Swept(s, marked))
  {
    var w := Swept(s, marked);
    assert w.txs == s.txs - marked;
    hide Swept, Transaction.Ins, Transaction.Outs;
    forall h: Hash, c: Commitment | h in w.txs && c in w.txs[h].Outs()
      ensures OutputPlaced(w, h, c)
    {
      SweptAt(s, marked, c);
      EdgesOf(s, h, c);
      assert OutputPlaced(s, h, c);
    }
    forall h: Hash, c: Commitment | h in w.txs && c in w.txs[h].Ins()
      ensures InputPlaced(w, h, c)
    {
      SweptAt(s, marked, c);
      EdgesOf(s, h, c);
      assert InputPlaced(s, h, c);
    }
  }

  lemma SweptRootsExact(s: State, marked: set<Hash>)
    requires Inv(s) && marked <= s.txs.Keys
    ensures RootsExact(Swept(s, marked))
  {
    var p, w := PartSwept(s, marked, marked), Swept(s, marked);
    assert p.edges == w.edges;
    forall h
      ensures HasParent(w.edges, h) ==> HasParent(s.edges, h)
    {
      SweptParents(s, marked, h);
    }
  }

  lemma SweptParents(s: State, marked: set<Hash>, h: Hash)
    requires Inv(s)
    ensures HasParent(Swept(s, marked).edges, h) ==> HasParent(s.edges, h)
  {
    if HasParent(Swept(s, marked).edges, h) {
      var c :| c in Swept(s, marked).edges && Swept(s, marked).edges[c].destination == Some(h);
      SweptAt(s, marked, c);
    }
  }

  lemma SweptAcyclic(s: State, marked: set<Hash>)
    requires Inv(s)
    ensures Acyclic(Swept(s, marked).edges)
  {
    var w := Swept(s, marked);
    hide Swept;
    var rank :| RanksUp(s.edges, rank);
    forall c | c in w.edges
      ensures RankedEdge(rank, w.edges[c])
    {
      SweptAt(s, marked, c);
      assert RankedEdge(rank, s.edges[c]);
    }
    assert RanksUp(w.edges, rank);
  }

  /** After the block, survivors spend only what the chain or another survivor still offers. */
  lemma SweptInSync(s: State, utxo: set<Commitment>, b: Block, marked: set<Hash>)
    requires Inv(s) && InSync(s, utxo) && IsMarking(s, Unspent(utxo, b), b, marked)
    ensures InSync(Swept(s, marked), Unspent(utxo, b))
  {
    var w := Swept(s, marked);
    var utxo' := Unspent(utxo, b);
    hide Swept, Block.Ins, Block.Outs;
    forall c | c in w.consumed
      ensures c in utxo'
    {
      SweptAt(s, marked, c);
      SyncedApart(s, utxo, c);
      if c in s.edges {
        EdgeIsPlaced(s, c);
        var parent, child := s.edges[c].source.value, s.edges[c].destination.value;
        assert c !in utxo' ==> IsOrphanedChild(s, utxo', parent, child);
      } else {
        assert IsExternal(s.txs, c, s.consumed[c]);
        var spender := s.consumed[c].destination.value;
        assert c in b.Ins() ==> Conflicting(s, b, spender);
      }
    }
    forall c | c in w.edges || c in w.available
      ensures c !in utxo'
    {
      SweptAt(s, marked, c);
      SyncedApart(s, utxo, c);
      if c in s.edges {
        EdgeIsPlaced(s, c);
        var creator := s.edges[c].source.value;
        assert c in b.Outs() ==> Conflicting(s, b, creator);
      } else {
        assert IsDangling(s.txs, c, s.available[c]);
        var creator := s.available[c].source.value;
        assert c in b.Outs() ==> Conflicting(s, b, creator);
      }
    }
  }

  /** A block, the marking it calls for and the sweep leave a sound pool in step with the chain. */
  lemma SweptIsGood(s: State, utxo: set<Commitment>, b: Block, marked: set<Hash>)
    requires Inv(s) && InSync(s, utxo) && IsMarking(s, Unspent(utxo, b), b, marked)
    ensures Inv(Swept(s, marked)) && InSync(Swept(s, marked), Unspent(utxo, b))
  {
    SweptMapsSound(s, marked);
    SweptPartitioned(s, marked);
    SweptRootsExact(s, marked);
    SweptAcyclic(s, marked);
    SweptInSync(s, utxo, b, marked);
  }

  // ---------------------------------------------------------------- runs

  /** One event: a transaction is taken in or turned away, or the chain gains a block. */
  ghost predicate Step(s: State, utxo: set<Commitment>, s': State, utxo': set<Commitment>) {
    || (s' == s && utxo' == utxo)
    || (utxo' == utxo && exists tx :: Admissible(s, utxo, tx) && s' == Added(s, tx))
    || (exists b: Block, marked: set<Hash> ::
          utxo' == Unspent(utxo, b) && IsMarking(s, utxo', b, marked) && s' == Swept(s, marked))
  }

  datatype Moment = Moment(state: State, utxo: set<Commitment>)

  ghost predicate IsRun(run: seq<Moment>) {
    && |run| > 0 && run[0].state == EmptyState
    && forall i :: 0 <= i < |run| - 1 ==> Step(run[i].state, run[i].utxo, run[i + 1].state, run[i + 1].utxo)
  }

  lemma StepIsGood(s: State, utxo: set<Commitment>, s': State, utxo': set<Commitment>)
    requires Inv(s) && InSync(s, utxo) && Step(s, utxo, s', utxo')
    ensures Inv(s') && InSync(s', utxo')
  {
    hide Inv, InSync, IsMarking, Swept, Added;
    if s' == s && utxo' == utxo {
    } else if utxo' == utxo && exists tx :: Admissible(s, utxo, tx) && s' == Added(s, tx) {
      var tx :| Admissible(s, utxo, tx) && s' == Added(s, tx);
      AddedIsGood(s, utxo, tx);
    } else {
      var b: Block, marked: set<Hash> :|
        utxo' == Unspent(utxo, b) && IsMarking(s, utxo', b, marked) && s' == Swept(s, marked);
      SweptIsGood(s, utxo, b, marked);
    }
  }

  /** Every state that any run of the pool and the chain reaches is sound and in step. */
  lemma {:induction false} RunIsGood(run: seq<Moment>, i: nat)
    requires IsRun(run) && i < |run|
    ensures Inv(run[i].state) && InSync(run[i].state, run[i].utxo)
  {
    if i == 0 {
      EmptyIsGood(run[0].utxo);
    } else {
      RunIsGood(run, i - 1);
      StepIsGood(run[i - 1].state, run[i - 1].utxo, run[i].state, run[i].utxo);
    }
  }
}
