/** The connected part of the pool: its graph, its unspent outputs and the chain outputs it spends. */
module PoolConnected {
  import opened Wrappers
  import opened PoolState
  import opened PoolGraph

  ghost function Commits(es: seq<Edge>): set<Commitment> {
    set e | e in es :: e.output
  }

  /** The edges whose creator survives become available again when their spender goes. */
  ghost function Freed(edges: Edges, ins: set<Commitment>, marked: set<Hash>): Edges {
    map c | c in edges && c in ins && !From(edges[c], marked) :: edges[c].(destination := None)
  }

  /** The edges whose spender survives count as chain-spent when their creator goes. */
  ghost function Rerouted(edges: Edges, outs: set<Commitment>, marked: set<Hash>): Edges {
    map c | c in edges && c in outs && !To(edges[c], marked) :: edges[c].(source := None)
  }

  ghost function Upto(cs: seq<Commitment>, n: nat): set<Commitment>
    requires n <= |cs|
  {
    set c | c in cs[..n]
  }

  ghost predicate DistinctRefs(es: seq<Edge>) {
    forall i, j :: 0 <= i < j < |es| ==> es[i].output != es[j].output
  }

  lemma CommitIsNew(es: seq<Edge>, i: nat)
    requires DistinctRefs(es) && i < |es|
    ensures es[i].output in Commits(es) && es[i].output !in Commits(es[..i])
  {
    assert es[i] in es;
  }

  lemma CommitsGrow(es: seq<Edge>, i: nat)
    requires i < |es|
    ensures Commits(es[..i + 1]) == Commits(es[..i]) + {es[i].output}
    ensures ByCommitment(es[..i + 1]) == ByCommitment(es[..i])[es[i].output := es[i]]
  {
    assert es[..i + 1] == es[..i] + [es[i]];
  }

  lemma CommitsAll(es: seq<Edge>)
    ensures es[..|es|] == es && Commits([]) == {} && ByCommitment([]) == map[]
    ensures es[..0] == []
  {
  }

  function CommitmentsOf(outputs: seq<Output>): (cs: seq<Commitment>)
    ensures |cs| == |outputs|
  {
    seq(|outputs|, i requires 0 <= i < |outputs| => outputs[i].commitment)
  }

  lemma UptoGrows(cs: seq<Commitment>, n: nat)
    requires n < |cs|
    ensures Upto(cs, n + 1) == Upto(cs, n) + {cs[n]}
  {
    assert cs[..n + 1] == cs[..n] + [cs[n]];
  }

  lemma UptoAll(tx: Transaction)
    ensures Upto(tx.inputs, |tx.inputs|) == tx.Ins()
    ensures Upto(CommitmentsOf(tx.outputs), |tx.outputs|) == tx.Outs()
    ensures Upto(tx.inputs, 0) == {} && Upto(CommitmentsOf(tx.outputs), 0) == {}
    ensures forall i :: 0 <= i < |tx.outputs| ==> CommitmentsOf(tx.outputs)[i] == tx.outputs[i].commitment
  {
    assert tx.inputs[..|tx.inputs|] == tx.inputs;
    var cs := CommitmentsOf(tx.outputs);
    assert cs[..|cs|] == cs;
    forall c
      ensures c in cs <==> c in tx.Outs()
    {
      if c in tx.Outs() {
        var o :| o in tx.outputs && o.commitment == c;
        var i :| 0 <= i < |tx.outputs| && tx.outputs[i] == o;
        assert cs[i] == c;
      }
    }
  }

  /** Dropping the input `c` when the inputs `ins` are gone already. */
  lemma InputStep(edges: Edges, available: Edges, consumed: Edges, ins: set<Commitment>, c: Commitment, marked: set<Hash>)
    requires edges.Keys !! consumed.Keys
    ensures edges - ins - {c} == edges - (ins + {c})
    ensures var a := available + Freed(edges, ins, marked);
      available + Freed(edges, ins + {c}, marked) ==
      if c in edges - ins && !From(edges[c], marked) then a[c := edges[c].(destination := None)] else a
    ensures consumed - (ins + {c}) == if c in edges - ins then consumed - ins else consumed - ins - {c}
  {
  }

  lemma OutputStep(edges: Edges, available: Edges, consumed: Edges, outs: set<Commitment>, c: Commitment, marked: set<Hash>)
    requires edges.Keys !! available.Keys
    ensures edges - outs - {c} == edges - (outs + {c})
    ensures var a := consumed + Rerouted(edges, outs, marked);
      consumed + Rerouted(edges, outs + {c}, marked) ==
      if c in edges - outs && !To(edges[c], marked) then a[c := edges[c].(source := None)] else a
    ensures available - (outs + {c}) == if c in edges - outs then available - outs else available - outs - {c}
  {
  }

  ghost predicate IsFull(c: Commitment, e: Edge) {
    e.output == c && e.source.Some? && e.destination.Some?
  }

  ghost predicate FullEdges(edges: Edges) {
    forall c :: c in edges ==> IsFull(c, edges[c])
  }

  class Pool {
    const graph: DirectedGraph
    var availableOutputs: Edges
    var consumedBlockchainOutputs: Edges

    constructor Empty()
      ensures Valid() && fresh(graph) && forall txs :: txs == map[] ==> State(txs) == EmptyState
    {
      graph := new DirectedGraph.Empty();
      availableOutputs := map[];
      consumedBlockchainOutputs := map[];
    }

    ghost predicate Valid()
      reads this, graph
    {
      graph.Valid()
    }

    /** The pool's content, given the transactions that belong to it. */
    ghost function State(txs: map<Hash, Transaction>): State
      reads this, graph
    {
      PoolState.State(txs, graph.edges, availableOutputs, consumedBlockchainOutputs, graph.Roots(), graph.Inner())
    }

    /** The pool transaction that creates `c`, spent or not. */
    function FindOutput(c: Commitment): Option<Hash>
      reads this, graph
    {
      if c in availableOutputs then availableOutputs[c].source
      else if c in graph.edges then graph.edges[c].source
      else None
    }

    /** In a sound pool, the search names the one transaction that creates the output. */
    lemma FindOutputIsCreator(txs: map<Hash, Transaction>, c: Commitment, h: Hash)
      requires Valid() && Inv(State(txs))
      ensures FindOutput(c) == Some(h) <==> h in txs && c in txs[h].Outs()
    {
      hide Transaction.Ins, Transaction.Outs;
      var s := State(txs);
      if h in txs && c in txs[h].Outs() { assert OutputPlaced(s, h, c); }
      if c in s.edges { EdgeIsPlaced(s, c); }
      if c in s.available { assert IsDangling(s.txs, c, s.available[c]); }
    }

    /** Every reference of `poolRefs` must use up one available output, as the source asserts. */
    method AddPoolTransaction(entry: PoolEntry, blockchainRefs: seq<Edge>, poolRefs: seq<Edge>, newUnspents: seq<Edge>)
      requires Valid() && entry.transactionHash !in graph.Roots() + graph.Inner()
      requires DistinctRefs(poolRefs)
      requires Commits(poolRefs) <= availableOutputs.Keys
      modifies this, graph
      ensures Valid()
      ensures availableOutputs == old(availableOutputs) - Commits(poolRefs) + ByCommitment(newUnspents)
      ensures consumedBlockchainOutputs == old(consumedBlockchainOutputs) + ByCommitment(blockchainRefs)
      ensures graph.edges == old(graph.edges) + ByCommitment(poolRefs)
      ensures graph.Roots() == if poolRefs == [] then old(graph.Roots()) + {entry.transactionHash} else old(graph.Roots())
      ensures graph.Inner() == if poolRefs == [] then old(graph.Inner()) else old(graph.Inner()) + {entry.transactionHash}
    {
      TakeReferences(blockchainRefs, poolRefs);
      graph.AddEntry(entry, poolRefs);
      OfferOutputs(newUnspents);
    }

    method TakeReferences(blockchainRefs: seq<Edge>, poolRefs: seq<Edge>)
      requires DistinctRefs(poolRefs) && Commits(poolRefs) <= availableOutputs.Keys
      modifies this
      ensures availableOutputs == old(availableOutputs) - Commits(poolRefs)
      ensures consumedBlockchainOutputs == old(consumedBlockchainOutputs) + ByCommitment(blockchainRefs)
    {
      hide Commits, ByCommitment;
      CommitsAll(poolRefs);
      for i := 0 to |poolRefs|
        invariant availableOutputs == old(availableOutputs) - Commits(poolRefs[..i])
        modifies `availableOutputs
      {
        CommitsGrow(poolRefs, i);
        CommitIsNew(poolRefs, i);
        assert poolRefs[i].output in availableOutputs;
        availableOutputs := availableOutputs - {poolRefs[i].output};
      }
      CommitsAll(blockchainRefs);
      for i := 0 to |blockchainRefs|
        invariant consumedBlockchainOutputs == old(consumedBlockchainOutputs) + ByCommitment(blockchainRefs[..i])
        modifies `consumedBlockchainOutputs
      {
        CommitsGrow(blockchainRefs, i);
        consumedBlockchainOutputs := consumedBlockchainOutputs[blockchainRefs[i].output := blockchainRefs[i]];
      }
    }

    method OfferOutputs(newUnspents: seq<Edge>)
      modifies `availableOutputs
      ensures availableOutputs == old(availableOutputs) + ByCommitment(newUnspents)
    {
      hide Commits, ByCommitment;
      CommitsAll(newUnspents);
      for i := 0 to |newUnspents|
        invariant availableOutputs == old(availableOutputs) + ByCommitment(newUnspents[..i])
      {
        CommitsGrow(newUnspents, i);
        availableOutputs := availableOutputs[newUnspents[i].output := newUnspents[i]];
      }
    }

    /** All transactions if they are few enough, otherwise only roots, as many as asked for. */
    method GetMineableTransactions(numToFetch: nat) returns (hashes: seq<Hash>)
      requires Valid()
      ensures |hashes| <= numToFetch
      ensures forall i, j :: 0 <= i < j < |hashes| ==> hashes[i] != hashes[j]
      ensures || (forall h :: h in hashes <==> h in graph.Roots() + graph.Inner())
              || (forall h :: h in hashes ==> h in graph.Roots())
      ensures |graph.roots| + |graph.vertices| <= numToFetch ==> forall h :: h in hashes <==> h in graph.Roots() + graph.Inner()
      ensures |graph.roots| + |graph.vertices| > numToFetch ==>
        |hashes| == (if |graph.roots| < numToFetch then |graph.roots| else numToFetch) && forall h :: h in hashes ==> h in graph.Roots()
    {
      if |graph.vertices| + |graph.roots| <= numToFetch {
        hashes := graph.GetVertices();
      } else {
        hashes := graph.GetRoots();
        if |hashes| > numToFetch {
          hashes := hashes[..numToFetch];
        }
      }
    }

    method UpdateRoots(ghost txs: map<Hash, Transaction>)
      requires Valid()
      modifies graph
      ensures Valid() && State(txs) == RootsUpdated(old(State(txs)))
    {
      graph.UpdateRoots();
      assert graph.Inner() == old(graph.Inner()) - set h | h in old(graph.Inner()) && !HasParent(graph.edges, h);
    }

    /** Takes one marked transaction out of the maps. */
    method RemovePoolTransaction(tx: Transaction, marked: set<Hash>, ghost txs: map<Hash, Transaction>)
      requires Valid() && FullEdges(graph.edges)
      requires graph.edges.Keys !! availableOutputs.Keys && graph.edges.Keys !! consumedBlockchainOutputs.Keys
      modifies this, graph
      ensures Valid() && State(txs - {tx.hash}) == Removed(old(State(txs)), tx, marked)
    {
      var _ := graph.RemoveVertex(tx.hash);
      ghost var edges, available, consumed := graph.edges, availableOutputs, consumedBlockchainOutputs;
      DropInputs(tx, marked);
      DropOutputs(tx, marked);
      RemovedMaps(old(State(txs)), tx, marked);
    }

    /** One input goes: its creator, if it stays, has the output available again. */
    method DropInput(input: Commitment, marked: set<Hash>)
      requires input in graph.edges ==> IsFull(input, graph.edges[input])
      modifies this, graph`edges
      ensures graph.edges == old(graph.edges) - {input}
      ensures availableOutputs ==
              if input in old(graph.edges) && !From(old(graph.edges)[input], marked)
              then old(availableOutputs)[input := old(graph.edges)[input].(destination := None)]
              else old(availableOutputs)
      ensures consumedBlockchainOutputs ==
              if input in old(graph.edges) then old(consumedBlockchainOutputs)
              else old(consumedBlockchainOutputs) - {input}
    {
      var removed := graph.RemoveEdgeByCommitment(input);
      match removed {
        case Some(x) =>
          if x.source.value !in marked {
            availableOutputs := availableOutputs[x.output := x.(destination := None)];
          }
        case None =>
          consumedBlockchainOutputs := consumedBlockchainOutputs - {input};
      }
    }

    method DropInputs(tx: Transaction, marked: set<Hash>)
      requires FullEdges(graph.edges)
      requires graph.edges.Keys !! consumedBlockchainOutputs.Keys
      modifies this, graph`edges
      ensures graph.edges == old(graph.edges) - tx.Ins()
      ensures availableOutputs == old(availableOutputs) + Freed(old(graph.edges), tx.Ins(), marked)
      ensures consumedBlockchainOutputs == old(consumedBlockchainOutputs) - tx.Ins()
    {
      ghost var edges, available, consumed := graph.edges, availableOutputs, consumedBlockchainOutputs;
      UptoAll(tx);
      NothingYet(edges, marked);
      hide Upto, Freed, Transaction.Ins, From, IsFull;
      for i := 0 to |tx.inputs|
        invariant graph.edges == edges - Upto(tx.inputs, i)
        invariant availableOutputs == available + Freed(edges, Upto(tx.inputs, i), marked)
        invariant consumedBlockchainOutputs == consumed - Upto(tx.inputs, i)
      {
        InputStep(edges, available, consumed, Upto(tx.inputs, i), tx.inputs[i], marked);
        UptoGrows(tx.inputs, i);
        DropInput(tx.inputs[i], marked);
      }
    }

    /** One output goes: its spender, if it stays, now spends it from the chain. */
    method DropOutput(output: Commitment, marked: set<Hash>)
      requires output in graph.edges ==> IsFull(output, graph.edges[output])
      modifies this, graph`edges
      ensures graph.edges == old(graph.edges) - {output}
      ensures consumedBlockchainOutputs ==
              if output in old(graph.edges) && !To(old(graph.edges)[output], marked)
              then old(consumedBlockchainOutputs)[output := old(graph.edges)[output].(source := None)]
              else old(consumedBlockchainOutputs)
      ensures availableOutputs ==
              if output in old(graph.edges) then old(availableOutputs) else old(availableOutputs) - {output}
    {
      var removed := graph.RemoveEdgeByCommitment(output);
      match removed {
        case Some(x) =>
          if x.destination.value !in marked {
            consumedBlockchainOutputs := consumedBlockchainOutputs[x.output := x.(source := None)];
          }
        case None =>
          availableOutputs := availableOutputs - {output};
      }
    }

    method DropOutputs(tx: Transaction, marked: set<Hash>)
      requires FullEdges(graph.edges)
      requires graph.edges.Keys !! availableOutputs.Keys
      modifies this, graph`edges
      ensures graph.edges == old(graph.edges) - tx.Outs()
      ensures availableOutputs == old(availableOutputs) - tx.Outs()
      ensures consumedBlockchainOutputs == old(consumedBlockchainOutputs) + Rerouted(old(graph.edges), tx.Outs(), marked)
    {
      ghost var edges, available, consumed := graph.edges, availableOutputs, consumedBlockchainOutputs;
      ghost var outs := CommitmentsOf(tx.outputs);
      UptoAll(tx);
      NothingYet(edges, marked);
      hide Upto, Rerouted, Transaction.Outs, CommitmentsOf, To, IsFull;
      for i := 0 to |tx.outputs|
        invariant graph.edges == edges - Upto(outs, i)
        invariant availableOutputs == available - Upto(outs, i)
        invariant consumedBlockchainOutputs == consumed + Rerouted(edges, Upto(outs, i), marked)
      {
        OutputStep(edges, available, consumed, Upto(outs, i), outs[i], marked);
        UptoGrows(outs, i);
        DropOutput(tx.outputs[i].commitment, marked);
      }
    }
  }

  lemma NothingYet(edges: Edges, marked: set<Hash>)
    ensures Freed(edges, {}, marked) == map[] && Rerouted(edges, {}, marked) == map[]
  {
  }

  lemma RemovedMaps(s: State, tx: Transaction, marked: set<Hash>)
    ensures var r := Removed(s, tx, marked);
      && r.edges == s.edges - tx.Ins() - tx.Outs()
      && r.available == s.available + Freed(s.edges, tx.Ins(), marked) - tx.Outs()
      && r.consumed == s.consumed - tx.Ins() + Rerouted(s.edges - tx.Ins(), tx.Outs(), marked)
  {
  }
}
