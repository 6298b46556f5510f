/** The transaction pool: admission of transactions, and reconciliation with new blocks. */
module TransactionPool {
  import opened Wrappers
  import opened PoolState
  import opened PoolSweep
  import opened PoolConflicts
  import opened PoolGraph
  import opened PoolConnected
  import opened PoolAdmission

  datatype PoolConfig = PoolConfig(acceptFeeBase: nat, maxPoolSize: nat)

  datatype Parent =
    | Unknown
    | BlockTransaction(output: Output)
    | PoolTransaction(txRef: Hash)
    | AlreadySpent(otherTx: Hash)

  datatype PoolError =
    | Invalid
    | AlreadyInPool
    | DuplicateOutput(duplicateOf: Option<Hash>, inChain: bool, output: Commitment)
    | DoubleSpend(otherTx: Hash, spentOutput: Commitment)
    | ImmatureCoinbase(headerHeight: nat, coinbase: Commitment)
    | ImmatureTransaction(lockHeight: nat)
    | OrphanTransaction
    | GenericPoolError
    | OverCapacity
    | LowFeeTransaction(threshold: nat)

  /** What the pool reads of the orphan set: its size and its four maps. */
  datatype Orphans = Orphans(
    size: nat,
    available: Edges,
    edges: Edges,
    missing: Edges,
    poolConnections: Edges)
  {
    ghost predicate Valid() {
      && (forall c :: c in available ==> available[c].source.Some?)
      && (forall c :: c in edges ==> edges[c].source.Some? && edges[c].destination.Some?)
      && (forall c :: c in missing ==> missing[c].destination.Some?)
      && (forall c :: c in poolConnections ==> poolConnections[c].destination.Some?)
    }

    /** Some orphan creates `c`. */
    ghost predicate Offers(c: Commitment) {
      c in available || c in edges
    }

    /** Some orphan claims `c`, which is neither in the pool nor on the chain, already. */
    ghost predicate ClaimsOrphan(c: Commitment) {
      c !in available && (c in edges || c in missing)
    }

    ghost predicate Creates(h: Hash, c: Commitment) {
      || (c in available && available[c].source == Some(h))
      || (c in edges && edges[c].source == Some(h))
    }

    ghost predicate Spends(h: Hash, c: Commitment) {
      || (c in poolConnections && poolConnections[c].destination == Some(h))
      || (c in edges && edges[c].destination == Some(h))
      || (c in missing && missing[c].destination == Some(h))
    }
  }

  /** The chain as the pool sees it: a set of unspent outputs that each block changes. */
  class DummyChain {
    var utxo: map<Commitment, Output>
    var blockHeaders: map<Commitment, nat>
    var headHeader: Option<nat>

    constructor ()
      ensures utxo == map[] && blockHeaders == map[] && headHeader == None
    {
      utxo := map[];
      blockHeaders := map[];
      headHeader := None;
    }

    /** The inputs go first, then the outputs come, the last of several with one commitment staying. */
    method ApplyBlock(b: Block)
      modifies `utxo
      ensures utxo == old(utxo) - b.Ins() + NewOutputs(b.outputs)
      ensures utxo.Keys == Unspent(old(utxo.Keys), b)
    {
      hide NewOutputs;
      InputsAndOutputs(b);
      Spend(b.inputs);
      Create(b.outputs);
    }

    method Spend(inputs: seq<Commitment>)
      modifies `utxo
      ensures utxo == old(utxo) - Upto(inputs, |inputs|)
    {
      hide Upto;
      assert Upto(inputs, 0) == {} by { UptoNone(inputs); }
      for i := 0 to |inputs|
        invariant utxo == old(utxo) - Upto(inputs, i)
      {
        UptoGrows(inputs, i);
        utxo := utxo - {inputs[i]};
      }
    }

    method Create(outputs: seq<Output>)
      modifies `utxo
      ensures utxo == old(utxo) + NewOutputs(outputs)
    {
      hide NewOutputs, Block.Ins, Block.Outs;
      NewOutputsAll(outputs);
      for i := 0 to |outputs|
        invariant utxo == old(utxo) + NewOutputs(outputs[..i])
      {
        NewOutputsGrow(outputs, i);
        OneMoreOutput(old(utxo), NewOutputs(outputs[..i]), outputs[i]);
        utxo := utxo[outputs[i].commitment := outputs[i]];
      }
    }
  }

  lemma OneMoreOutput(utxo: Utxo, added: Utxo, o: Output)
    ensures (utxo + added)[o.commitment := o] == utxo + added[o.commitment := o]
  {
  }

  lemma UptoNone(inputs: seq<Commitment>)
    ensures Upto(inputs, 0) == {}
  {
  }

  lemma NewOutputsAll(outputs: seq<Output>)
    ensures NewOutputs(outputs[..0]) == map[] && NewOutputs(outputs[..|outputs|]) == NewOutputs(outputs)
  {
    assert outputs[..|outputs|] == outputs;
  }

  lemma InputsAndOutputs(b: Block)
    ensures Upto(b.inputs, |b.inputs|) == b.Ins()
    ensures NewOutputs(b.outputs).Keys == b.Outs()
  {
    assert b.inputs[..|b.inputs|] == b.inputs;
  }

  lemma NewOutputsGrow(outputs: seq<Output>, i: nat)
    requires i < |outputs|
    ensures NewOutputs(outputs[..i + 1]) == NewOutputs(outputs[..i])[outputs[i].commitment := outputs[i]]
  {
    assert outputs[..i + 1][..i] == outputs[..i];
  }

  /** The outputs of a block by their commitments. */
  ghost function NewOutputs(outputs: seq<Output>): (m: map<Commitment, Output>)
    ensures m.Keys == set o | o in outputs :: o.commitment
    ensures forall c :: c in m ==> m[c] in outputs && m[c].commitment == c
  {
    if outputs == [] then map[]
    else
      var last := |outputs| - 1;
      assert outputs == outputs[..last] + [outputs[last]];
      NewOutputs(outputs[..last])[outputs[last].commitment := outputs[last]]
  }

  /** The references of a transaction, sorted by where its inputs were found. */
  datatype Refs = Refs(pool: seq<Edge>, orphan: seq<Edge>, blockchain: seq<Edge>)

  lemma ByCommitmentIs(es: seq<Edge>)
    ensures ByCommitment(es).Keys == Commits(es)
    ensures forall c :: c in ByCommitment(es) ==> ByCommitment(es)[c] in es && ByCommitment(es)[c].output == c
  {
    if es != [] {
      ByCommitmentIs(es[..|es| - 1]);
      CommitsGrow(es, |es| - 1);
      assert es[..|es|] == es;
    }
  }

  // ---------------------------------------------------------------- references

  /** Where the search for an output would find `c`: the specification of the four outcomes. */
  ghost function BestParent(s: State, utxo: map<Commitment, Output>, c: Commitment): Parent
    requires MapsSound(s)
  {
    if c in s.available then (assert IsDangling(s.txs, c, s.available[c]); PoolTransaction(s.available[c].source.value))
    else if c in utxo then
      if c in s.consumed then (assert IsExternal(s.txs, c, s.consumed[c]); AlreadySpent(s.consumed[c].destination.value))
      else BlockTransaction(utxo[c])
    else if c in s.edges then (assert IsInternal(s.txs, c, s.edges[c]); AlreadySpent(s.edges[c].destination.value))
    else Unknown
  }

  /** The search tells exactly who creates the output and who, if anyone, spends it already. */
  lemma BestParentMeaning(s: State, utxo: map<Commitment, Output>, c: Commitment, h: Hash)
    requires Inv(s) && InSync(s, utxo.Keys)
    ensures BestParent(s, utxo, c) == AlreadySpent(h) <==> h in s.txs && c in s.txs[h].Ins()
    ensures BestParent(s, utxo, c) == PoolTransaction(h) <==>
            h in s.txs && c in s.txs[h].Outs() && forall g :: g in s.txs ==> c !in s.txs[g].Ins()
    ensures BestParent(s, utxo, c).BlockTransaction? <==>
            c in utxo && forall g :: g in s.txs ==> c !in s.txs[g].Ins()
    ensures BestParent(s, utxo, c).Unknown? <==>
            c !in utxo && forall g :: g in s.txs ==> c !in s.txs[g].Ins() && c !in s.txs[g].Outs()
  {
    hide Transaction.Ins, Transaction.Outs;
    SyncedApart(s, utxo.Keys, c);
    forall g | g in s.txs
      ensures c in s.txs[g].Ins() ==> InputPlaced(s, g, c)
      ensures c in s.txs[g].Outs() ==> OutputPlaced(s, g, c)
    {
      if c in s.txs[g].Ins() { assert InputPlaced(s, g, c); }
      if c in s.txs[g].Outs() { assert OutputPlaced(s, g, c); }
    }
    if c in s.edges { EdgeIsPlaced(s, c); }
    if c in s.available { assert IsDangling(s.txs, c, s.available[c]); }
    if c in s.consumed { assert IsExternal(s.txs, c, s.consumed[c]); }
  }

  ghost predicate PoolRefs(s: State, utxo: map<Commitment, Output>, h: Hash, ins: set<Commitment>, es: seq<Edge>)
    requires MapsSound(s)
  {
    && (forall e :: e in es ==> e.output in s.available && e == s.available[e.output].(destination := Some(h)))
    && (forall c :: c in Commits(es) <==> c in ins && BestParent(s, utxo, c).PoolTransaction?)
  }

  ghost predicate BlockchainRefs(s: State, utxo: map<Commitment, Output>, h: Hash, ins: set<Commitment>, es: seq<Edge>)
    requires MapsSound(s)
  {
    && (forall e :: e in es ==> e == Edge(None, Some(h), e.output))
    && (forall c :: c in Commits(es) <==> c in ins && BestParent(s, utxo, c).BlockTransaction?)
  }

  ghost predicate OrphanRefs(s: State, utxo: map<Commitment, Output>, h: Hash, ins: set<Commitment>, es: seq<Edge>)
    requires MapsSound(s)
  {
    && (forall e :: e in es ==> e == Edge(None, Some(h), e.output))
    && (forall c :: c in Commits(es) <==> c in ins && BestParent(s, utxo, c).Unknown?)
  }

  /** The references gathered for the inputs `ins` of the transaction `h`. */
  ghost predicate Resolved(s: State, utxo: map<Commitment, Output>, h: Hash, ins: set<Commitment>, refs: Refs)
    requires MapsSound(s)
  {
    && PoolRefs(s, utxo, h, ins, refs.pool)
    && BlockchainRefs(s, utxo, h, ins, refs.blockchain)
    && OrphanRefs(s, utxo, h, ins, refs.orphan)
    && (forall c :: c in ins ==> !BestParent(s, utxo, c).AlreadySpent?)
  }

  function UnspentEdges(tx: Transaction): seq<Edge> {
    seq(|tx.outputs|, i requires 0 <= i < |tx.outputs| => Edge(Some(tx.hash), None, tx.outputs[i].commitment))
  }

  lemma UnspentEdgesAre(tx: Transaction)
    ensures ByCommitment(UnspentEdges(tx)) == map c | c in tx.Outs() :: Edge(Some(tx.hash), None, c)
  {
    var es := UnspentEdges(tx);
    ByCommitmentIs(es);
    assert Commits(es) == tx.Outs() by {
      forall c
        ensures c in Commits(es) <==> c in tx.Outs()
      {
        if c in tx.Outs() {
          var o :| o in tx.outputs && o.commitment == c;
          var i :| 0 <= i < |tx.outputs| && tx.outputs[i] == o;
          assert es[i] in es;
        }
      }
    }
  }

  lemma NoCommits(es: seq<Edge>)
    ensures Commits(es) == {} <==> es == []
  {
    if es != [] {
      assert es[0] in es && es[0].output in Commits(es);
    }
  }

  /** The reference that the source builds for an input found at `parent`, added to the others. */
  function WithRef(refs: Refs, h: Hash, c: Commitment, parent: Parent): Refs {
    match parent
    case PoolTransaction(x) => refs.(pool := refs.pool + [Edge(Some(x), Some(h), c)])
    case BlockTransaction(_) => refs.(blockchain := refs.blockchain + [Edge(None, Some(h), c)])
    case Unknown => refs.(orphan := refs.orphan + [Edge(None, Some(h), c)])
    case AlreadySpent(_) => refs
  }

  lemma CommitsAppend(es: seq<Edge>, e: Edge)
    ensures Commits(es + [e]) == Commits(es) + {e.output}
    ensures DistinctRefs(es) && e.output !in Commits(es) ==> DistinctRefs(es + [e])
  {
    assert forall x :: x in es + [e] <==> x in es || x == e;
  }

  lemma PoolRefsStep(s: State, utxo: map<Commitment, Output>, h: Hash, ins: set<Commitment>, es: seq<Edge>, c: Commitment)
    requires MapsSound(s) && PoolRefs(s, utxo, h, ins, es)
    ensures var p := BestParent(s, utxo, c);
      PoolRefs(s, utxo, h, ins + {c}, if p.PoolTransaction? then es + [Edge(Some(p.txRef), Some(h), c)] else es)
  {
    var p := BestParent(s, utxo, c);
    if p.PoolTransaction? {
      CommitsAppend(es, Edge(Some(p.txRef), Some(h), c));
      assert IsDangling(s.txs, c, s.available[c]);
    }
    hide Commits, DistinctRefs, MapsSound;
  }

  lemma BlockchainRefsStep(s: State, utxo: map<Commitment, Output>, h: Hash, ins: set<Commitment>, es: seq<Edge>, c: Commitment)
    requires MapsSound(s) && BlockchainRefs(s, utxo, h, ins, es)
    ensures var p := BestParent(s, utxo, c);
      BlockchainRefs(s, utxo, h, ins + {c}, if p.BlockTransaction? then es + [Edge(None, Some(h), c)] else es)
  {
    CommitsAppend(es, Edge(None, Some(h), c));
    hide Commits, DistinctRefs, MapsSound, BestParent;
  }

  lemma OrphanRefsStep(s: State, utxo: map<Commitment, Output>, h: Hash, ins: set<Commitment>, es: seq<Edge>, c: Commitment)
    requires MapsSound(s) && OrphanRefs(s, utxo, h, ins, es)
    ensures var p := BestParent(s, utxo, c);
      OrphanRefs(s, utxo, h, ins + {c}, if p.Unknown? then es + [Edge(None, Some(h), c)] else es)
  {
    CommitsAppend(es, Edge(None, Some(h), c));
    hide Commits, DistinctRefs, MapsSound, BestParent;
  }

  lemma ResolvedStep(s: State, utxo: map<Commitment, Output>, h: Hash, ins: set<Commitment>, refs: Refs, c: Commitment)
    requires MapsSound(s) && Resolved(s, utxo, h, ins, refs)
    requires !BestParent(s, utxo, c).AlreadySpent?
    ensures Resolved(s, utxo, h, ins + {c}, WithRef(refs, h, c, BestParent(s, utxo, c)))
  {
    hide MapsSound, BestParent, PoolRefs, BlockchainRefs, OrphanRefs;
    PoolRefsStep(s, utxo, h, ins, refs.pool, c);
    BlockchainRefsStep(s, utxo, h, ins, refs.blockchain, c);
    OrphanRefsStep(s, utxo, h, ins, refs.orphan, c);
  }

  lemma NothingResolved(s: State, utxo: map<Commitment, Output>, h: Hash)
    requires MapsSound(s)
    ensures Resolved(s, utxo, h, {}, Refs([], [], []))
  {
  }

  ghost predicate FullyResolved(s: State, utxo: map<Commitment, Output>, tx: Transaction, refs: Refs) {
    && Inv(s) && InSync(s, utxo.Keys) && Resolved(s, utxo, tx.hash, tx.Ins(), refs)
    && refs.orphan == [] && DistinctRefs(refs.pool)
  }

  lemma ResolvedCommits(s: State, utxo: map<Commitment, Output>, tx: Transaction, refs: Refs)
    requires FullyResolved(s, utxo, tx, refs)
    ensures Spendable(s, utxo.Keys, tx)
    ensures Commits(refs.pool) == tx.Ins() * s.available.Keys
    ensures Commits(refs.blockchain) == tx.Ins() - s.available.Keys
    ensures refs.pool == [] <==> tx.Ins() * s.available.Keys == {}
  {
    hide Transaction.Ins, Transaction.Outs, Inv, InSync, DistinctRefs;
    NoCommits(refs.pool);
    NoCommits(refs.orphan);
    hide Commits;
  }

  lemma ListIsMap(es: seq<Edge>, m: Edges)
    requires Commits(es) == m.Keys
    requires forall e :: e in es ==> e.output in m && e == m[e.output]
    ensures ByCommitment(es) == m
  {
    ByCommitmentIs(es);
    hide Commits, ByCommitment;
    assert forall c :: c in m ==> c in ByCommitment(es) && ByCommitment(es)[c] in es;
  }

  lemma ResolvedEdges(s: State, utxo: map<Commitment, Output>, tx: Transaction, refs: Refs)
    requires FullyResolved(s, utxo, tx, refs)
    ensures Added(s, tx).edges == s.edges + ByCommitment(refs.pool)
  {
    ResolvedCommits(s, utxo, tx, refs);
    hide Transaction.Ins, Transaction.Outs, Inv, InSync, DistinctRefs, BestParent, Spendable, Commits, ByCommitment;
    var claimed := tx.Ins() * s.available.Keys;
    var m := map c | c in claimed :: s.available[c].(destination := Some(tx.hash));
    assert m.Keys == claimed;
    forall e | e in refs.pool
      ensures e.output in m && e == m[e.output]
    {
      assert e.output in Commits(refs.pool) by { OutputIsCommit(refs.pool, e); }
    }
    ListIsMap(refs.pool, m);
  }

  lemma OutputIsCommit(es: seq<Edge>, e: Edge)
    requires e in es
    ensures e.output in Commits(es)
  {
  }

  lemma ResolvedConsumed(s: State, utxo: map<Commitment, Output>, tx: Transaction, refs: Refs)
    requires FullyResolved(s, utxo, tx, refs)
    ensures Added(s, tx).consumed == s.consumed + ByCommitment(refs.blockchain)
  {
    ResolvedCommits(s, utxo, tx, refs);
    hide Transaction.Ins, Transaction.Outs, Inv, InSync, DistinctRefs, BestParent, Spendable, Commits, ByCommitment;
    var taken := tx.Ins() - s.available.Keys;
    var m := map c | c in taken :: Edge(None, Some(tx.hash), c);
    assert m.Keys == taken;
    forall e | e in refs.blockchain
      ensures e.output in m && e == m[e.output]
    {
      assert e.output in Commits(refs.blockchain) by { OutputIsCommit(refs.blockchain, e); }
    }
    ListIsMap(refs.blockchain, m);
  }

  lemma ResolvedAvailable(s: State, utxo: map<Commitment, Output>, tx: Transaction, refs: Refs)
    requires FullyResolved(s, utxo, tx, refs)
    ensures Added(s, tx).available == s.available - Commits(refs.pool) + ByCommitment(UnspentEdges(tx))
  {
    ResolvedCommits(s, utxo, tx, refs);
    UnspentEdgesAre(tx);
    hide Transaction.Ins, Transaction.Outs, Inv, InSync, Resolved, Spendable, Commits, ByCommitment, UnspentEdges;
    assert s.available - (tx.Ins() * s.available.Keys) == s.available - Commits(refs.pool);
  }

  /** With every reference resolved, the updates of the maps and the lists add up to `Added`. */
  lemma ResolvedIsAdded(s: State, utxo: map<Commitment, Output>, tx: Transaction, refs: Refs)
    requires FullyResolved(s, utxo, tx, refs)
    ensures Added(s, tx) == State(
              s.txs[tx.hash := tx],
              s.edges + ByCommitment(refs.pool),
              s.available - Commits(refs.pool) + ByCommitment(UnspentEdges(tx)),
              s.consumed + ByCommitment(refs.blockchain),
              if refs.pool == [] then s.roots + {tx.hash} else s.roots,
              if refs.pool == [] then s.inner else s.inner + {tx.hash})
  {
    ResolvedCommits(s, utxo, tx, refs);
    ResolvedEdges(s, utxo, tx, refs);
    ResolvedConsumed(s, utxo, tx, refs);
    ResolvedAvailable(s, utxo, tx, refs);
    hide FullyResolved, ByCommitment, Commits, UnspentEdges, Transaction.Ins, Transaction.Outs;
  }

  // ---------------------------------------------------------------- the pool

  class TransactionPool {
    const config: PoolConfig
    /** Whether the signature and the range proofs of a transaction hold. */
    const validate: Transaction -> bool
    const coinbaseMaturity: nat
    var transactions: map<Hash, Transaction>
    const pool: Pool
    const blockchain: DummyChain

    constructor (config: PoolConfig, validate: Transaction -> bool, coinbaseMaturity: nat, chain: DummyChain)
      ensures Valid() && State() == EmptyState && blockchain == chain
      ensures fresh(pool) && fresh(pool.graph)
    {
      this.config := config;
      this.validate := validate;
      this.coinbaseMaturity := coinbaseMaturity;
      transactions := map[];
      pool := new Pool.Empty();
      blockchain := chain;
      new;
      EmptyIsGood({});
    }

    ghost predicate Valid()
      reads this, pool, pool.graph
    {
      pool.Valid() && Inv(State())
    }

    ghost function State(): State
      reads this, pool, pool.graph
    {
      pool.State(transactions)
    }

    /** The pool is sound and in step with the chain as it stands. */
    ghost predicate Synced()
      reads this, pool, pool.graph, blockchain
    {
      Valid() && InSync(State(), blockchain.utxo.Keys)
    }

    /** Looks an output up: among pool outputs first, then on the chain, then among spent pool outputs. */
    method SearchForBestOutput(c: Commitment) returns (p: Parent)
      requires MapsSound(State())
      ensures p == BestParent(State(), blockchain.utxo, c)
    {
      ghost var s := State();
      if c in pool.availableOutputs {
        assert IsDangling(s.txs, c, s.available[c]);
        return PoolTransaction(pool.availableOutputs[c].source.value);
      }
      if c in blockchain.utxo {
        if c in pool.consumedBlockchainOutputs {
          assert IsExternal(s.txs, c, s.consumed[c]);
          return AlreadySpent(pool.consumedBlockchainOutputs[c].destination.value);
        }
        return BlockTransaction(blockchain.utxo[c]);
      }
      if c in pool.graph.edges {
        assert IsInternal(s.txs, c, s.edges[c]);
        return AlreadySpent(pool.graph.edges[c].destination.value);
      }
      return Unknown;
    }

    /** A coinbase output that is too young to be spent at this height. */
    ghost predicate Immature(c: Commitment, headHeight: nat)
      reads blockchain
    {
      && c in blockchain.utxo && blockchain.utxo[c].coinbase
      && blockchain.utxo[c].commitment in blockchain.blockHeaders
      && headHeight < blockchain.blockHeaders[blockchain.utxo[c].commitment] + coinbaseMaturity
    }

    /** The input `c` can be resolved: not spent in the pool, and not an immature coinbase. */
    ghost predicate Resolvable(c: Commitment, headHeight: nat)
      requires MapsSound(State())
      reads this, pool, pool.graph, blockchain
    {
      var p := BestParent(State(), blockchain.utxo, c);
      !p.AlreadySpent? && !(p.BlockTransaction? && Immature(c, headHeight))
    }

    /** No pool output is claimed twice by `tx`: the source asserts as much when it takes it in. */
    ghost predicate ClaimsOnce(tx: Transaction)
      reads this, pool
    {
      forall i, j :: 0 <= i < j < |tx.inputs| && tx.inputs[i] == tx.inputs[j] ==> tx.inputs[i] !in pool.availableOutputs
    }

    /** The chain has `c` as a coinbase output from a block of this height, too few blocks back. */
    ghost predicate TooYoung(c: Commitment, headHeight: nat, height: nat, coinbase: Commitment)
      reads blockchain
    {
      && c in blockchain.utxo && blockchain.utxo[c].coinbase && blockchain.utxo[c].commitment == coinbase
      && coinbase in blockchain.blockHeaders && blockchain.blockHeaders[coinbase] == height
      && headHeight < height + coinbaseMaturity
    }

    ghost predicate SomeTooYoung(tx: Transaction, headHeight: nat, height: nat, coinbase: Commitment)
      reads blockchain
    {
      exists c :: c in tx.Ins() && TooYoung(c, headHeight, height, coinbase)
    }

    /** Resolves one input, adding its reference to `refs`. */
    method ResolveInput(h: Hash, input: Commitment, headHeight: nat, refs: Refs) returns (r: Result<Refs, PoolError>)
      requires MapsSound(State())
      ensures r.Ok? <==> Resolvable(input, headHeight)
      ensures r.Ok? ==> !BestParent(State(), blockchain.utxo, input).AlreadySpent?
      ensures r.Ok? ==> r.value == WithRef(refs, h, input, BestParent(State(), blockchain.utxo, input))
      ensures r.Err? ==> r.error.DoubleSpend? || r.error.ImmatureCoinbase?
      ensures r.Err? && r.error.DoubleSpend? ==>
              r.error.spentOutput == input && BestParent(State(), blockchain.utxo, input) == AlreadySpent(r.error.otherTx)
      ensures r.Err? && r.error.ImmatureCoinbase? ==> TooYoung(input, headHeight, r.error.headerHeight, r.error.coinbase)
    {
      hide Inv;
      var parent := SearchForBestOutput(input);
      match parent {
        case BlockTransaction(output) =>
          if output.coinbase && output.commitment in blockchain.blockHeaders {
            var height := blockchain.blockHeaders[output.commitment];
            if headHeight < height + coinbaseMaturity {
              return Err(ImmatureCoinbase(height, output.commitment));
            }
          }
        case AlreadySpent(x) =>
          return Err(DoubleSpend(x, input));
        case PoolTransaction(_) =>
        case Unknown =>
      }
      return Ok(WithRef(refs, h, input, parent));
    }

    method ResolveInputs(tx: Transaction, headHeight: nat) returns (r: Result<Refs, PoolError>)
      requires MapsSound(State())
      ensures r.Ok? <==> forall c :: c in tx.Ins() ==> Resolvable(c, headHeight)
      ensures r.Ok? ==> Resolved(State(), blockchain.utxo, tx.hash, tx.Ins(), r.value)
      ensures r.Ok? && ClaimsOnce(tx) ==> DistinctRefs(r.value.pool)
      ensures r.Err? ==> r.error.DoubleSpend? || r.error.ImmatureCoinbase?
      ensures r.Err? && r.error.DoubleSpend? ==>
              r.error.spentOutput in tx.Ins() && BestParent(State(), blockchain.utxo, r.error.spentOutput) == AlreadySpent(r.error.otherTx)
      ensures r.Err? && r.error.ImmatureCoinbase? ==> SomeTooYoung(tx, headHeight, r.error.headerHeight, r.error.coinbase)
    {
      hide Resolved, BestParent, Transaction.Ins, Resolvable, ClaimsOnce, MapsSound, State, WithRef, TooYoung;
      var refs := Refs([], [], []);
      NothingResolved(State(), blockchain.utxo, tx.hash);
      UptoAll(tx);
      for i := 0 to |tx.inputs|
        invariant ResolvedUpto(tx, headHeight, i, refs)
        invariant ClaimsOnce(tx) ==> DistinctRefs(refs.pool)
      {
        UptoIn(tx, i);
        var r1 := ResolveInput(tx.hash, tx.inputs[i], headHeight, refs);
        if r1.Err? {
          return r1;
        }
        ResolvedOneMore(tx, headHeight, i, refs);
        refs := r1.value;
      }
      return Ok(refs);
    }

    ghost predicate ResolvedUpto(tx: Transaction, headHeight: nat, n: nat, refs: Refs)
      requires MapsSound(State()) && n <= |tx.inputs|
      reads this, pool, pool.graph, blockchain
    {
      && Resolved(State(), blockchain.utxo, tx.hash, Upto(tx.inputs, n), refs)
      && forall c :: c in Upto(tx.inputs, n) ==> Resolvable(c, headHeight)
    }

    lemma ResolvedOneMore(tx: Transaction, headHeight: nat, i: nat, refs: Refs)
      requires MapsSound(State()) && i < |tx.inputs| && ResolvedUpto(tx, headHeight, i, refs)
      requires Resolvable(tx.inputs[i], headHeight)
      ensures var more := WithRef(refs, tx.hash, tx.inputs[i], BestParent(State(), blockchain.utxo, tx.inputs[i]));
        && ResolvedUpto(tx, headHeight, i + 1, more)
        && (ClaimsOnce(tx) && DistinctRefs(refs.pool) ==> DistinctRefs(more.pool))
    {
      hide PoolRefs, BlockchainRefs, OrphanRefs, BestParent, MapsSound, Upto, ClaimsOnce, DistinctRefs;
      UptoGrows(tx.inputs, i);
      ResolvedStep(State(), blockchain.utxo, tx.hash, Upto(tx.inputs, i), refs, tx.inputs[i]);
      if ClaimsOnce(tx) && DistinctRefs(refs.pool) { ClaimedOnce(tx, i, refs); }
    }

    /** An available output that is claimed for the first time adds a reference that is new. */
    lemma ClaimedOnce(tx: Transaction, i: nat, refs: Refs)
      requires MapsSound(State()) && ClaimsOnce(tx) && i < |tx.inputs| && DistinctRefs(refs.pool)
      requires PoolRefs(State(), blockchain.utxo, tx.hash, Upto(tx.inputs, i), refs.pool)
      ensures DistinctRefs(WithRef(refs, tx.hash, tx.inputs[i], BestParent(State(), blockchain.utxo, tx.inputs[i])).pool)
    {
      hide MapsSound, Commits, DistinctRefs;
      var p := BestParent(State(), blockchain.utxo, tx.inputs[i]);
      if p.PoolTransaction? {
        CommitsAppend(refs.pool, Edge(Some(p.txRef), Some(tx.hash), tx.inputs[i]));
        ClaimedFirst(tx, i);
      }
    }

    lemma MapsAreSound()
      requires Valid()
      ensures MapsSound(State())
    {
    }

    lemma ClaimedFirst(tx: Transaction, i: nat)
      requires ClaimsOnce(tx) && i < |tx.inputs| && tx.inputs[i] in pool.availableOutputs
      ensures tx.inputs[i] !in Upto(tx.inputs, i)
    {
    }

    lemma UptoIn(tx: Transaction, i: nat)
      requires i < |tx.inputs|
      ensures tx.inputs[i] in tx.Ins()
    {
    }

    /** Some pool transaction, or the chain, has the output `c` already. */
    ghost predicate Exists(c: Commitment)
      reads this, pool, pool.graph, blockchain
    {
      c in blockchain.utxo || c in pool.availableOutputs || c in pool.graph.edges
    }

    /** Refuses an output that the chain, the pool or, for an orphan, the orphan set has already. */
    method CheckDuplicateOutputs(c: Commitment, isOrphan: bool, orphans: Orphans) returns (e: Option<PoolError>)
      requires Valid() && orphans.Valid()
      ensures e.Some? <==> Exists(c) || (isOrphan && orphans.Offers(c))
      ensures e.Some? ==> e.value.DuplicateOutput? && e.value.output == c && (e.value.inChain <==> c in blockchain.utxo)
      ensures e.Some? && !e.value.inChain ==> e.value.duplicateOf.Some?
      ensures e.Some? && !e.value.inChain ==> var h := e.value.duplicateOf.value;
        (h in transactions && c in transactions[h].Outs()) || (isOrphan && orphans.Creates(h, c))
    {
      ghost var s := State();
      if c in blockchain.utxo {
        return Some(DuplicateOutput(None, true, c));
      }
      var found := pool.FindOutput(c);
      if c in pool.availableOutputs { assert IsDangling(s.txs, c, s.available[c]); }
      if c in pool.graph.edges { assert IsInternal(s.txs, c, s.edges[c]); }
      if found.Some? {
        return Some(DuplicateOutput(found, false, c));
      }
      if isOrphan {
        if c in orphans.available {
          return Some(DuplicateOutput(orphans.available[c].source, false, c));
        }
        if c in orphans.edges {
          return Some(DuplicateOutput(orphans.edges[c].source, false, c));
        }
      }
      return None;
    }

    /** Whether the pool has room for the transaction, and its fee is enough. */
    method IsAcceptable(tx: Transaction, orphans: Orphans) returns (e: Option<PoolError>)
      ensures e == None <==> HasRoomAndFee(tx, orphans)
      ensures e.Some? ==> e.value == OverCapacity || e.value.LowFeeTransaction?
      ensures e == Some(OverCapacity) <==> |pool.graph.vertices| + |pool.graph.roots| + orphans.size > config.maxPoolSize
      ensures e.Some? && e.value.LowFeeTransaction? ==> FeeRefused(tx, e.value.threshold)
      // what passes has paid for its size
      ensures e.None? && config.acceptFeeBase > 0 ==> FeeFits(tx, tx.fee, config.acceptFeeBase)
    {
      forall fee: nat ensures fee >= Weight(tx) * config.acceptFeeBase <==> FeeFits(tx, fee, config.acceptFeeBase) {
        WeightIsLeastFee(tx, fee, config.acceptFeeBase);
      }
      hide Weight, FeeFits;
      if |pool.graph.vertices| + |pool.graph.roots| + orphans.size > config.maxPoolSize {
        return Some(OverCapacity);
      }
      if config.acceptFeeBase > 0 {
        var threshold := Weight(tx) * config.acceptFeeBase;
        if tx.fee < threshold {
          return Some(LowFeeTransaction(threshold));
        }
      }
      return None;
    }

    /** The fee is too low, and the threshold is the least that would do. */
    ghost predicate FeeRefused(tx: Transaction, threshold: nat) {
      && config.acceptFeeBase > 0 && !FeeFits(tx, tx.fee, config.acceptFeeBase)
      && forall fee: nat :: FeeFits(tx, fee, config.acceptFeeBase) <==> fee >= threshold
    }

    ghost predicate HasRoomAndFee(tx: Transaction, orphans: Orphans)
      reads pool, pool.graph
    {
      && |pool.graph.vertices| + |pool.graph.roots| + orphans.size <= config.maxPoolSize
      && (config.acceptFeeBase > 0 ==> tx.fee >= Weight(tx) * config.acceptFeeBase)
    }

    /** Looks for an orphan that already claims one of the references of a new orphan. */
    method CheckOrphanRefs(refs: Refs, orphans: Orphans) returns (e: Option<PoolError>)
      requires orphans.Valid()
      ensures e == None <==>
              && Commits(refs.pool + refs.blockchain) !! orphans.poolConnections.Keys
              && forall c :: c in Commits(refs.orphan) ==> !orphans.ClaimsOrphan(c)
      ensures e.Some? ==> e.value.DoubleSpend? && orphans.Spends(e.value.otherTx, e.value.spentOutput)
      ensures e.Some? ==> e.value.spentOutput in Commits(refs.pool + refs.blockchain + refs.orphan)
    {
      var claimed := refs.pool + refs.blockchain;
      for i := 0 to |claimed|
        invariant forall j :: 0 <= j < i ==> claimed[j].output !in orphans.poolConnections
      {
        var c := claimed[i].output;
        OutputIsCommit(claimed, claimed[i]);
        OutputIsCommit(refs.pool + refs.blockchain + refs.orphan, claimed[i]);
        if c in orphans.poolConnections {
          return Some(DoubleSpend(orphans.poolConnections[c].destination.value, c));
        }
      }
      for i := 0 to |refs.orphan|
        invariant forall j :: 0 <= j < i ==>
          refs.orphan[j].output in orphans.available ||
          (refs.orphan[j].output !in orphans.edges && refs.orphan[j].output !in orphans.missing)
      {
        var c := refs.orphan[i].output;
        OutputIsCommit(refs.orphan, refs.orphan[i]);
        OutputIsCommit(refs.pool + refs.blockchain + refs.orphan, refs.orphan[i]);
        if c !in orphans.available {
          if c in orphans.edges {
            return Some(DoubleSpend(orphans.edges[c].destination.value, c));
          }
          if c in orphans.missing {
            return Some(DoubleSpend(orphans.missing[c].destination.value, c));
          }
        }
      }
      return None;
    }

    /** What any transaction must pass, whether or not all its inputs are known. */
    ghost predicate Sound(tx: Transaction, orphans: Orphans)
      requires Valid()
      reads this, pool, pool.graph, blockchain
    {
      && HasRoomAndFee(tx, orphans) && validate(tx) && tx.hash !in transactions
      && blockchain.headHeader.Some? && tx.lockHeight <= blockchain.headHeader.value
      && (forall c :: c in tx.Ins() ==> Resolvable(c, blockchain.headHeader.value))
      && (forall c :: c in tx.Outs() ==> !Exists(c))
    }

    ghost predicate IsUnknown(c: Commitment)
      requires Valid()
      reads this, pool, pool.graph, blockchain
    {
      BestParent(State(), blockchain.utxo, c).Unknown?
    }

    ghost predicate HasUnknown(tx: Transaction)
      requires Valid()
      reads this, pool, pool.graph, blockchain
    {
      exists c :: c in tx.Ins() && IsUnknown(c)
    }

    /** Everything that decides whether `tx` is taken into the connected pool. */
    ghost predicate Accepts(tx: Transaction, orphans: Orphans)
      requires Valid()
      reads this, pool, pool.graph, blockchain
    {
      Sound(tx, orphans) && !HasUnknown(tx)
    }

    /** Everything that decides whether `tx` is deferred to the orphans: no orphan stands in its way. */
    ghost predicate Defers(tx: Transaction, orphans: Orphans)
      requires Valid()
      reads this, pool, pool.graph, blockchain
    {
      && Sound(tx, orphans) && HasUnknown(tx)
      && (forall c :: c in tx.Outs() ==> !orphans.Offers(c))
      && (forall c :: c in tx.Ins() ==>
            if IsUnknown(c) then !orphans.ClaimsOrphan(c) else c !in orphans.poolConnections)
    }

    method CheckOutputs(tx: Transaction, isOrphan: bool, orphans: Orphans) returns (e: Option<PoolError>)
      requires Valid() && orphans.Valid()
      ensures e == None <==> forall c :: c in tx.Outs() ==> !Exists(c) && !(isOrphan && orphans.Offers(c))
      ensures e.Some? ==> e.value.DuplicateOutput? && e.value.output in tx.Outs()
    {
      ghost var cs := CommitmentsOf(tx.outputs);
      UptoAll(tx);
      hide Upto, Transaction.Outs, CommitmentsOf, Inv;
      for i := 0 to |tx.outputs|
        invariant forall c :: c in Upto(cs, i) ==> !Exists(c) && !(isOrphan && orphans.Offers(c))
      {
        UptoGrows(cs, i);
        CommitIsOut(tx, i);
        e := CheckDuplicateOutputs(tx.outputs[i].commitment, isOrphan, orphans);
        if e.Some? {
          return;
        }
      }
      return None;
    }

    lemma CommitIsOut(tx: Transaction, i: nat)
      requires i < |tx.outputs|
      ensures tx.outputs[i].commitment in tx.Outs()
    {
    }

    /** Takes a fully resolved transaction into the pool. */
    method Insert(tx: Transaction, refs: Refs)
      requires Synced() && tx.hash !in transactions
      requires FullyResolved(State(), blockchain.utxo, tx, refs) && Creatable(State(), blockchain.utxo.Keys, tx)
      modifies this, pool, pool.graph
      ensures State() == Added(old(State()), tx) && Synced()
      ensures Step(old(State()), blockchain.utxo.Keys, State(), blockchain.utxo.Keys)
    {
      hide Inv, InSync, FullyResolved, Spendable, Creatable, Commits, ByCommitment, UnspentEdges, DistinctRefs, Added, Step;
      ghost var s, utxo := State(), blockchain.utxo;
      ResolvedIsAdded(s, utxo, tx, refs);
      ReadyToInsert(s, utxo, tx, refs);
      pool.AddPoolTransaction(PoolEntry(tx.hash), refs.blockchain, refs.pool, UnspentEdges(tx));
      transactions := transactions[tx.hash := tx];
    }

    lemma ReadyToInsert(s: State, utxo: map<Commitment, Output>, tx: Transaction, refs: Refs)
      requires FullyResolved(s, utxo, tx, refs) && tx.hash !in s.txs && Creatable(s, utxo.Keys, tx)
      ensures DistinctRefs(refs.pool) && Commits(refs.pool) <= s.available.Keys
      ensures tx.hash !in s.roots + s.inner
      ensures Inv(Added(s, tx)) && InSync(Added(s, tx), utxo.Keys)
      ensures Step(s, utxo.Keys, Added(s, tx), utxo.Keys)
    {
      ResolvedCommits(s, utxo, tx, refs);
      assert Admissible(s, utxo.Keys, tx);
      AddedIsGood(s, utxo.Keys, tx);
      assert s.roots + s.inner == s.txs.Keys;
      hide Inv, InSync, Added, Admissible;
    }

    /** What a refusal says is true. */
    ghost predicate Justified(e: PoolError, tx: Transaction, orphans: Orphans)
      requires Valid()
      reads this, pool, pool.graph, blockchain
    {
      match e
      case DoubleSpend(h, c) =>
        c in tx.Ins() && ((h in transactions && c in transactions[h].Ins()) || orphans.Spends(h, c))
      case DuplicateOutput(_, _, c) => c in tx.Outs()
      case LowFeeTransaction(threshold) => FeeRefused(tx, threshold)
      case OverCapacity => |transactions| + orphans.size > config.maxPoolSize
      case Invalid => !validate(tx)
      case AlreadyInPool => tx.hash in transactions
      case ImmatureTransaction(lockHeight) =>
        lockHeight == tx.lockHeight && blockchain.headHeader.Some? && blockchain.headHeader.value < lockHeight
      case ImmatureCoinbase(height, coinbase) =>
        blockchain.headHeader.Some? && SomeTooYoung(tx, blockchain.headHeader.value, height, coinbase)
      case GenericPoolError => blockchain.headHeader.None?
      case OrphanTransaction => HasUnknown(tx)
    }

    /** What is asked of any transaction, in terms of the transactions in the pool and of the chain. */
    ghost predicate Fit(tx: Transaction, orphans: Orphans)
      reads this, blockchain
    {
      && |transactions| + orphans.size <= config.maxPoolSize
      && (config.acceptFeeBase > 0 ==> FeeFits(tx, tx.fee, config.acceptFeeBase))
      && validate(tx) && tx.hash !in transactions
      && blockchain.headHeader.Some? && tx.lockHeight <= blockchain.headHeader.value
      && (forall c :: c in tx.Ins() ==> !SpentIn(transactions, c) && InputMature(c))
      && (forall c :: c in tx.Outs() ==> c !in blockchain.utxo && !CreatedIn(transactions, c))
    }

    ghost predicate InputMature(c: Commitment)
      requires blockchain.headHeader.Some?
      reads blockchain
    {
      Mature(blockchain.utxo, blockchain.blockHeaders, blockchain.headHeader.value, coinbaseMaturity, c)
    }

    /** The chain or the pool has `c`. */
    ghost predicate AtHand(c: Commitment)
      reads this, blockchain
    {
      c in blockchain.utxo || CreatedIn(transactions, c)
    }

    /** Some input is not at hand, and no orphan offers an output or claims an input of the transaction. */
    ghost predicate Missing(tx: Transaction, orphans: Orphans)
      reads this, blockchain
    {
      && (exists c :: c in tx.Ins() && !AtHand(c))
      && (forall c :: c in tx.Outs() ==> !orphans.Offers(c))
      && (forall c :: c in tx.Ins() ==> if AtHand(c) then c !in orphans.poolConnections else !orphans.ClaimsOrphan(c))
    }

    lemma SpentByContent(c: Commitment)
      requires Synced()
      ensures BestParent(State(), blockchain.utxo, c).AlreadySpent? <==> SpentIn(transactions, c)
    {
      hide Transaction.Ins, Transaction.Outs, Inv, InSync, BestParent;
      MapsAreSound();
      var p := BestParent(State(), blockchain.utxo, c);
      if p.AlreadySpent? { BestParentMeaning(State(), blockchain.utxo, c, p.otherTx); }
      if h :| h in transactions && c in transactions[h].Ins() { BestParentMeaning(State(), blockchain.utxo, c, h); }
    }

    lemma FindsByContent(c: Commitment)
      requires Synced() && blockchain.headHeader.Some?
      ensures Resolvable(c, blockchain.headHeader.value) <==> !SpentIn(transactions, c) && InputMature(c)
      ensures !SpentIn(transactions, c) ==> (IsUnknown(c) <==> !AtHand(c))
      ensures Exists(c) <==> c in blockchain.utxo || CreatedIn(transactions, c)
    {
      hide Transaction.Ins, Transaction.Outs, Inv, InSync, BestParent;
      MapsAreSound();
      var p := BestParent(State(), blockchain.utxo, c);
      SpentByContent(c);
      if p.PoolTransaction? { BestParentMeaning(State(), blockchain.utxo, c, p.txRef); }
      BestParentMeaning(State(), blockchain.utxo, c, Hash(0));
      Partition(State(), c);
    }

    /** A transaction passes all checks exactly if it fits, and its inputs are known exactly if they are at hand. */
    lemma SoundIffFit(tx: Transaction, orphans: Orphans)
      requires Synced()
      ensures Sound(tx, orphans) <==> Fit(tx, orphans)
      ensures Fit(tx, orphans) ==> (HasUnknown(tx) <==> exists c :: c in tx.Ins() && !AtHand(c))
      ensures Defers(tx, orphans) <==> Fit(tx, orphans) && Missing(tx, orphans)
    {
      hide Transaction.Ins, Transaction.Outs, Inv, InSync, BestParent, Resolvable, Exists, IsUnknown, SpentIn, CreatedIn, AtHand, FeeFits, Weight;
      hide Orphans.Offers, Orphans.ClaimsOrphan;
      MapsAreSound();
      RoomByContent();
      WeightIsLeastFee(tx, tx.fee, config.acceptFeeBase);
      if blockchain.headHeader.Some? {
        forall c
          ensures Resolvable(c, blockchain.headHeader.value) <==> !SpentIn(transactions, c) && InputMature(c)
          ensures !SpentIn(transactions, c) ==> (IsUnknown(c) <==> !AtHand(c))
          ensures Exists(c) <==> c in blockchain.utxo || CreatedIn(transactions, c)
        {
          FindsByContent(c);
        }
      }
    }

    lemma RoomByContent()
      requires Valid()
      ensures |pool.graph.vertices| + |pool.graph.roots| == |transactions|
    {
      VerticesAreTransactions(State(), pool.graph.roots, pool.graph.vertices);
    }

    /** All the checks a transaction goes through before it is stored anywhere. */
    method Examine(tx: Transaction, orphans: Orphans) returns (r: Result<Refs, PoolError>)
      requires Synced() && orphans.Valid()
      ensures r.Ok? <==> && Sound(tx, orphans)
                         && (HasUnknown(tx) ==> forall c :: c in tx.Outs() ==> !orphans.Offers(c))
      ensures r.Ok? ==> Resolved(State(), blockchain.utxo, tx.hash, tx.Ins(), r.value)
      ensures r.Ok? && ClaimsOnce(tx) ==> DistinctRefs(r.value.pool)
      ensures r.Ok? ==> tx.hash !in transactions
      ensures r.Err? ==> Justified(r.error, tx, orphans) && !r.error.OrphanTransaction?
    {
      hide Resolved, BestParent, Resolvable, HasRoomAndFee, Exists, Inv, InSync, Transaction.Ins, Transaction.Outs, ClaimsOnce;
      hide FeeRefused, SomeTooYoung, FeeFits, IsUnknown;
      RoomByContent();
      var refused := IsAcceptable(tx, orphans);
      if refused.Some? {
        return Err(refused.value);
      }
      if !validate(tx) {
        return Err(Invalid);
      }
      if tx.hash in transactions {
        return Err(AlreadyInPool);
      }
      if blockchain.headHeader.None? {
        return Err(GenericPoolError);
      }
      var head := blockchain.headHeader.value;
      if head < tx.lockHeight {
        return Err(ImmatureTransaction(tx.lockHeight));
      }
      MapsAreSound();
      var resolved := ResolveInputs(tx, head);
      if resolved.Err? {
        SpentByPool(resolved.error);
        return resolved;
      }
      OrphanIffUnknown(tx, resolved.value);
      var duplicate := CheckOutputs(tx, |resolved.value.orphan| > 0, orphans);
      if duplicate.Some? {
        return Err(duplicate.value);
      }
      return resolved;
    }

    /** Admits a transaction, defers it to the orphans, or refuses it. */
    method AddToMemoryPool(tx: Transaction, orphans: Orphans) returns (r: Result<(), PoolError>)
      requires Synced() && orphans.Valid()
      // the source panics when it takes in a transaction that claims one available output twice
      requires Accepts(tx, orphans) ==> ClaimsOnce(tx)
      modifies this, pool, pool.graph
      ensures r.Ok? <==> old(Accepts(tx, orphans))
      ensures r == Err(OrphanTransaction) <==> old(Defers(tx, orphans))
      // the same without the maps of the pool
      ensures r.Ok? <==> old(Fit(tx, orphans) && forall c :: c in tx.Ins() ==> AtHand(c))
      ensures r == Err(OrphanTransaction) <==> old(Fit(tx, orphans) && Missing(tx, orphans))
      ensures State() == if r.Ok? then Added(old(State()), tx) else old(State())
      ensures Synced() && Step(old(State()), blockchain.utxo.Keys, State(), blockchain.utxo.Keys)
      ensures r.Err? ==> Justified(r.error, tx, orphans)
    {
      hide Resolved, BestParent, Resolvable, HasRoomAndFee, Exists, Inv, InSync, Transaction.Ins, Transaction.Outs, ClaimsOnce;
      hide Sound, HasUnknown, Fit, Missing, FeeRefused, SomeTooYoung, Orphans.Offers, Orphans.ClaimsOrphan, Orphans.Spends;
      MapsAreSound();
      SoundIffFit(tx, orphans);
      var examined := Examine(tx, orphans);
      if examined.Err? {
        return Err(examined.error);
      }
      var refs := examined.value;
      OrphanIffUnknown(tx, refs);
      if |refs.orphan| == 0 {
        AcceptedIsReady(tx, orphans, refs);
        Insert(tx, refs);
        return Ok(());
      }
      var claimed := CheckOrphanRefs(refs, orphans);
      RefsByKind(tx, refs, orphans);
      if claimed.Some? {
        RefsAreInputs(tx, refs, claimed.value.spentOutput);
        return Err(claimed.value);
      }
      return Err(OrphanTransaction);
    }

    lemma AcceptedIsReady(tx: Transaction, orphans: Orphans, refs: Refs)
      requires Synced() && Accepts(tx, orphans) && refs.orphan == [] && DistinctRefs(refs.pool)
      requires Resolved(State(), blockchain.utxo, tx.hash, tx.Ins(), refs)
      ensures FullyResolved(State(), blockchain.utxo, tx, refs)
      ensures Creatable(State(), blockchain.utxo.Keys, tx)
    {
      hide DistinctRefs;
    }

    lemma SpentByPool(e: PoolError)
      requires Synced()
      ensures e.DoubleSpend? && BestParent(State(), blockchain.utxo, e.spentOutput) == AlreadySpent(e.otherTx) ==>
              e.otherTx in transactions && e.spentOutput in transactions[e.otherTx].Ins()
    {
      if e.DoubleSpend? {
        BestParentMeaning(State(), blockchain.utxo, e.spentOutput, e.otherTx);
      }
    }

    lemma OrphanIffUnknown(tx: Transaction, refs: Refs)
      requires Valid() && Resolved(State(), blockchain.utxo, tx.hash, tx.Ins(), refs)
      ensures refs.orphan != [] <==> HasUnknown(tx)
    {
      hide Transaction.Ins, BestParent;
      NoCommits(refs.orphan);
      if refs.orphan != [] { OutputIsCommit(refs.orphan, refs.orphan[0]); }
    }

    /** No orphan claims any of the references exactly when none claims any of the inputs. */
    lemma RefsByKind(tx: Transaction, refs: Refs, orphans: Orphans)
      requires Valid() && Resolved(State(), blockchain.utxo, tx.hash, tx.Ins(), refs)
      ensures (&& Commits(refs.pool + refs.blockchain) !! orphans.poolConnections.Keys
               && forall c :: c in Commits(refs.orphan) ==> !orphans.ClaimsOrphan(c)) <==>
              forall c :: c in tx.Ins() ==>
                if IsUnknown(c) then !orphans.ClaimsOrphan(c) else c !in orphans.poolConnections
    {
      CommitsSum(refs.pool, refs.blockchain);
      hide Transaction.Ins, BestParent, Commits, DistinctRefs, Orphans.ClaimsOrphan;
      forall c
        ensures c in Commits(refs.orphan) <==> c in tx.Ins() && IsUnknown(c)
        ensures c in Commits(refs.pool + refs.blockchain) <==> c in tx.Ins() && !IsUnknown(c)
      {
      }
    }

    lemma CommitsSum(a: seq<Edge>, b: seq<Edge>)
      ensures Commits(a + b) == Commits(a) + Commits(b)
    {
      assert forall e :: e in a + b <==> e in a || e in b;
    }

    lemma RefsAreInputs(tx: Transaction, refs: Refs, c: Commitment)
      requires Valid() && Resolved(State(), blockchain.utxo, tx.hash, tx.Ins(), refs)
      requires c in Commits(refs.pool + refs.blockchain + refs.orphan)
      ensures c in tx.Ins()
    {
      var e :| e in refs.pool + refs.blockchain + refs.orphan && e.output == c;
      assert c in Commits(refs.pool) || c in Commits(refs.blockchain) || c in Commits(refs.orphan);
    }

    /** Every transaction marked since `before`, except `h` itself, has its orphaned children marked. */
    ghost predicate ChildrenMarked(before: set<Hash>, marked: set<Hash>)
      reads this, pool, pool.graph, blockchain
    {
      forall g, k :: g in marked - before && IsOrphanedChild(State(), blockchain.utxo.Keys, g, k) ==> k in marked
    }

    /** Only what a closed set around `h` must hold anyway has been marked. */
    ghost predicate OnlyReachable(h: Hash, before: set<Hash>, marked: set<Hash>)
      reads this, pool, pool.graph, blockchain
    {
      forall t: set<Hash> :: MarkClosed(State(), blockchain.utxo.Keys, t) && h in t ==> marked <= before + t
    }

    /** Marks a transaction and, recursively, its children that the updated chain does not satisfy. */
    method MarkTransaction(h: Hash, before: set<Hash>) returns (marked: set<Hash>)
      requires Valid() && h in transactions && before <= transactions.Keys
      ensures before + {h} <= marked <= transactions.Keys
      ensures ChildrenMarked(before, marked) && OnlyReachable(h, before, marked)
      decreases transactions.Keys - before
    {
      MarkStarts(h, before);
      hide Inv, Transaction.Outs, Transaction.Ins, ChildrenMarked, OnlyReachable, ChildMarked, IsOrphanedChild;
      marked := before;
      if h in before {
        return;
      }
      marked := before + {h};
      var outputs := transactions[h].outputs;
      for i := 0 to |outputs|
        invariant before + {h} <= marked <= transactions.Keys
        invariant ChildrenMarked(before + {h}, marked) && OnlyReachable(h, before, marked)
        invariant forall j :: 0 <= j < i ==> ChildMarked(outputs[j].commitment, marked)
      {
        var c := outputs[i].commitment;
        NoChildNoMark(c, marked);
        if c in pool.graph.edges {
          EdgeEnds(h, c, i);
          if c !in blockchain.utxo {
            var child := pool.graph.edges[c].destination.value;
            ghost var earlier := marked;
            marked := MarkTransaction(child, marked);
            MarkedMore(h, child, c, before, earlier, marked);
          }
        }
      }
      AllChildrenMarked(h, before, marked);
    }

    /** The spender of `c`, if the pool has one and the chain does not have `c`, is marked. */
    ghost predicate ChildMarked(c: Commitment, marked: set<Hash>)
      reads pool, pool.graph, blockchain
    {
      c in pool.graph.edges && c !in blockchain.utxo ==>
        pool.graph.edges[c].destination.Some? && pool.graph.edges[c].destination.value in marked
    }

    lemma MarkStarts(h: Hash, before: set<Hash>)
      ensures ChildrenMarked(before, before) && OnlyReachable(h, before, before)
      ensures ChildrenMarked(before + {h}, before + {h}) && OnlyReachable(h, before, before + {h})
    {
    }

    lemma NoChildNoMark(c: Commitment, marked: set<Hash>)
      ensures c !in pool.graph.edges || c in blockchain.utxo ==> ChildMarked(c, marked)
    {
    }

    lemma EdgeEnds(h: Hash, c: Commitment, i: nat)
      requires Valid() && h in transactions && i < |transactions[h].outputs|
      requires c == transactions[h].outputs[i].commitment && c in pool.graph.edges
      ensures pool.graph.edges[c].source == Some(h)
      ensures pool.graph.edges[c].destination.Some? && pool.graph.edges[c].destination.value in transactions
    {
      CommitIsOut(transactions[h], i);
      EdgesOf(State(), h, c);
    }

    lemma MarkedMore(h: Hash, child: Hash, c: Commitment, before: set<Hash>, earlier: set<Hash>, marked: set<Hash>)
      requires before + {h} <= earlier <= marked && child in marked
      requires ChildrenMarked(before + {h}, earlier) && OnlyReachable(h, before, earlier)
      requires ChildrenMarked(earlier, marked) && OnlyReachable(child, earlier, marked)
      requires c in pool.graph.edges && c !in blockchain.utxo
      requires pool.graph.edges[c].source == Some(h) && pool.graph.edges[c].destination == Some(child)
      ensures ChildrenMarked(before + {h}, marked) && OnlyReachable(h, before, marked)
      ensures ChildMarked(c, marked)
      ensures forall c' :: ChildMarked(c', earlier) ==> ChildMarked(c', marked)
    {
      assert c in State().edges && IsOrphanedChild(State(), blockchain.utxo.Keys, h, child);
      hide IsOrphanedChild;
      forall t: set<Hash> | MarkClosed(State(), blockchain.utxo.Keys, t) && h in t
        ensures marked <= before + t
      {
        assert child in t;
        assert marked <= earlier + t;
        assert earlier <= before + t;
      }
    }

    lemma AllChildrenMarked(h: Hash, before: set<Hash>, marked: set<Hash>)
      requires Valid() && h in transactions && h in marked
      requires ChildrenMarked(before + {h}, marked)
      requires forall j :: 0 <= j < |transactions[h].outputs| ==> ChildMarked(transactions[h].outputs[j].commitment, marked)
      ensures ChildrenMarked(before, marked)
    {
      forall k | IsOrphanedChild(State(), blockchain.utxo.Keys, h, k)
        ensures k in marked
      {
        var c :| c in State().edges && c !in blockchain.utxo.Keys
          && State().edges[c].source == Some(h) && State().edges[c].destination == Some(k);
        EdgeIsPlaced(State(), c);
        var o :| o in transactions[h].outputs && o.commitment == c;
        var j :| 0 <= j < |transactions[h].outputs| && transactions[h].outputs[j] == o;
        assert ChildMarked(transactions[h].outputs[j].commitment, marked);
      }
    }

    /** The transactions that spend a chain output which the block spends too. */
    method SpendersOf(inputs: seq<Commitment>) returns (hs: set<Hash>)
      requires Valid()
      ensures hs <= transactions.Keys
      ensures forall h :: h in hs <==>
        exists c :: c in inputs && c in State().consumed && State().consumed[c].destination == Some(h)
    {
      ghost var s := State();
      forall c | c in s.consumed
        ensures s.consumed[c].destination.Some? && s.consumed[c].destination.value in s.txs
      {
        assert IsExternal(s.txs, c, s.consumed[c]);
      }
      hide Inv;
      hs := set c | c in inputs && c in pool.consumedBlockchainOutputs ::
        pool.consumedBlockchainOutputs[c].destination.value;
    }

    /** The transactions that create an output which the block creates too. */
    method CreatorsOf(es: Edges, outputs: seq<Output>) returns (hs: set<Hash>)
      requires Valid() && forall c :: c in es ==> es[c].source.Some? && es[c].source.value in transactions
      ensures hs <= transactions.Keys
      ensures forall h :: h in hs <==>
        exists o :: o in outputs && o.commitment in es && es[o.commitment].source == Some(h)
    {
      hide Inv;
      hs := set o | o in outputs && o.commitment in es :: es[o.commitment].source.value;
    }

    lemma CreatorsKnown()
      requires Valid()
      ensures forall c :: c in pool.graph.edges ==>
        pool.graph.edges[c].source.Some? && pool.graph.edges[c].source.value in transactions
      ensures forall c :: c in pool.availableOutputs ==>
        pool.availableOutputs[c].source.Some? && pool.availableOutputs[c].source.value in transactions
    {
      var s := State();
      forall c | c in s.edges
        ensures s.edges[c].source.Some? && s.edges[c].source.value in s.txs
      {
        EdgeIsPlaced(s, c);
      }
      forall c | c in s.available
        ensures s.available[c].source.Some? && s.available[c].source.value in s.txs
      {
        assert IsDangling(s.txs, c, s.available[c]);
      }
    }

    /** The transactions that conflict with the block, by what they spend or by what they create. */
    method ConflictingTransactions(b: Block) returns (hs: set<Hash>)
      requires Valid()
      ensures forall h :: h in hs <==> Conflicting(State(), b, h)
      ensures hs <= transactions.Keys
    {
      CreatorsKnown();
      hide Inv;
      var spenders := SpendersOf(b.inputs);
      var creatorsSpent := CreatorsOf(pool.graph.edges, b.outputs);
      var creators := CreatorsOf(pool.availableOutputs, b.outputs);
      hs := spenders + creatorsSpent + creators;
      forall h
        ensures h in hs <==> Conflicting(State(), b, h)
      {
        OutsAreCommitments(b, State().edges, h);
        OutsAreCommitments(b, State().available, h);
        assert h in spenders <==> exists c :: c in b.Ins() && c in State().consumed && State().consumed[c].destination == Some(h);
        hide Block.Ins, Block.Outs;
      }
    }

    lemma OutsAreCommitments(b: Block, es: Edges, h: Hash)
      ensures (exists c :: c in b.Outs() && c in es && es[c].source == Some(h)) <==>
              (exists o :: o in b.outputs && o.commitment in es && es[o.commitment].source == Some(h))
    {
    }

    /** Marks all that the block makes invalid. */
    method MarkConflicts(b: Block) returns (marked: set<Hash>)
      requires Valid()
      ensures IsMarking(State(), blockchain.utxo.Keys, b, marked)
    {
      var conflicting := ConflictingTransactions(b);
      hide Inv, Conflicting, IsOrphanedChild;
      marked := {};
      var left := conflicting;
      while left != {}
        invariant left <= conflicting && conflicting - left <= marked <= transactions.Keys
        invariant ChildrenMarked({}, marked)
        invariant forall t: set<Hash> :: MarkClosed(State(), blockchain.utxo.Keys, t) && conflicting <= t ==> marked <= t
      {
        var h :| h in left;
        ghost var earlier := marked;
        marked := MarkTransaction(h, marked);
        assert forall t: set<Hash> :: MarkClosed(State(), blockchain.utxo.Keys, t) && conflicting <= t ==> h in t && marked <= earlier + t;
        left := left - {h};
      }
      assert MarkClosed(State(), blockchain.utxo.Keys, marked);
    }

    /** Removes the marked transactions, in any order, and updates the roots. */
    method SweepTransactions(marked: set<Hash>) returns (removed: seq<Transaction>)
      requires Valid() && marked <= transactions.Keys
      modifies this, pool, pool.graph
      ensures State() == Swept(old(State()), marked) && pool.Valid()
      ensures forall t :: t in removed <==> t.hash in marked && old(transactions)[t.hash] == t
      ensures |removed| == |marked|
    {
      ghost var s := State();
      hide Swept, PartSwept, Removed, RootsUpdated, Inv;
      removed := [];
      var left := marked;
      NothingSwept(s, marked);
      assert marked - left == {};
      while left != {}
        invariant left <= marked && pool.Valid() && State() == PartSwept(s, marked, marked - left)
        invariant |removed| + |left| == |marked|
        invariant forall t :: t in removed <==> t.hash in marked - left && s.txs[t.hash] == t
      {
        var h :| h in left;
        ghost var done := marked - left;
        RemoveStep(s, marked, done, h);
        PartSweptIsApart(s, marked, done, h);
        var tx := transactions[h];
        pool.RemovePoolTransaction(tx, marked, transactions);
        transactions := transactions - {h};
        removed := removed + [tx];
        left := left - {h};
        assert marked - left == done + {h};
      }
      assert marked - left == marked;
      pool.UpdateRoots(transactions);
      SweptIsUpdated(s, marked);
    }

    lemma SweptIsUpdated(s: State, marked: set<Hash>)
      ensures RootsUpdated(PartSwept(s, marked, marked)) == Swept(s, marked)
    {
    }

    lemma PartSweptIsApart(s: State, marked: set<Hash>, done: set<Hash>, h: Hash)
      requires Sweeping(s, marked, done, h)
      ensures var p := PartSwept(s, marked, done);
        && FullEdges(p.edges) && p.edges.Keys !! p.available.Keys && p.edges.Keys !! p.consumed.Keys
        && h in p.txs && p.txs[h] == s.txs[h] && s.txs[h].hash == h
    {
      KeyedAt(s, h);
      forall c
        ensures var p := PartSwept(s, marked, done);
          && (c in p.edges ==> IsFull(c, p.edges[c]) && c !in p.available && c !in p.consumed)
      {
        EdgesOf(s, h, c);
      }
    }

    /** Brings the pool in line with a block that the chain has already applied. */
    method ReconcileBlock(b: Block, ghost utxo: set<Commitment>) returns (freed: seq<Transaction>)
      requires Valid() && InSync(State(), utxo) && blockchain.utxo.Keys == Unspent(utxo, b)
      modifies this, pool, pool.graph
      ensures Synced() && Step(old(State()), utxo, State(), blockchain.utxo.Keys)
      ensures exists marked: set<Hash> ::
        && IsMarking(old(State()), Unspent(utxo, b), b, marked) && State() == Swept(old(State()), marked)
        && forall t :: t in freed <==> t.hash in marked && old(transactions)[t.hash] == t
      // what goes are those that the block touches, and their dependents; all others stay as they are
      ensures forall h :: h in transactions <==> h in old(transactions) && !Doomed(old(transactions), utxo, b, h)
      ensures forall h :: h in transactions ==> transactions[h] == old(transactions)[h]
      ensures forall t :: t in freed <==>
        t.hash in old(transactions) && old(transactions)[t.hash] == t && Doomed(old(transactions), utxo, b, t.hash)
    {
      hide Inv, InSync, IsMarking, Swept, Doomed, Unspent;
      ghost var s := State();
      var marked := MarkConflicts(b);
      SweptIsGood(s, utxo, b, marked);
      SurvivorsAre(s, utxo, b, marked);
      freed := SweepTransactions(marked);
    }

    /** Everything `t` spends is unspent on the chain, or created by another of `txs`. */
    ghost predicate Mineable(t: Transaction, txs: seq<Transaction>)
      reads blockchain
    {
      forall c :: c in t.Ins() ==> c in blockchain.utxo || exists u :: u in txs && u != t && c in u.Outs()
    }

    /** Transactions fit for a block, each with all of its inputs at hand. */
    method PrepareMineableTransactions(numToFetch: nat) returns (txs: seq<Transaction>)
      requires Synced()
      ensures |txs| <= numToFetch
      ensures forall t :: t in txs ==> t.hash in transactions && transactions[t.hash] == t
      ensures forall i, j :: 0 <= i < j < |txs| ==> txs[i] != txs[j]
      ensures forall t :: t in txs ==> Mineable(t, txs)
      ensures |pool.graph.roots| + |pool.graph.vertices| <= numToFetch ==> forall h :: h in transactions ==> transactions[h] in txs
      ensures |pool.graph.roots| + |pool.graph.vertices| > numToFetch ==>
        |txs| == if |pool.graph.roots| < numToFetch then |pool.graph.roots| else numToFetch
    {
      var hashes := pool.GetMineableTransactions(numToFetch);
      Listed(hashes);
      hide Inv, Mineable;
      txs := [];
      for i := 0 to |hashes|
        invariant |txs| == i && Fetched(hashes[..i], txs)
      {
        txs := txs + [transactions[hashes[i]]];
        assert hashes[..i + 1] == hashes[..i] + [hashes[i]];
      }
      assert hashes[..|hashes|] == hashes;
      FetchedAre(hashes, txs);
    }

    ghost predicate Fetched(hashes: seq<Hash>, txs: seq<Transaction>)
      reads this
    {
      |txs| == |hashes| && forall i :: 0 <= i < |txs| ==> hashes[i] in transactions && txs[i] == transactions[hashes[i]]
    }

    lemma Listed(hashes: seq<Hash>)
      requires Valid() && forall h :: h in hashes ==> h in pool.graph.Roots() + pool.graph.Inner()
      ensures forall h :: h in hashes ==> h in transactions
    {
      assert State().roots + State().inner == transactions.Keys;
    }

    lemma FetchedAre(hashes: seq<Hash>, txs: seq<Transaction>)
      requires Synced() && Fetched(hashes, txs)
      requires forall i, j :: 0 <= i < j < |hashes| ==> hashes[i] != hashes[j]
      requires || (forall h :: h in hashes <==> h in pool.graph.Roots() + pool.graph.Inner())
               || (forall h :: h in hashes ==> h in pool.graph.Roots())
      ensures forall t :: t in txs ==> t.hash in transactions && transactions[t.hash] == t
      ensures forall i, j :: 0 <= i < j < |txs| ==> txs[i] != txs[j]
      ensures forall t :: t in txs ==> Mineable(t, txs)
      ensures forall h :: h in hashes ==> transactions[h] in txs
      ensures (forall h :: h in hashes <==> h in pool.graph.Roots() + pool.graph.Inner()) ==>
              forall h :: h in transactions ==> h in hashes
    {
      assert Keyed(transactions);
      assert State().roots + State().inner == transactions.Keys;
      forall h | h in hashes
        ensures transactions[h] in txs
      {
        var i :| 0 <= i < |hashes| && hashes[i] == h;
        assert txs[i] == transactions[h];
      }
      hide Inv, Mineable, InSync;
      forall t | t in txs
        ensures Mineable(t, txs)
      {
        var i :| 0 <= i < |txs| && txs[i] == t;
        InputsAtHand(hashes, txs, hashes[i]);
      }
    }

    lemma InputsAtHand(hashes: seq<Hash>, txs: seq<Transaction>, h: Hash)
      requires Synced() && h in hashes && h in transactions
      requires forall g :: g in hashes ==> g in transactions && transactions[g] in txs
      requires || (forall h :: h in hashes <==> h in pool.graph.Roots() + pool.graph.Inner())
               || (forall h :: h in hashes ==> h in pool.graph.Roots())
      ensures Mineable(transactions[h], txs)
    {
      var s, t := State(), transactions[h];
      var rank :| RanksUp(s.edges, rank);
      forall c | c in t.Ins() && c !in blockchain.utxo
        ensures exists u :: u in txs && u != t && c in u.Outs()
      {
        assert InputPlaced(s, h, c);
        SyncedApart(s, blockchain.utxo.Keys, c);
        EdgeIsPlaced(s, c);
        assert RankedEdge(rank, s.edges[c]);
        assert HasParent(s.edges, h);
        var g := s.edges[c].source.value;
        assert g in s.roots + s.inner;
        assert transactions[g].hash == g && t.hash == h;
        assert transactions[g] in txs && c in transactions[g].Outs();
      }
    }
  }

  /** A block arrives: the chain applies it, then the pool is reconciled with it. */
  method BlockArrives(p: TransactionPool, b: Block) returns (freed: seq<Transaction>)
    requires p.Synced()
    modifies p, p.pool, p.pool.graph, p.blockchain
    ensures p.Synced()
    ensures Step(old(p.State()), old(p.blockchain.utxo.Keys), p.State(), p.blockchain.utxo.Keys)
    ensures forall h :: h in p.transactions <==>
      h in old(p.transactions) && !Doomed(old(p.transactions), old(p.blockchain.utxo.Keys), b, h)
  {
    ghost var utxo := p.blockchain.utxo.Keys;
    p.blockchain.ApplyBlock(b);
    freed := p.ReconcileBlock(b, utxo);
  }
}
