/** The transaction pool as a value: what its maps hold, and what must always be true of them. */
module PoolState {
  import opened Wrappers

  datatype Hash = Hash(id: nat)

  datatype Commitment = Commitment(id: nat)

  datatype Output = Output(commitment: Commitment, coinbase: bool)

  datatype Transaction = Transaction(
    hash: Hash,
    inputs: seq<Commitment>,
    outputs: seq<Output>,
    fee: nat,
    lockHeight: nat)
  {
    ghost function Ins(): set<Commitment> {
      set c | c in inputs
    }

    ghost function Outs(): set<Commitment> {
      set o | o in outputs :: o.commitment
    }
  }

  /** A spending reference; the end that lies outside the pool is left out. */
  datatype Edge = Edge(source: Option<Hash>, destination: Option<Hash>, output: Commitment)

  type Edges = map<Commitment, Edge>

  type Utxo = map<Commitment, Output>

  datatype Block = Block(inputs: seq<Commitment>, outputs: seq<Output>) {
    ghost function Ins(): set<Commitment> {
      set c | c in inputs
    }

    ghost function Outs(): set<Commitment> {
      set o | o in outputs :: o.commitment
    }
  }

  /** The commitments a block leaves unspent: its inputs go, then its outputs come. */
  ghost function Unspent(utxo: set<Commitment>, b: Block): set<Commitment> {
    utxo - b.Ins() + b.Outs()
  }

  /** The pool's content. Vertices are kept as sets: their order in the lists carries no meaning. */
  datatype State = State(
    txs: map<Hash, Transaction>,
    edges: Edges,
    available: Edges,
    consumed: Edges,
    roots: set<Hash>,
    inner: set<Hash>)

  const EmptyState: State := State(map[], map[], map[], map[], {}, {})

  // ---------------------------------------------------------------- invariant

  /** An edge inside the pool joins the transaction that creates `c` to the one that spends it. */
  ghost predicate IsInternal(txs: map<Hash, Transaction>, c: Commitment, e: Edge) {
    && e.output == c && e.source.Some? && e.destination.Some?
    && e.source.value in txs && c in txs[e.source.value].Outs()
    && e.destination.value in txs && c in txs[e.destination.value].Ins()
  }

  /** An output of the pool that nothing in the pool spends. */
  ghost predicate IsDangling(txs: map<Hash, Transaction>, c: Commitment, e: Edge) {
    && e.output == c && e.source.Some? && e.destination.None?
    && e.source.value in txs && c in txs[e.source.value].Outs()
  }

  /** An input of the pool that nothing in the pool creates. */
  ghost predicate IsExternal(txs: map<Hash, Transaction>, c: Commitment, e: Edge) {
    && e.output == c && e.source.None? && e.destination.Some?
    && e.destination.value in txs && c in txs[e.destination.value].Ins()
  }

  /** The output `c` of transaction `h` is in exactly one of `edges` and `available`. */
  ghost predicate OutputPlaced(s: State, h: Hash, c: Commitment) {
    if c in s.edges then c !in s.available && s.edges[c].source == Some(h)
    else c in s.available && s.available[c].source == Some(h)
  }

  /** The input `c` of transaction `h` is in exactly one of `edges` and `consumed`. */
  ghost predicate InputPlaced(s: State, h: Hash, c: Commitment) {
    if c in s.edges then c !in s.consumed && s.edges[c].destination == Some(h)
    else c in s.consumed && s.consumed[c].destination == Some(h)
  }

  ghost predicate OutputsPartitioned(s: State) {
    forall h: Hash, c: Commitment {:trigger OutputPlaced(s, h, c)} ::
      h in s.txs && c in s.txs[h].Outs() ==> OutputPlaced(s, h, c)
  }

  ghost predicate InputsPartitioned(s: State) {
    forall h: Hash, c: Commitment {:trigger InputPlaced(s, h, c)} ::
      h in s.txs && c in s.txs[h].Ins() ==> InputPlaced(s, h, c)
  }

  ghost predicate MapsSound(s: State) {
    && (forall c {:trigger IsInternal(s.txs, c, s.edges[c])} :: c in s.edges ==> IsInternal(s.txs, c, s.edges[c]))
    && (forall c {:trigger IsDangling(s.txs, c, s.available[c])} :: c in s.available ==> IsDangling(s.txs, c, s.available[c]))
    && (forall c {:trigger IsExternal(s.txs, c, s.consumed[c])} :: c in s.consumed ==> IsExternal(s.txs, c, s.consumed[c]))
  }

  ghost predicate HasParent(edges: Edges, h: Hash) {
    exists c :: c in edges && edges[c].destination == Some(h)
  }

  /** The vertices are the transactions, and the roots are those without a parent in the pool. */
  ghost predicate RootsExact(s: State) {
    && s.roots + s.inner == s.txs.Keys && s.roots !! s.inner
    && (forall h :: h in s.roots ==> !HasParent(s.edges, h))
    && (forall h :: h in s.inner ==> HasParent(s.edges, h))
  }

  /** Every edge goes up in rank, so no transaction descends from itself. */
  ghost predicate RanksUp(edges: Edges, rank: map<Hash, nat>) {
    forall c {:trigger RankedEdge(rank, edges[c])} :: c in edges ==> RankedEdge(rank, edges[c])
  }

  ghost predicate RankedEdge(rank: map<Hash, nat>, e: Edge) {
    e.source.Some? && e.destination.Some? ==>
      && e.source.value in rank && e.destination.value in rank
      && rank[e.source.value] < rank[e.destination.value]
  }

  ghost predicate Acyclic(edges: Edges) {
    exists rank: map<Hash, nat> :: RanksUp(edges, rank)
  }

  ghost predicate Keyed(txs: map<Hash, Transaction>) {
    forall h :: h in txs ==> txs[h].hash == h
  }

  ghost predicate Inv(s: State) {
    && Keyed(s.txs) && MapsSound(s) && OutputsPartitioned(s) && InputsPartitioned(s)
    && RootsExact(s) && Acyclic(s.edges)
  }

  /** The pool spends only unspent chain outputs, and creates none that the chain has. */
  ghost predicate InSync(s: State, utxo: set<Commitment>) {
    s.consumed.Keys <= utxo && (s.edges.Keys + s.available.Keys) !! utxo
  }

  lemma EmptyIsGood(utxo: set<Commitment>)
    ensures Inv(EmptyState) && InSync(EmptyState, utxo)
  {
    assert RanksUp(EmptyState.edges, map[]);
  }

  lemma EdgeIsPlaced(s: State, c: Commitment)
    requires MapsSound(s) && OutputsPartitioned(s) && InputsPartitioned(s) && c in s.edges
    ensures IsInternal(s.txs, c, s.edges[c]) && c !in s.available && c !in s.consumed
  {
    assert IsInternal(s.txs, c, s.edges[c]);
    assert OutputPlaced(s, s.edges[c].source.value, c);
    assert InputPlaced(s, s.edges[c].destination.value, c);
  }

  /** No two pool transactions spend, or create, the same commitment. */
  lemma NoConflicts(s: State, g: Hash, h: Hash, c: Commitment)
    requires Inv(s) && g in s.txs && h in s.txs
    ensures c in s.txs[g].Ins() && c in s.txs[h].Ins() ==> g == h
    ensures c in s.txs[g].Outs() && c in s.txs[h].Outs() ==> g == h
  {
    assert c in s.txs[g].Ins() ==> InputPlaced(s, g, c);
    assert c in s.txs[h].Ins() ==> InputPlaced(s, h, c);
    assert c in s.txs[g].Outs() ==> OutputPlaced(s, g, c);
    assert c in s.txs[h].Outs() ==> OutputPlaced(s, h, c);
  }

  /** Pool inputs are the disjoint union of edges and consumed; outputs, of edges and available. */
  lemma Partition(s: State, c: Commitment)
    requires Inv(s)
    ensures (exists h :: h in s.txs && c in s.txs[h].Outs()) <==> c in s.edges || c in s.available
    ensures (exists h :: h in s.txs && c in s.txs[h].Ins()) <==> c in s.edges || c in s.consumed
    ensures !(c in s.edges && c in s.available) && !(c in s.edges && c in s.consumed)
  {
    forall h | h in s.txs && c in s.txs[h].Outs() ensures c in s.edges || c in s.available { assert OutputPlaced(s, h, c); }
    forall h | h in s.txs && c in s.txs[h].Ins() ensures c in s.edges || c in s.consumed { assert InputPlaced(s, h, c); }
    if c in s.edges { EdgeIsPlaced(s, c); }
    if c in s.available { assert IsDangling(s.txs, c, s.available[c]); }
    if c in s.consumed { assert IsExternal(s.txs, c, s.consumed[c]); }
  }

  // ---------------------------------------------------------------- adding

  /** Everything `tx` spends is either an available pool output or an unclaimed chain output. */
  ghost predicate Spendable(s: State, utxo: set<Commitment>, tx: Transaction) {
    forall c :: c in tx.Ins() ==> c in s.available || (c in utxo && c !in s.consumed)
  }

  /** Nothing `tx` creates exists already. */
  ghost predicate Creatable(s: State, utxo: set<Commitment>, tx: Transaction) {
    forall c :: c in tx.Outs() ==> c !in utxo && c !in s.available && c !in s.edges
  }

  /** The pool with `tx` added. */
  ghost function Added(s: State, tx: Transaction): State {
    var claimed := tx.Ins() * s.available.Keys;
    State(
      s.txs[tx.hash := tx],
      s.edges + map c | c in claimed :: s.available[c].(destination := Some(tx.hash)),
      (s.available - claimed) + map c | c in tx.Outs() :: Edge(Some(tx.hash), None, c),
      s.consumed + map c | c in tx.Ins() - s.available.Keys :: Edge(None, Some(tx.hash), c),
      if claimed == {} then s.roots + {tx.hash} else s.roots,
      if claimed == {} then s.inner else s.inner + {tx.hash})
  }

  ghost predicate Admissible(s: State, utxo: set<Commitment>, tx: Transaction) {
    && Inv(s) && InSync(s, utxo) && tx.hash !in s.txs
    && Spendable(s, utxo, tx) && Creatable(s, utxo, tx)
  }

  lemma SyncedApart(s: State, utxo: set<Commitment>, c: Commitment)
    requires InSync(s, utxo)
    ensures c in s.consumed ==> c in utxo
    ensures c in s.edges || c in s.available ==> c !in utxo
  {
    assert c in s.edges.Keys || c in s.available.Keys ==> c in s.edges.Keys + s.available.Keys;
  }

  lemma AddedEdgeSound(s: State, utxo: set<Commitment>, tx: Transaction, c: Commitment)
    requires Admissible(s, utxo, tx) && c in Added(s, tx).edges
    ensures IsInternal(Added(s, tx).txs, c, Added(s, tx).edges[c])
  {
    hide Transaction.Ins, Transaction.Outs;
    if c in tx.Ins() && c in s.available { assert IsDangling(s.txs, c, s.available[c]); } else { EdgeIsPlaced(s, c); }
  }

  lemma AddedDanglingSound(s: State, utxo: set<Commitment>, tx: Transaction, c: Commitment)
    requires Admissible(s, utxo, tx) && c in Added(s, tx).available
    ensures IsDangling(Added(s, tx).txs, c, Added(s, tx).available[c])
  {
    hide Transaction.Ins, Transaction.Outs;
    if c !in tx.Outs() { assert IsDangling(s.txs, c, s.available[c]); }
  }

  lemma AddedExternalSound(s: State, utxo: set<Commitment>, tx: Transaction, c: Commitment)
    requires Admissible(s, utxo, tx) && c in Added(s, tx).consumed
    ensures IsExternal(Added(s, tx).txs, c, Added(s, tx).consumed[c])
  {
    hide Transaction.Ins, Transaction.Outs;
    if c !in tx.Ins() || c in s.available { assert IsExternal(s.txs, c, s.consumed[c]); }
  }

  lemma AddedMapsSound(s: State, utxo: set<Commitment>, tx: Transaction)
    requires Admissible(s, utxo, tx)
    ensures MapsSound(Added(s, tx))
  {
    var s' := Added(s, tx);
    hide Added, Admissible, IsInternal, IsDangling, IsExternal;
    forall c | c in s'.edges ensures IsInternal(s'.txs, c, s'.edges[c]) { AddedEdgeSound(s, utxo, tx, c); }
    forall c | c in s'.available ensures IsDangling(s'.txs, c, s'.available[c]) { AddedDanglingSound(s, utxo, tx, c); }
    forall c | c in s'.consumed ensures IsExternal(s'.txs, c, s'.consumed[c]) { AddedExternalSound(s, utxo, tx, c); }
  }

  lemma AddedOutputPlaced(s: State, utxo: set<Commitment>, tx: Transaction, h: Hash, c: Commitment)
    requires Admissible(s, utxo, tx) && h in Added(s, tx).txs && c in Added(s, tx).txs[h].Outs()
    ensures OutputPlaced(Added(s, tx), h, c)
  {
    hide Transaction.Ins, Transaction.Outs, RootsExact, Acyclic, MapsSound;
    if h != tx.hash { assert OutputPlaced(s, h, c); }
  }

  lemma AddedInputPlaced(s: State, utxo: set<Commitment>, tx: Transaction, h: Hash, c: Commitment)
    requires Admissible(s, utxo, tx) && h in Added(s, tx).txs && c in Added(s, tx).txs[h].Ins()
    ensures InputPlaced(Added(s, tx), h, c)
  {
    hide Transaction.Ins, Transaction.Outs, RootsExact, Acyclic;
    SyncedApart(s, utxo, c);
    if c in s.edges { EdgeIsPlaced(s, c); }
    if h != tx.hash { assert InputPlaced(s, h, c); }
  }

  lemma AddedInSync(s: State, utxo: set<Commitment>, tx: Transaction)
    requires Admissible(s, utxo, tx)
    ensures InSync(Added(s, tx), utxo)
  {
    hide Transaction.Ins, Transaction.Outs, Inv;
  }

  lemma AddedPartitioned(s: State, utxo: set<Commitment>, tx: Transaction)
    requires Admissible(s, utxo, tx)
    ensures OutputsPartitioned(Added(s, tx)) && InputsPartitioned(Added(s, tx))
  {
    var s' := Added(s, tx);
    hide Added, Admissible, OutputPlaced, InputPlaced, Transaction.Ins, Transaction.Outs;
    forall h: Hash, c: Commitment | h in s'.txs && c in s'.txs[h].Outs()
      ensures OutputPlaced(s', h, c)
    {
      AddedOutputPlaced(s, utxo, tx, h, c);
    }
    forall h: Hash, c: Commitment | h in s'.txs && c in s'.txs[h].Ins()
      ensures InputPlaced(s', h, c)
    {
      AddedInputPlaced(s, utxo, tx, h, c);
    }
  }

  lemma AddedParents(s: State, utxo: set<Commitment>, tx: Transaction, h: Hash)
    requires Admissible(s, utxo, tx)
    ensures HasParent(Added(s, tx).edges, h) <==>
            HasParent(s.edges, h) || (h == tx.hash && tx.Ins() * s.available.Keys != {})
    ensures !HasParent(s.edges, tx.hash)
  {
    hide Transaction.Ins, Transaction.Outs, Added, Inv, InSync, Spendable, Creatable;
    NoEdgeYet(s, utxo, tx);
    EdgesStay(s, utxo, tx);
    AddedEdges(s, tx);
    if HasParent(s.edges, h) {
      var c :| c in s.edges && s.edges[c].destination == Some(h);
      assert Added(s, tx).edges[c] == s.edges[c];
    }
    if tx.Ins() * s.available.Keys != {} {
      var c :| c in tx.Ins() * s.available.Keys;
      assert Added(s, tx).edges[c].destination == Some(tx.hash);
    }
  }

  lemma AddedEdges(s: State, tx: Transaction)
    ensures forall c :: c in Added(s, tx).edges <==> c in s.edges || c in tx.Ins() * s.available.Keys
    ensures forall c :: c in tx.Ins() * s.available.Keys ==> Added(s, tx).edges[c].destination == Some(tx.hash)
    ensures forall c :: c in s.edges && c !in s.available ==> Added(s, tx).edges[c] == s.edges[c]
  {
    hide Transaction.Ins, Transaction.Outs;
  }

  lemma EdgesStay(s: State, utxo: set<Commitment>, tx: Transaction)
    requires Admissible(s, utxo, tx)
    ensures forall c :: c in s.edges ==> c !in s.available
  {
    hide Transaction.Ins, Transaction.Outs;
    forall c | c in s.edges
      ensures c !in s.available
    {
      EdgeIsPlaced(s, c);
    }
  }

  lemma NoEdgeYet(s: State, utxo: set<Commitment>, tx: Transaction)
    requires Admissible(s, utxo, tx)
    ensures forall c :: c in s.edges ==> s.edges[c].destination != Some(tx.hash)
  {
    hide Transaction.Ins, Transaction.Outs;
    forall c | c in s.edges
      ensures s.edges[c].destination != Some(tx.hash)
    {
      EdgeIsPlaced(s, c);
    }
  }

  lemma AddedRootsExact(s: State, utxo: set<Commitment>, tx: Transaction)
    requires Admissible(s, utxo, tx)
    ensures RootsExact(Added(s, tx))
  {
    hide Transaction.Ins, Transaction.Outs, HasParent;
    forall h
      ensures HasParent(Added(s, tx).edges, h) <==>
              HasParent(s.edges, h) || (h == tx.hash && tx.Ins() * s.available.Keys != {})
    {
      AddedParents(s, utxo, tx, h);
    }
    AddedParents(s, utxo, tx, tx.hash);
  }

  ghost function NewRank(s: State, tx: Transaction, rank: map<Hash, nat>): map<Hash, nat> {
    var top := TopRank(s.txs.Keys, rank);
    (map h | h in s.txs.Keys :: if h in rank then rank[h] else 0)[tx.hash := top + 1]
  }

  lemma NewRankFits(s: State, utxo: set<Commitment>, tx: Transaction, rank: map<Hash, nat>, c: Commitment)
    requires Admissible(s, utxo, tx) && RanksUp(s.edges, rank) && c in Added(s, tx).edges
    ensures RankedEdge(NewRank(s, tx, rank), Added(s, tx).edges[c])
  {
    hide Transaction.Ins, Transaction.Outs, RootsExact, Acyclic, TopRank;
    if c in tx.Ins() && c in s.available {
      assert IsDangling(s.txs, c, s.available[c]);
    } else {
      EdgeIsPlaced(s, c);
      assert RankedEdge(rank, s.edges[c]);
    }
  }

  /** The newest transaction ranks above all others. */
  lemma AddedAcyclic(s: State, utxo: set<Commitment>, tx: Transaction)
    requires Admissible(s, utxo, tx)
    ensures Acyclic(Added(s, tx).edges)
  {
    var rank :| RanksUp(s.edges, rank);
    hide Added, Admissible, NewRank, RankedEdge;
    forall c | c in Added(s, tx).edges
      ensures RankedEdge(NewRank(s, tx, rank), Added(s, tx).edges[c])
    {
      NewRankFits(s, utxo, tx, rank, c);
    }
    assert RanksUp(Added(s, tx).edges, NewRank(s, tx, rank));
  }

  ghost function TopRank(hs: set<Hash>, rank: map<Hash, nat>): (top: nat)
    ensures forall h :: h in hs && h in rank ==> rank[h] <= top
  {
    if hs == {} then 0 else
      var h :| h in hs;
      var rest := TopRank(hs - {h}, rank);
      if h in rank && rank[h] > rest then rank[h] else rest
  }

  /** Adding an admissible transaction keeps the pool sound and in step with the chain. */
  lemma AddedIsGood(s: State, utxo: set<Commitment>, tx: Transaction)
    requires Admissible(s, utxo, tx)
    ensures Inv(Added(s, tx)) && InSync(Added(s, tx), utxo)
  {
    AddedMapsSound(s, utxo, tx);
    AddedPartitioned(s, utxo, tx);
    AddedInSync(s, utxo, tx);
    AddedRootsExact(s, utxo, tx);
    AddedAcyclic(s, utxo, tx);
  }

  // ---------------------------------------------------------------- marking

  /** The transactions that a block conflicts with directly. */
  ghost predicate Conflicting(s: State, b: Block, h: Hash) {
    || (exists c :: c in b.Ins() && c in s.consumed && s.consumed[c].destination == Some(h))
    || (exists c :: c in b.Outs() && c in s.edges && s.edges[c].source == Some(h))
    || (exists c :: c in b.Outs() && c in s.available && s.available[c].source == Some(h))
  }

  /** `child` spends an output of `parent` that the chain does not have. */
  ghost predicate IsOrphanedChild(s: State, utxo: set<Commitment>, parent: Hash, child: Hash) {
    exists c :: c in s.edges && c !in utxo
      && s.edges[c].source == Some(parent) && s.edges[c].destination == Some(child)
  }

  ghost predicate MarkClosed(s: State, utxo: set<Commitment>, t: set<Hash>) {
    forall g, h :: g in t && IsOrphanedChild(s, utxo, g, h) ==> h in t
  }

  /** `marked` is the least set that holds the conflicting transactions and their orphaned children. */
  ghost predicate IsMarking(s: State, utxo: set<Commitment>, b: Block, marked: set<Hash>) {
    && (forall h :: Conflicting(s, b, h) ==> h in marked)
    && MarkClosed(s, utxo, marked)
    && (forall t: set<Hash> :: MarkClosed(s, utxo, t) && (forall h :: Conflicting(s, b, h) ==> h in t) ==> marked <= t)
    && marked <= s.txs.Keys
  }

  // ---------------------------------------------------------------- sweeping

  ghost predicate From(e: Edge, t: set<Hash>) {
    e.source.Some? && e.source.value in t
  }

  ghost predicate To(e: Edge, t: set<Hash>) {
    e.destination.Some? && e.destination.value in t
  }

  /** The pool once the transactions `done`, out of those marked, have been removed. */
  ghost function PartSwept(s: State, marked: set<Hash>, done: set<Hash>): State {
    State(
      s.txs - done,
      map c | c in s.edges && !From(s.edges[c], done) && !To(s.edges[c], done) :: s.edges[c],
      (map c | c in s.available && !From(s.available[c], done) :: s.available[c])
      + (map c | c in s.edges && !From(s.edges[c], marked) && To(s.edges[c], done) :: s.edges[c].(destination := None)),
      (map c | c in s.consumed && !To(s.consumed[c], done) :: s.consumed[c])
      + (map c | c in s.edges && From(s.edges[c], done) && !To(s.edges[c], marked) :: s.edges[c].(source := None)),
      s.roots - done,
      s.inner - done)
  }

  /** The transactions that became roots join the others. */
  ghost function RootsUpdated(s: State): State {
    var promoted := set h | h in s.inner && !HasParent(s.edges, h);
    s.(roots := s.roots + promoted, inner := s.inner - promoted)
  }

  /** The pool after the sweep. No order of removal appears: the outcome is the same for all. */
  ghost function Swept(s: State, marked: set<Hash>): State {
    RootsUpdated(PartSwept(s, marked, marked))
  }

  /** What `remove_pool_transaction` does to the maps. */
  ghost function Removed(s: State, tx: Transaction, marked: set<Hash>): State {
    var edges1 := s.edges - tx.Ins();
    State(
      s.txs - {tx.hash},
      edges1 - tx.Outs(),
      s.available + (map c | c in s.edges && c in tx.Ins() && !From(s.edges[c], marked) :: s.edges[c].(destination := None))
      - tx.Outs(),
      s.consumed - tx.Ins()
      + (map c | c in edges1 && c in tx.Outs() && !To(edges1[c], marked) :: edges1[c].(source := None)),
      s.roots - {tx.hash},
      s.inner - {tx.hash})
  }
}
