/** What admission asks of a transaction, in terms of the pool's transactions and the chain alone. */
module PoolAdmission {
  import opened PoolState
  import opened PoolGraph

  /** Weight of a transaction for the fee rule; at least one. */
  function Weight(tx: Transaction): (w: nat)
    ensures w >= 1
  {
    var w := -|tx.inputs| + 4 * |tx.outputs| + 1;
    if w < 1 then 1 else w
  }

  /** The fee pays for four times the outputs and one, less the inputs, and for one in any case. */
  predicate FeeFits(tx: Transaction, fee: nat, base: nat) {
    fee >= base && fee + base * |tx.inputs| >= base * (4 * |tx.outputs| + 1)
  }

  /** The weight times the base fee is the least fee that pays. */
  lemma WeightIsLeastFee(tx: Transaction, fee: nat, base: nat)
    ensures fee >= Weight(tx) * base <==> FeeFits(tx, fee, base)
  {
    var i, o := |tx.inputs|, 4 * |tx.outputs| + 1;
    if o - i < 1 {
      Product(i, o, base);
    } else {
      assert (o - i) * base == base * o - base * i;
      Product(o - i, 1, base);
    }
  }

  lemma Product(a: nat, b: nat, base: nat)
    requires a >= b
    ensures a * base >= b * base && base * a >= base * b
  {
    assert a * base - b * base == (a - b) * base;
  }

  ghost predicate SpentIn(txs: map<Hash, Transaction>, c: Commitment) {
    exists h :: h in txs && c in txs[h].Ins()
  }

  ghost predicate CreatedIn(txs: map<Hash, Transaction>, c: Commitment) {
    exists h :: h in txs && c in txs[h].Outs()
  }

  /** If the chain has `c` as a coinbase output of a known height, that is `maturity` blocks back at least. */
  ghost predicate Mature(utxo: Utxo, heights: map<Commitment, nat>, head: nat, maturity: nat, c: Commitment) {
    c in utxo && utxo[c].coinbase && utxo[c].commitment in heights ==> head >= heights[utxo[c].commitment] + maturity
  }

  lemma {:induction false} NamesSize(es: seq<PoolEntry>)
    requires Distinct(es)
    ensures |Names(es)| == |es|
  {
    if es != [] {
      var last := |es| - 1;
      NamesSize(es[..last]);
      assert es == es[..last] + [es[last]];
      AppendNames(es[..last], es[last]);
      assert es[last].transactionHash !in Names(es[..last]) by {
        assert forall e :: e in es[..last] ==> e.transactionHash != es[last].transactionHash;
      }
    }
  }

  /** The two lists hold as many vertices as there are transactions. */
  lemma VerticesAreTransactions(s: State, roots: seq<PoolEntry>, vertices: seq<PoolEntry>)
    requires RootsExact(s) && s.roots == Names(roots) && s.inner == Names(vertices) && Distinct(roots) && Distinct(vertices)
    ensures |vertices| + |roots| == |s.txs|
  {
    NamesSize(roots);
    NamesSize(vertices);
    assert |s.roots + s.inner| == |s.roots| + |s.inner|;
    assert |s.txs.Keys| == |s.txs|;
  }
}
