/** The Cuckoo Cycle bipartite graph and what it means for nonces to prove work. */
module CuckooGraph {

  const U64_SPAN: nat := 0x1_0000_0000_0000_0000
  const U32_SPAN: nat := 0x1_0000_0000

  function Pow2(n: nat): (p: nat)
    ensures p >= 1
  {
    if n == 0 then 1 else 2 * Pow2(n - 1)
  }

  lemma {:induction false} Pow2Monotone(a: nat, b: nat)
    requires a <= b
    ensures Pow2(a) <= Pow2(b)
  {
    if a < b {
      Pow2Monotone(a, b - 1);
    }
  }

  /** An edge, as the pair of its u-node and its v-node. */
  datatype Edge = Edge(u: nat, v: nat)

  /** A graph context: its size exponent and the keyed hash that generates nodes. */
  datatype Context = Context(sizeshift: nat, sip: nat -> nat) {

    function Size(): nat {
      Pow2(sizeshift)
    }

    /** `(sip(2 * nonce + uorv) & mask) << 1 | uorv`, where `mask + 1` is half the graph size. */
    function NewNode(nonce: nat, uorv: nat): (node: nat)
      requires sizeshift >= 1
      requires uorv < 2
      ensures node < Size() && node % 2 == uorv
    {
      var half := Pow2(sizeshift - 1);
      var low := sip(2 * nonce + uorv) % half;
      assert low <= half - 1;
      2 * low + uorv
    }

    function NewEdge(nonce: nat): (e: Edge)
      requires sizeshift >= 1
      ensures e.u % 2 == 0 && e.v % 2 == 1
    {
      Edge(NewNode(nonce, 0), NewNode(nonce, 1))
    }

    /** Bound on nonces: a percentage of the graph size, in wrapping 64-bit arithmetic. */
    function Easiness(ease: nat): nat {
      ease * Size() % U64_SPAN / 100
    }
  }

  /** `n` and one more are within a hundredth of `total`. */
  predicate BelowShare(n: nat, total: nat) {
    100 * (n + 1) <= total
  }

  lemma PercentBelow(total: nat, n: nat)
    ensures n < total / 100 <==> BelowShare(n, total)
  {
    assert total == 100 * (total / 100) + total % 100;
  }

  /** Every nonce is below a percentage of `total`. */
  ghost predicate WithinShare(nonces: seq<nat>, total: nat) {
    forall i :: 0 <= i < |nonces| ==> BelowShare(nonces[i], total)
  }

  lemma EasinessIsShare(c: Context, ease: nat, nonces: seq<nat>)
    ensures (forall i :: 0 <= i < |nonces| ==> nonces[i] < c.Easiness(ease)) <==>
            WithinShare(nonces, ease * c.Size() % U64_SPAN)
  {
    hide Context.Size;
    forall i | 0 <= i < |nonces|
      ensures nonces[i] < c.Easiness(ease) <==> BelowShare(nonces[i], ease * c.Size() % U64_SPAN)
    {
      PercentBelow(ease * c.Size() % U64_SPAN, nonces[i]);
    }
  }

  lemma SmallRemainder(x: nat)
    requires x < U64_SPAN
    ensures x % U64_SPAN == x
  {
  }

  /** Which hash values nodes are made of: those of two nonces, or of the same one, coincide on a side exactly if the
      hashes at `2 * nonce + uorv` agree up to half the size of the graph. */
  lemma NodeReads(c: Cuckoo, d: Cuckoo, m: nat, n: nat, uorv: nat)
    requires uorv < 2 && c.sizeshift == d.sizeshift
    ensures c.NewNode(m, uorv) == d.NewNode(n, uorv) <==>
            c.sip(2 * m + uorv) % Pow2(c.sizeshift - 1) == d.sip(2 * n + uorv) % Pow2(c.sizeshift - 1)
    ensures c.NewNode(m, uorv) / 2 == c.sip(2 * m + uorv) % Pow2(c.sizeshift - 1)
  {
  }

  type Cuckoo = c: Context | 1 <= c.sizeshift < 64 witness Context(1, n => n)

  // ---------------------------------------------------------------- cycles

  /** The nodes on one side of the edges that `nonces` generate. */
  function Side(c: Cuckoo, nonces: seq<nat>, uorv: nat): (ns: seq<nat>)
    requires uorv < 2
    ensures |ns| == |nonces|
  {
    seq(|nonces|, i requires 0 <= i < |nonces| => c.NewNode(nonces[i], uorv))
  }

  /** The edges that the nonces generate. */
  function EdgesOf(c: Cuckoo, s: seq<nat>): (es: seq<Edge>)
    ensures |es| == |s|
  {
    seq(|s|, i requires 0 <= i < |s| => c.NewEdge(s[i]))
  }

  ghost function Indices(n: nat): (s: set<nat>)
    ensures forall i: nat :: i in s <==> i < n
    ensures |s| == n
  {
    if n == 0 then {} else Indices(n - 1) + {n - 1}
  }

  /** Edge `j` is the one and only other edge that touches the node `ns[i]`. */
  ghost predicate OnlyMate(ns: seq<nat>, i: nat, j: nat) {
    && i < |ns| && j < |ns| && j != i && ns[j] == ns[i]
    && forall k: nat :: k < |ns| && k != i && ns[k] == ns[i] ==> k == j
  }

  ghost predicate HasOnlyMate(ns: seq<nat>, i: nat) {
    exists j: nat :: OnlyMate(ns, i, j)
  }

  /** Every touched node on this side has degree exactly two. */
  ghost predicate TwoRegular(ns: seq<nat>) {
    forall i: nat :: i < |ns| ==> HasOnlyMate(ns, i)
  }

  /** No edge outside `t` shares a node with an edge of `t`. */
  ghost predicate Closed(us: seq<nat>, vs: seq<nat>, t: set<nat>)
    requires |us| == |vs|
  {
    forall i: nat, k: nat ::
      i in t && i < |us| && k < |us| && (us[k] == us[i] || vs[k] == vs[i]) ==> k in t
  }

  ghost predicate Connected(us: seq<nat>, vs: seq<nat>)
    requires |us| == |vs|
  {
    forall t: set<nat> ::
      t != {} && t <= Indices(|us|) && Closed(us, vs, t) ==> t == Indices(|us|)
  }

  /** The edges form one simple cycle: a nonempty, connected, two-regular graph. */
  ghost predicate SingleCycle(us: seq<nat>, vs: seq<nat>)
    requires |us| == |vs|
  {
    |us| > 0 && TwoRegular(us) && TwoRegular(vs) && Connected(us, vs)
  }

  ghost predicate Increasing(s: seq<nat>) {
    forall i, j :: 0 <= i < j < |s| ==> s[i] < s[j]
  }

  /** What `verify` is for: increasing nonces below easiness whose edges are one cycle. */
  ghost predicate ValidProof(c: Cuckoo, nonces: seq<nat>, easiness: nat) {
    && Increasing(nonces)
    && (forall i :: 0 <= i < |nonces| ==> nonces[i] < easiness)
    && SingleCycle(Side(c, nonces, 0), Side(c, nonces, 1))
  }
}
