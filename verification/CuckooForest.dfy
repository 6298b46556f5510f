/** The parent-pointer forest in which the miner records the edges it has processed. */
module CuckooForest {
  import opened CuckooGraph

  /** The edge between two nodes of different sides; u-nodes are even. */
  function EdgeBetween(x: nat, y: nat): Edge {
    if x % 2 == 0 then Edge(x, y) else Edge(y, x)
  }

  /** Some nonce below `k` generates `e`, and the miner did not skip it for its null u-node. */
  ghost predicate Mined(c: Cuckoo, k: nat, e: Edge) {
    e.u != 0 && exists nonce: nat :: nonce < k && c.NewEdge(nonce) == e
  }

  /** The link from node `x` to its parent is an edge of the graph that was processed. */
  ghost predicate LinkIsMined(c: Cuckoo, k: nat, x: nat, parent: nat) {
    parent != 0 ==> x % 2 != parent % 2 && Mined(c, k, EdgeBetween(x, parent))
  }

  /** Every link is an edge of one of the first `k` nonces; parent 0 means none. */
  ghost predicate LinksMined(c: Cuckoo, k: nat, g: seq<nat>) {
    && |g| == c.Size() + 1 && g[0] == 0
    && (forall x: nat {:trigger g[x]} :: x < |g| ==> g[x] < |g| && LinkIsMined(c, k, x, g[x]))
  }

  /** Links go down in rank, and each tree id has at most one root. */
  ghost predicate IsForest(g: seq<nat>, rank: seq<nat>, tree: seq<nat>) {
    && |rank| == |g| && |tree| == |g|
    && (forall x: nat {:trigger g[x]} :: 0 < x < |g| && g[x] != 0 ==>
          g[x] < |g| && rank[g[x]] < rank[x] && tree[g[x]] == tree[x])
    && (forall x: nat, y: nat {:trigger g[x], g[y]} ::
          0 < x < |g| && 0 < y < |g| && g[x] == 0 && g[y] == 0 && tree[x] == tree[y] ==> x == y)
  }

  /** The ends of every processed edge lie in the same tree. */
  ghost predicate TreesMined(c: Cuckoo, k: nat, g: seq<nat>, tree: seq<nat>) {
    && |g| == c.Size() + 1 == |tree|
    && forall nonce: nat {:trigger c.NewEdge(nonce)} :: nonce < k && c.NewEdge(nonce).u != 0 ==>
         tree[c.NewEdge(nonce).u] == tree[c.NewEdge(nonce).v]
  }

  /** `g` is an acyclic forest that joins exactly what the first `k` nonces' edges join. */
  ghost predicate Forest(c: Cuckoo, k: nat, g: seq<nat>) {
    && LinksMined(c, k, g)
    && exists rank: seq<nat>, tree: seq<nat> :: IsForest(g, rank, tree) && TreesMined(c, k, g, tree)
  }

  // ---------------------------------------------------------------- trails

  /** A chain of parent links through nonzero nodes. */
  ghost predicate IsChain(g: seq<nat>, p: seq<nat>) {
    && (forall i :: 0 <= i < |p| ==> 0 < p[i] < |g|)
    && (forall i :: 0 <= i < |p| - 1 ==> g[p[i]] == p[i + 1])
  }

  /** A chain that has reached a root. */
  ghost predicate IsTrail(g: seq<nat>, p: seq<nat>) {
    |p| > 0 && IsChain(g, p) && g[p[|p| - 1]] == 0
  }

  /** Trails that meet agree from there on, so the meeting points are aligned at the root. */
  lemma {:induction false} TrailsAlign(g: seq<nat>, p: seq<nat>, q: seq<nat>, a: nat, b: nat)
    requires IsTrail(g, p) && IsTrail(g, q) && a < |p| && b < |q| && p[a] == q[b]
    ensures |p| - a == |q| - b && p[|p| - 1] == q[|q| - 1]
    decreases |p| - a
  {
    assert g[p[a]] == 0 <==> a == |p| - 1 by { assert a + 1 < |p| ==> g[p[a]] == p[a + 1]; }
    assert g[q[b]] == 0 <==> b == |q| - 1 by { assert b + 1 < |q| ==> g[q[b]] == q[b + 1]; }
    if a + 1 < |p| {
      TrailsAlign(g, p, q, a + 1, b + 1);
    }
  }

  lemma TrailInjective(g: seq<nat>, p: seq<nat>, a: nat, b: nat)
    requires IsTrail(g, p) && a < |p| && b < |p| && p[a] == p[b]
    ensures a == b
  {
    TrailsAlign(g, p, p, a, b);
  }

  /** Chains go down in rank, so they never repeat a node. */
  lemma {:induction false} ChainDescends(g: seq<nat>, rank: seq<nat>, tree: seq<nat>, p: seq<nat>, a: nat, b: nat)
    requires IsForest(g, rank, tree) && IsChain(g, p) && a <= b < |p|
    ensures tree[p[a]] == tree[p[b]]
    ensures a < b ==> rank[p[b]] < rank[p[a]]
    decreases b - a
  {
    if a < b {
      ChainDescends(g, rank, tree, p, a, b - 1);
      assert g[p[b - 1]] == p[b];
    }
  }

  // ---------------------------------------------------------------- re-rooting

  /** Reverses the links of the trail `p`, making `p[0]` the root of its tree. */
  ghost function Reroot(g: seq<nat>, p: seq<nat>): (g': seq<nat>)
    requires IsTrail(g, p)
    ensures |g'| == |g|
    decreases |p|
  {
    if |p| == 1 then g else
      var last := |p| - 1;
      RerootOnceTrail(g, p);
      Reroot(RerootOnce(g, p), p[..last])
  }

  /** Moves the root one step down the trail. */
  ghost function RerootOnce(g: seq<nat>, p: seq<nat>): seq<nat>
    requires IsTrail(g, p) && |p| > 1
  {
    var last := |p| - 1;
    g[p[last] := p[last - 1]][p[last - 1] := 0]
  }

  lemma RerootOnceTrail(g: seq<nat>, p: seq<nat>)
    requires IsTrail(g, p) && |p| > 1
    ensures IsTrail(RerootOnce(g, p), p[..|p| - 1])
  {
    var last := |p| - 1;
    var g', p' := RerootOnce(g, p), p[..last];
    forall i | 0 <= i < |p'| - 1
      ensures g'[p'[i]] == p'[i + 1]
    {
      if p[i] == p[last] { TrailInjective(g, p, i, last); }
      if p[i] == p[last - 1] { TrailInjective(g, p, i, last - 1); }
    }
    assert g[p[last - 1]] != 0;
  }

  /** The new tree: trail links point the other way, `p[0]` is a root, the rest is as it was. */
  lemma {:induction false} RerootReverses(g: seq<nat>, p: seq<nat>)
    requires IsTrail(g, p)
    ensures var g' := Reroot(g, p);
      && g'[p[0]] == 0
      && (forall i :: 0 <= i < |p| - 1 ==> g'[p[i + 1]] == p[i])
      && (forall x: nat :: x < |g| && x !in p ==> g'[x] == g[x])
    decreases |p|
  {
    if |p| > 1 {
      var last := |p| - 1;
      var g1, p1 := RerootOnce(g, p), p[..last];
      RerootOnceTrail(g, p);
      RerootReverses(g1, p1);
      var g' := Reroot(g, p);
      assert g' == Reroot(g1, p1);
      assert p[last] !in p1 by {
        if p[last] in p1 {
          var i :| 0 <= i < last && p1[i] == p[last];
          TrailInjective(g, p, i, last);
        }
      }
      assert g'[p[last]] == g1[p[last]] == p[last - 1];
      forall i | 0 <= i < |p| - 1
        ensures g'[p[i + 1]] == p[i]
      {
        if i + 1 < last { assert g'[p1[i + 1]] == p1[i]; }
      }
      forall x: nat | x < |g| && x !in p
        ensures g'[x] == g[x]
      {
        assert x !in p1 && x != p[last] && x != p[last - 1];
      }
    }
  }

  lemma {:induction false} RerootKeepsLinks(c: Cuckoo, k: nat, g: seq<nat>, p: seq<nat>)
    requires LinksMined(c, k, g) && IsTrail(g, p)
    ensures LinksMined(c, k, Reroot(g, p))
    decreases |p|
  {
    if |p| > 1 {
      var last := |p| - 1;
      assert LinkIsMined(c, k, p[last - 1], g[p[last - 1]]);
      assert LinkIsMined(c, k, p[last], p[last - 1]) by {
        assert g[p[last - 1]] == p[last];
        assert EdgeBetween(p[last - 1], p[last]) == EdgeBetween(p[last], p[last - 1]);
      }
      RerootOnceTrail(g, p);
      RerootKeepsLinks(c, k, RerootOnce(g, p), p[..last]);
    }
  }

  /** Re-rooting keeps the trees; only the ranks change. */
  lemma {:induction false} RerootKeepsForest(g: seq<nat>, rank: seq<nat>, tree: seq<nat>, p: seq<nat>)
    returns (rank': seq<nat>)
    requires IsForest(g, rank, tree) && IsTrail(g, p)
    ensures IsForest(Reroot(g, p), rank', tree)
    decreases |p|
  {
    if |p| == 1 {
      rank' := rank;
    } else {
      var last := |p| - 1;
      var c := p[last - 1];
      var rank1 := seq(|g|, x requires 0 <= x < |g| => if x == c then 0 else rank[x] + 1);
      RerootOnceTrail(g, p);
      assert g[c] == p[last];
      RerootOnceForest(g, rank, tree, p, rank1);
      rank' := RerootKeepsForest(RerootOnce(g, p), rank1, tree, p[..last]);
    }
  }

  lemma RerootOnceForest(g: seq<nat>, rank: seq<nat>, tree: seq<nat>, p: seq<nat>, rank1: seq<nat>)
    requires IsForest(g, rank, tree) && IsTrail(g, p) && |p| > 1
    requires |rank1| == |g|
    requires forall x: nat :: x < |g| ==> rank1[x] == if x == p[|p| - 2] then 0 else rank[x] + 1
    ensures IsForest(RerootOnce(g, p), rank1, tree)
  {
    var last := |p| - 1;
    var r, c := p[last], p[last - 1];
    assert g[c] == r && g[r] == 0 && r != c;
    assert tree[r] == tree[c];
    var g1 := RerootOnce(g, p);
    forall x: nat | 0 < x < |g1| && g1[x] != 0
      ensures g1[x] < |g1| && rank1[g1[x]] < rank1[x] && tree[g1[x]] == tree[x]
    {
      if x != r {
        assert x != c && g1[x] == g[x];
      }
    }
    forall x: nat, y: nat | 0 < x < |g1| && 0 < y < |g1| && g1[x] == 0 && g1[y] == 0 && tree[x] == tree[y]
      ensures x == y
    {
      assert x != r && y != r;
      assert x != c ==> g[x] == 0;
      assert y != c ==> g[y] == 0;
    }
  }

  /** Hanging the root `r` under a node of another tree merges the two trees. */
  lemma JoinForest(g: seq<nat>, rank: seq<nat>, tree: seq<nat>, r: nat, w: nat)
    returns (rank': seq<nat>, tree': seq<nat>)
    requires IsForest(g, rank, tree)
    requires 0 < r < |g| && 0 < w < |g| && g[r] == 0 && tree[r] != tree[w]
    ensures IsForest(g[r := w], rank', tree')
    ensures |tree'| == |tree|
    ensures forall x: nat :: x < |g| ==> tree'[x] == if tree[x] == tree[r] then tree[w] else tree[x]
  {
    rank' := seq(|g|, x requires 0 <= x < |g| => if tree[x] == tree[r] then rank[x] + rank[w] + 1 else rank[x]);
    tree' := seq(|g|, x requires 0 <= x < |g| => if tree[x] == tree[r] then tree[w] else tree[x]);
    var g' := g[r := w];
    forall x: nat, y: nat | 0 < x < |g'| && 0 < y < |g'| && g'[x] == 0 && g'[y] == 0 && tree'[x] == tree'[y]
      ensures x == y
    {
      assert x != r && y != r && g[x] == 0 && g[y] == 0;
      assert tree[x] != tree[r] && tree[y] != tree[r];
    }
  }

  // ---------------------------------------------------------------- one nonce

  lemma LinksMonotone(c: Cuckoo, k: nat, g: seq<nat>)
    requires LinksMined(c, k, g)
    ensures LinksMined(c, k + 1, g)
  {
    forall x: nat | x < |g|
      ensures LinkIsMined(c, k + 1, x, g[x])
    {
      assert LinkIsMined(c, k, x, g[x]);
    }
  }

  /** What `update_graph` leaves: `p[0]` re-rooted and hung under `w`. */
  ghost function Joined(g: seq<nat>, p: seq<nat>, w: nat): (g': seq<nat>)
    requires IsTrail(g, p)
    ensures |g'| == |g|
  {
    Reroot(g, p)[p[0] := w]
  }

  lemma JoinedKeepsLinks(c: Cuckoo, k: nat, g: seq<nat>, p: seq<nat>, w: nat)
    requires LinksMined(c, k, g) && IsTrail(g, p) && 0 < w < |g| && w % 2 != p[0] % 2
    requires c.NewEdge(k) == EdgeBetween(p[0], w) && c.NewEdge(k).u != 0
    ensures LinksMined(c, k + 1, Joined(g, p, w))
  {
    RerootKeepsLinks(c, k, g, p);
    LinksMonotone(c, k, Reroot(g, p));
    assert LinkIsMined(c, k + 1, p[0], w);
  }

  /** Recording an edge between two trees keeps the forest. */
  lemma JoinedKeepsForest(c: Cuckoo, k: nat, g: seq<nat>, p: seq<nat>, q: seq<nat>)
    requires Forest(c, k, g) && IsTrail(g, p) && IsTrail(g, q) && p[|p| - 1] != q[|q| - 1]
    requires p[0] % 2 != q[0] % 2
    requires c.NewEdge(k) == EdgeBetween(p[0], q[0]) && c.NewEdge(k).u != 0
    ensures Forest(c, k + 1, Joined(g, p, q[0]))
  {
    var rank, tree :| IsForest(g, rank, tree) && TreesMined(c, k, g, tree);
    JoinedKeepsLinks(c, k, g, p, q[0]);
    ChainDescends(g, rank, tree, p, 0, |p| - 1);
    ChainDescends(g, rank, tree, q, 0, |q| - 1);
    var rank1 := RerootKeepsForest(g, rank, tree, p);
    RerootReverses(g, p);
    var rank2, tree2 := JoinForest(Reroot(g, p), rank1, tree, p[0], q[0]);
    assert TreesMined(c, k + 1, Joined(g, p, q[0]), tree2);
  }

  /** A set of nodes without a root, closed under links, has no rank. */
  lemma {:induction false} RootlessHasNoRank(g: seq<nat>, rank: seq<nat>, tree: seq<nat>, t: set<nat>, x: nat)
    requires IsForest(g, rank, tree) && x in t
    requires forall y: nat :: y in t ==> 0 < y < |g| && g[y] != 0 && g[y] in t
    ensures false
    decreases rank[x]
  {
    RootlessHasNoRank(g, rank, tree, t, g[x]);
  }

  /** Recording an edge inside one tree leaves no forest: its links go round in a cycle. */
  lemma JoinedBreaksForest(c: Cuckoo, k: nat, g: seq<nat>, p: seq<nat>, q: seq<nat>)
    requires Forest(c, k, g) && IsTrail(g, p) && IsTrail(g, q) && p[|p| - 1] == q[|q| - 1]
    ensures !Forest(c, k + 1, Joined(g, p, q[0]))
  {
    hide TreesMined, LinksMined, Reroot;
    var rank, tree :| IsForest(g, rank, tree) && TreesMined(c, k, g, tree);
    ChainDescends(g, rank, tree, p, 0, |p| - 1);
    ChainDescends(g, rank, tree, q, 0, |q| - 1);
    var rank1 := RerootKeepsForest(g, rank, tree, p);
    RerootReverses(g, p);
    hide IsForest, IsTrail;
    if Forest(c, k + 1, Joined(g, p, q[0])) {
      var rank2, tree2 :| IsForest(Joined(g, p, q[0]), rank2, tree2) && TreesMined(c, k + 1, Joined(g, p, q[0]), tree2);
      LoopHasNoRank(Reroot(g, p), rank1, tree, p[0], q[0], rank2, tree2);
    }
  }

  /** Hanging a root under a node of its own tree leaves no rank. */
  lemma LoopHasNoRank(g: seq<nat>, rank: seq<nat>, tree: seq<nat>, r: nat, w: nat, rank': seq<nat>, tree': seq<nat>)
    requires IsForest(g, rank, tree)
    requires 0 < r < |g| && 0 < w < |g| && g[r] == 0 && tree[r] == tree[w]
    requires IsForest(g[r := w], rank', tree')
    ensures false
  {
    var g' := g[r := w];
    var t := set x | x in Indices(|g|) && x != 0 && tree[x] == tree[r];
    forall y: nat | y in t
      ensures 0 < y < |g'| && g'[y] != 0 && g'[y] in t
    {
      assert y != r ==> g[y] != 0;
    }
    RootlessHasNoRank(g', rank', tree', t, r);
  }

  /** `update_graph` keeps the forest exactly when the two ends have different roots. */
  lemma JoinedIsForestIff(c: Cuckoo, k: nat, g: seq<nat>, p: seq<nat>, q: seq<nat>)
    requires Forest(c, k, g) && IsTrail(g, p) && IsTrail(g, q)
    requires p[0] % 2 != q[0] % 2
    requires c.NewEdge(k) == EdgeBetween(p[0], q[0]) && c.NewEdge(k).u != 0
    ensures Forest(c, k + 1, Joined(g, p, q[0])) <==> p[|p| - 1] != q[|q| - 1]
  {
    if p[|p| - 1] != q[|q| - 1] {
      JoinedKeepsForest(c, k, g, p, q);
    } else {
      JoinedBreaksForest(c, k, g, p, q);
    }
  }

  /** An edge inside one tree needs no record. */
  lemma RedundantKeepsForest(c: Cuckoo, k: nat, g: seq<nat>, p: seq<nat>, q: seq<nat>)
    requires Forest(c, k, g) && IsTrail(g, p) && IsTrail(g, q) && p[|p| - 1] == q[|q| - 1]
    requires c.NewEdge(k) == Edge(p[0], q[0])
    ensures Forest(c, k + 1, g)
  {
    var rank, tree :| IsForest(g, rank, tree) && TreesMined(c, k, g, tree);
    LinksMonotone(c, k, g);
    ChainDescends(g, rank, tree, p, 0, |p| - 1);
    ChainDescends(g, rank, tree, q, 0, |q| - 1);
    assert TreesMined(c, k + 1, g, tree);
  }

  lemma SkippedKeepsForest(c: Cuckoo, k: nat, g: seq<nat>)
    requires Forest(c, k, g) && c.NewEdge(k).u == 0
    ensures Forest(c, k + 1, g)
  {
    var rank, tree :| IsForest(g, rank, tree) && TreesMined(c, k, g, tree);
    LinksMonotone(c, k, g);
    assert TreesMined(c, k + 1, g, tree);
  }

  lemma EmptyIsForest(c: Cuckoo, g: seq<nat>)
    requires |g| == c.Size() + 1 && forall x: nat :: x < |g| ==> g[x] == 0
    ensures Forest(c, 0, g)
  {
    var tree := seq(|g|, x => x);
    assert IsForest(g, g, tree) && TreesMined(c, 0, g, tree);
  }

  // ---------------------------------------------------------------- what the forest means

  /** No processed edge leaves `t`. */
  ghost predicate MinedClosed(c: Cuckoo, k: nat, t: set<nat>) {
    forall e: Edge :: Mined(c, k, e) ==> (e.u in t <==> e.v in t)
  }

  /** The first `k` nonces' edges connect `x` and `y`. */
  ghost predicate MinedConnect(c: Cuckoo, k: nat, x: nat, y: nat) {
    forall t: set<nat> :: MinedClosed(c, k, t) && x in t ==> y in t
  }

  lemma {:induction false} TrailStaysClosed(c: Cuckoo, k: nat, g: seq<nat>, p: seq<nat>, t: set<nat>, i: nat)
    requires LinksMined(c, k, g) && IsTrail(g, p) && MinedClosed(c, k, t) && i < |p|
    ensures p[0] in t <==> p[i] in t
  {
    if i > 0 {
      TrailStaysClosed(c, k, g, p, t, i - 1);
      assert g[p[i - 1]] == p[i];
      assert LinkIsMined(c, k, p[i - 1], g[p[i - 1]]);
    }
  }

  /** Two nodes share a root exactly when the processed edges connect them. */
  lemma SharedRootIffConnected(c: Cuckoo, k: nat, g: seq<nat>, p: seq<nat>, q: seq<nat>)
    requires Forest(c, k, g) && IsTrail(g, p) && IsTrail(g, q)
    ensures p[|p| - 1] == q[|q| - 1] <==> MinedConnect(c, k, p[0], q[0])
  {
    if p[|p| - 1] == q[|q| - 1] {
      forall t: set<nat> | MinedClosed(c, k, t) && p[0] in t
        ensures q[0] in t
      {
        TrailStaysClosed(c, k, g, p, t, |p| - 1);
        TrailStaysClosed(c, k, g, q, t, |q| - 1);
      }
    }
    if MinedConnect(c, k, p[0], q[0]) {
      var rank, tree :| IsForest(g, rank, tree) && TreesMined(c, k, g, tree);
      ChainDescends(g, rank, tree, p, 0, |p| - 1);
      ChainDescends(g, rank, tree, q, 0, |q| - 1);
      var t := set x | x in Indices(|g|) && tree[x] == tree[p[0]];
      forall e: Edge | Mined(c, k, e)
        ensures e.u in t <==> e.v in t
      {
        var nonce: nat :| nonce < k && c.NewEdge(nonce) == e;
        assert tree[c.NewEdge(nonce).u] == tree[c.NewEdge(nonce).v];
      }
      assert MinedClosed(c, k, t);
    }
  }

  /** A chain in a forest visits distinct nodes, so it is shorter than the graph. */
  lemma ChainFits(c: Cuckoo, k: nat, g: seq<nat>, p: seq<nat>)
    requires Forest(c, k, g) && IsChain(g, p)
    ensures forall a, b :: 0 <= a < b < |p| ==> p[a] != p[b]
    ensures |p| < |g|
  {
    var rank, tree :| IsForest(g, rank, tree) && TreesMined(c, k, g, tree);
    forall a, b | 0 <= a < b < |p|
      ensures p[a] != p[b]
    {
      ChainDescends(g, rank, tree, p, a, b);
    }
    DistinctFits(p, Indices(|g|) - {0});
  }

  lemma {:induction false} DistinctFits(p: seq<nat>, s: set<nat>)
    requires forall a, b :: 0 <= a < b < |p| ==> p[a] != p[b]
    requires forall a :: 0 <= a < |p| ==> p[a] in s
    ensures |p| <= |s|
  {
    if |p| > 0 {
      var last := |p| - 1;
      DistinctFits(p[..last], s - {p[last]});
    }
  }
}
