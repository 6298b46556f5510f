/** The cycle that a new edge closes in the miner's forest. */
module CuckooCycle {
  import opened CuckooGraph
  import opened CuckooForest

  /** `p[a]` and `q[b]` are the same node, and the trails have no node in common before it. */
  ghost predicate Meet(p: seq<nat>, q: seq<nat>, a: nat, b: nat) {
    && a < |p| && b < |q| && p[a] == q[b]
    && forall i: nat, j: nat {:trigger p[i], q[j]} :: i <= a && j <= b && p[i] == q[j] ==> i == a && j == b
  }

  /** Up the trail `p` to the meeting point, then down the trail `q`. */
  ghost function CycleNodes(p: seq<nat>, q: seq<nat>, a: nat, b: nat): (w: seq<nat>)
    requires a < |p| && b < |q|
    ensures |w| == a + b + 1
  {
    seq(a + b + 1, t requires 0 <= t < a + b + 1 => if t <= a then p[t] else q[a + b - t])
  }

  function Next(n: nat, t: nat): (r: nat)
    requires t < n
    ensures r < n
  {
    if t + 1 == n then 0 else t + 1
  }

  function Prev(n: nat, t: nat): (r: nat)
    requires t < n
    ensures r < n && Next(n, r) == t
  {
    if t == 0 then n - 1 else t - 1
  }

  ghost function CycleEdge(w: seq<nat>, t: nat): Edge
    requires t < |w|
  {
    EdgeBetween(w[t], w[Next(|w|, t)])
  }

  ghost function CycleEdges(w: seq<nat>): (s: set<Edge>)
    ensures forall t: nat :: t < |w| ==> CycleEdge(w, t) in s
  {
    set t: nat | t in Indices(|w|) :: CycleEdge(w, t)
  }

  /** A closed walk through distinct nodes, u-nodes at even places and v-nodes at odd ones. */
  ghost predicate IsSimpleCycle(w: seq<nat>) {
    && |w| >= 3 && |w| % 2 == 0
    && (forall t: nat :: t < |w| ==> w[t] % 2 == t % 2)
    && (forall s: nat, t: nat :: s < t < |w| ==> w[s] != w[t])
  }

  // ---------------------------------------------------------------- from trails to a cycle

  ghost predicate IsBipartite(g: seq<nat>) {
    forall x: nat {:trigger g[x]} :: x < |g| && g[x] != 0 ==> g[x] % 2 != x % 2
  }

  lemma {:induction false} TrailAlternates(g: seq<nat>, p: seq<nat>, i: nat)
    requires IsBipartite(g) && IsTrail(g, p) && i < |p|
    ensures p[i] % 2 == (p[0] + i) % 2
  {
    if i > 0 {
      TrailAlternates(g, p, i - 1);
      assert g[p[i - 1]] == p[i];
    }
  }

  lemma MeetAlternates(g: seq<nat>, p: seq<nat>, q: seq<nat>, a: nat, b: nat, t: nat)
    requires IsBipartite(g) && IsTrail(g, p) && IsTrail(g, q) && a < |p| && b < |q| && p[a] == q[b]
    requires p[0] % 2 == 0 && q[0] % 2 == 1 && t <= a + b
    ensures (a + b + 1) % 2 == 0
    ensures CycleNodes(p, q, a, b)[t] % 2 == t % 2
  {
    hide IsTrail, IsBipartite;
    TrailAlternates(g, p, a);
    TrailAlternates(g, q, b);
    if t <= a {
      TrailAlternates(g, p, t);
    } else {
      TrailAlternates(g, q, a + b - t);
    }
  }

  lemma MeetIsDistinct(g: seq<nat>, p: seq<nat>, q: seq<nat>, a: nat, b: nat, s: nat, t: nat)
    requires IsTrail(g, p) && IsTrail(g, q) && Meet(p, q, a, b) && s < t <= a + b
    ensures CycleNodes(p, q, a, b)[s] != CycleNodes(p, q, a, b)[t]
  {
    if t <= a {
      if p[s] == p[t] { TrailInjective(g, p, s, t); }
    } else if s > a {
      if q[a + b - s] == q[a + b - t] { TrailInjective(g, q, a + b - s, a + b - t); }
    }
  }

  /** The trails of the two ends of an edge, up to where they meet, make a simple cycle. */
  lemma MeetIsSimpleCycle(g: seq<nat>, p: seq<nat>, q: seq<nat>, a: nat, b: nat)
    requires IsBipartite(g) && IsTrail(g, p) && IsTrail(g, q) && Meet(p, q, a, b)
    requires p[0] % 2 == 0 && q[0] % 2 == 1
    ensures (a + b + 1) % 2 == 0
    ensures a + b + 1 >= 3 ==> IsSimpleCycle(CycleNodes(p, q, a, b))
  {
    var w := CycleNodes(p, q, a, b);
    MeetAlternates(g, p, q, a, b, 0);
    forall t: nat | t < |w|
      ensures w[t] % 2 == t % 2
    {
      MeetAlternates(g, p, q, a, b, t);
    }
    forall s: nat, t: nat | s < t < |w|
      ensures w[s] != w[t]
    {
      MeetIsDistinct(g, p, q, a, b, s, t);
    }
  }

  lemma CycleEdgeOnTrails(p: seq<nat>, q: seq<nat>, a: nat, b: nat, t: nat)
    requires a < |p| && b < |q| && p[a] == q[b] && p[0] % 2 == 0 && q[0] % 2 == 1
    requires t <= a + b
    ensures CycleEdge(CycleNodes(p, q, a, b), t) ==
            if t == a + b then Edge(p[0], q[0])
            else if t < a then EdgeBetween(p[t], p[t + 1])
            else EdgeBetween(q[a + b - t], q[a + b - t - 1])
  {
  }

  // ---------------------------------------------------------------- uniqueness

  /** A walk through distinct nodes, each step along a link in either direction. */
  ghost predicate IsSimpleWalk(g: seq<nat>, w: seq<nat>) {
    && (forall i :: 0 <= i < |w| ==> 0 < w[i] < |g|)
    && (forall i :: 0 <= i < |w| - 1 ==> g[w[i]] == w[i + 1] || g[w[i + 1]] == w[i])
    && (forall i, j :: 0 <= i < j < |w| ==> w[i] != w[j])
  }

  /** Once a simple walk goes down it keeps going down; this finds the turning point. */
  lemma {:induction false} WalkTurns(g: seq<nat>, w: seq<nat>, from: nat) returns (top: nat)
    requires IsSimpleWalk(g, w) && from < |w|
    ensures from <= top < |w|
    ensures forall i: nat :: from <= i < top ==> g[w[i]] == w[i + 1]
    ensures forall i: nat :: top <= i < |w| - 1 ==> g[w[i + 1]] == w[i]
    decreases |w| - from
  {
    if from == |w| - 1 {
      top := from;
    } else if g[w[from]] == w[from + 1] {
      top := WalkTurns(g, w, from + 1);
    } else {
      top := WalkTurns(g, w, from + 1);
      assert from + 2 < |w| ==> w[from] != w[from + 2];
      top := from;
    }
  }

  lemma {:induction false} ChainFollowsTrail(g: seq<nat>, p: seq<nat>, r: seq<nat>, i: nat)
    requires IsTrail(g, p) && IsChain(g, r) && i < |r| && r[0] == p[0]
    ensures i < |p| && r[i] == p[i]
  {
    if i > 0 {
      ChainFollowsTrail(g, p, r, i - 1);
      assert g[r[i - 1]] == r[i];
      assert g[p[i - 1]] != 0;
    }
  }

  /** A simple walk from one end to the other goes up the first trail and down the second, by their meeting point. */
  lemma WalkMeets(g: seq<nat>, p: seq<nat>, q: seq<nat>, w: seq<nat>) returns (a: nat, b: nat)
    requires IsTrail(g, p) && IsTrail(g, q)
    requires IsSimpleWalk(g, w) && |w| > 0 && w[0] == p[0] && w[|w| - 1] == q[0]
    ensures Meet(p, q, a, b) && w == CycleNodes(p, q, a, b)
  {
    var n := |w|;
    a := WalkTurns(g, w, 0);
    b := n - 1 - a;
    var up := w[..a + 1];
    var down := seq(n - a, i requires 0 <= i < n - a => w[n - 1 - i]);
    assert IsChain(g, up);
    assert IsChain(g, down) by {
      forall i | 0 <= i < |down| - 1
        ensures g[down[i]] == down[i + 1]
      {
        assert g[w[(n - 2 - i) + 1]] == w[n - 2 - i];
      }
    }
    forall i: nat | i <= a ensures i < |p| && w[i] == p[i] { ChainFollowsTrail(g, p, up, i); }
    forall i: nat | i <= b ensures i < |q| && w[n - 1 - i] == q[i] { ChainFollowsTrail(g, q, down, i); }
    ChainFollowsTrail(g, p, up, a);
    ChainFollowsTrail(g, q, down, b);
    assert p[a] == w[a] == w[n - 1 - b] == q[b];
    forall i: nat, j: nat | i <= a && j <= b && p[i] == q[j]
      ensures i == a && j == b
    {
      assert w[i] == w[n - 1 - j];
    }
  }

  /** The new edge closes one simple cycle only: the one through the meeting point. */
  lemma CycleIsUnique(g: seq<nat>, p: seq<nat>, q: seq<nat>, a: nat, b: nat, w: seq<nat>)
    requires IsTrail(g, p) && IsTrail(g, q) && Meet(p, q, a, b)
    requires IsSimpleWalk(g, w) && |w| > 0 && w[0] == p[0] && w[|w| - 1] == q[0]
    ensures w == CycleNodes(p, q, a, b)
  {
    var a', b' := WalkMeets(g, p, q, w);
    TrailsAlign(g, p, q, a, b);
    TrailsAlign(g, p, q, a', b');
  }

  // ---------------------------------------------------------------- from a cycle to a proof

  /** The edges `es` are those of the cycle `w`, each of them once. */
  ghost predicate IsListing(es: seq<Edge>, w: seq<nat>) {
    && |es| == |w|
    && (forall i: nat, j: nat :: i < j < |es| ==> es[i] != es[j])
    && (forall e :: e in es <==> e in CycleEdges(w))
  }

  /** `at[t]` is where the listing has the cycle's edge number `t`. */
  ghost predicate Located(es: seq<Edge>, w: seq<nat>, at: seq<nat>) {
    && |at| <= |w|
    && forall t: nat :: t < |at| ==> at[t] < |es| && es[at[t]] == CycleEdge(w, t)
  }

  lemma {:induction false} LocateEdges(es: seq<Edge>, w: seq<nat>, m: nat) returns (at: seq<nat>)
    requires IsListing(es, w) && m <= |w|
    ensures |at| == m && Located(es, w, at)
  {
    if m == 0 {
      at := [];
    } else {
      at := LocateEdges(es, w, m - 1);
      assert CycleEdge(w, m - 1) in es;
      var i: nat :| i < |es| && es[i] == CycleEdge(w, m - 1);
      at := at + [i];
    }
  }

  /** Every listed edge is some edge of the cycle. */
  lemma PlaceOf(es: seq<Edge>, w: seq<nat>, at: seq<nat>, i: nat) returns (t: nat)
    requires IsListing(es, w) && Located(es, w, at) && |at| == |w| && i < |es|
    ensures t < |w| && at[t] == i
  {
    assert es[i] in CycleEdges(w);
    t :| t < |w| && es[i] == CycleEdge(w, t);
    assert es[at[t]] == es[i];
  }

  /** On one side of the graph, the cycle's edges meet in pairs. */
  function Partner(n: nat, t: nat, uorv: nat): (r: nat)
    requires t < n
    ensures r < n
  {
    if t % 2 == uorv then Prev(n, t) else Next(n, t)
  }

  ghost function End(e: Edge, uorv: nat): nat {
    if uorv == 0 then e.u else e.v
  }

  ghost function Ends(es: seq<Edge>, uorv: nat): (ns: seq<nat>)
    ensures |ns| == |es|
  {
    seq(|es|, i requires 0 <= i < |es| => End(es[i], uorv))
  }

  lemma CycleEdgesMeetInPairs(w: seq<nat>, s: nat, t: nat, uorv: nat)
    requires IsSimpleCycle(w) && s < |w| && t < |w| && uorv < 2
    ensures End(CycleEdge(w, s), uorv) == End(CycleEdge(w, t), uorv) <==> s == t || s == Partner(|w|, t, uorv)
  {
  }

  lemma PartnersDiffer(w: seq<nat>, t: nat, uorv: nat)
    requires IsSimpleCycle(w) && t < |w| && uorv < 2
    ensures Partner(|w|, t, uorv) != t
    ensures CycleEdge(w, Partner(|w|, t, uorv)) != CycleEdge(w, t)
  {
  }

  lemma CycleEdgesDiffer(w: seq<nat>, s: nat, t: nat)
    requires IsSimpleCycle(w) && s < t < |w|
    ensures CycleEdge(w, s) != CycleEdge(w, t)
  {
    CycleEdgesMeetInPairs(w, s, t, 0);
    CycleEdgesMeetInPairs(w, s, t, 1);
  }

  lemma SideIsTwoRegular(es: seq<Edge>, w: seq<nat>, at: seq<nat>, uorv: nat)
    requires IsSimpleCycle(w) && IsListing(es, w) && Located(es, w, at) && |at| == |w| && uorv < 2
    ensures TwoRegular(Ends(es, uorv))
  {
    var ns := Ends(es, uorv);
    forall i: nat | i < |ns|
      ensures HasOnlyMate(ns, i)
    {
      var t := PlaceOf(es, w, at, i);
      var mate := Partner(|w|, t, uorv);
      PartnersDiffer(w, t, uorv);
      CycleEdgesMeetInPairs(w, mate, t, uorv);
      forall k: nat | k < |ns| && k != i && ns[k] == ns[i]
        ensures k == at[mate]
      {
        var r := PlaceOf(es, w, at, k);
        CycleEdgesMeetInPairs(w, r, t, uorv);
      }
      assert OnlyMate(ns, i, at[mate]);
    }
  }

  /** A closed set follows the cycle one edge further. */
  lemma ClosedGoesOn(es: seq<Edge>, w: seq<nat>, at: seq<nat>, t: set<nat>, from: nat)
    requires IsSimpleCycle(w) && IsListing(es, w) && Located(es, w, at) && |at| == |w|
    requires Closed(Ends(es, 0), Ends(es, 1), t) && from < |w| && at[from] in t
    ensures at[Next(|w|, from)] in t
  {
    var to := Next(|w|, from);
    var uorv := 1 - from % 2;
    assert Partner(|w|, from, uorv) == to;
    CycleEdgesMeetInPairs(w, to, from, uorv);
    assert Ends(es, uorv)[at[to]] == Ends(es, uorv)[at[from]];
  }

  lemma {:induction false} ClosedGoesUpTo(es: seq<Edge>, w: seq<nat>, at: seq<nat>, t: set<nat>, from: nat, to: nat)
    requires IsSimpleCycle(w) && IsListing(es, w) && Located(es, w, at) && |at| == |w|
    requires Closed(Ends(es, 0), Ends(es, 1), t) && from <= to < |w| && at[from] in t
    ensures at[to] in t
    decreases |w| - from
  {
    if from < to {
      ClosedGoesOn(es, w, at, t, from);
      ClosedGoesUpTo(es, w, at, t, from + 1, to);
    }
  }

  /** A listing of the edges of a simple cycle passes the verifier's cycle check. */
  lemma ListingIsSingleCycle(es: seq<Edge>, w: seq<nat>)
    requires IsSimpleCycle(w) && IsListing(es, w)
    ensures SingleCycle(Ends(es, 0), Ends(es, 1))
  {
    var n := |w|;
    var at := LocateEdges(es, w, n);
    SideIsTwoRegular(es, w, at, 0);
    SideIsTwoRegular(es, w, at, 1);
    forall t: set<nat> | t != {} && t <= Indices(n) && Closed(Ends(es, 0), Ends(es, 1), t)
      ensures t == Indices(n)
    {
      var first :| first in t;
      var from := PlaceOf(es, w, at, first);
      ClosedGoesUpTo(es, w, at, t, from, n - 1);
      ClosedGoesOn(es, w, at, t, n - 1);
      forall i: nat | i < n
        ensures i in t
      {
        var to := PlaceOf(es, w, at, i);
        ClosedGoesUpTo(es, w, at, t, 0, to);
      }
    }
  }
}
