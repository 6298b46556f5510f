/** When the miner's search succeeds, in terms of the nonces alone. */
module CuckooSearch {
  import opened CuckooGraph
  import opened CuckooForest
  import opened CuckooCycle
  import opened CuckooDoubled

  /** The edge of nonce `k` closes the simple cycle `w`, whose other edges were all recorded before. */
  ghost predicate ClosedBy(c: Cuckoo, k: nat, w: seq<nat>) {
    && IsSimpleCycle(w) && c.NewEdge(k).u != 0 && c.NewEdge(k) == Edge(w[0], w[|w| - 1])
    && forall t: nat :: t < |w| - 1 ==> StepRecorded(c, k, w, t)
  }

  ghost predicate StepRecorded(c: Cuckoo, k: nat, w: seq<nat>, t: nat) {
    t < |w| - 1 && Bridged(c, k, EdgeBetween(w[t], w[t + 1]))
  }

  /** The edge of nonce `k` closes a simple cycle of `n` edges over those recorded before. */
  ghost predicate Closes(c: Cuckoo, k: nat, n: nat) {
    exists w: seq<nat> :: |w| == n && ClosedBy(c, k, w)
  }

  lemma TwoNeverClose(c: Cuckoo, k: nat, n: nat)
    requires n < 3
    ensures !Closes(c, k, n)
  {
  }

  lemma NullCloses(c: Cuckoo, k: nat, n: nat)
    requires c.NewEdge(k).u == 0
    ensures !Closes(c, k, n)
  {
  }

  lemma MeetSharesRoot(g: seq<nat>, p: seq<nat>, q: seq<nat>, n: nat)
    requires IsTrail(g, p) && IsTrail(g, q) && MeetsIn(p, q, n)
    ensures p[|p| - 1] == q[|q| - 1]
  {
    var a: nat, b: nat :| Meet(p, q, a, b) && a + b + 1 == n;
    TrailsAlign(g, p, q, a, b);
  }

  lemma BridgedNodes(c: Cuckoo, k: nat, e: Edge)
    requires Bridged(c, k, e)
    ensures 0 < e.u < c.Size() && 0 < e.v < c.Size() && e.u % 2 == 0 && e.v % 2 == 1
  {
  }

  /** The nodes of a closed cycle, in order, are a walk along links. */
  lemma ClosedIsWalk(c: Cuckoo, k: nat, g: seq<nat>, w: seq<nat>)
    requires LinksMined(c, k, g) && LinksExact(c, k, g) && ClosedBy(c, k, w)
    ensures IsSimpleWalk(g, w)
  {
    hide LinksMined, LinksExact, Bridged;
    assert |g| == c.Size() + 1 by { SizeOf(c, k, g); }
    forall t: nat | t < |w| - 1
      ensures Linked(g, w[t], w[t + 1])
    {
      assert StepRecorded(c, k, w, t);
      var e := EdgeBetween(w[t], w[t + 1]);
      BridgedNodes(c, k, e);
      LinkedIfBridged(c, k, g, e);
      LinkedBothWays(g, w[t], w[t + 1]);
    }
    forall t: nat | t < |w|
      ensures 0 < w[t] < |g|
    {
      if t == 0 { assert Linked(g, w[0], w[1]); } else { assert Linked(g, w[t - 1], w[t - 1 + 1]); }
    }
  }

  lemma SizeOf(c: Cuckoo, k: nat, g: seq<nat>)
    requires LinksMined(c, k, g)
    ensures |g| == c.Size() + 1
  {
  }

  lemma LinkedIfBridged(c: Cuckoo, k: nat, g: seq<nat>, e: Edge)
    requires LinksExact(c, k, g) && 0 < e.u < |g| && 0 < e.v < |g| && e.u % 2 == 0 && e.v % 2 == 1
    ensures Linked(g, e.u, e.v) <==> Bridged(c, k, e)
  {
  }

  /** Where the trails of the new edge meet, every other edge of their cycle was recorded. */
  lemma MeetIsClosed(c: Cuckoo, k: nat, g: seq<nat>, p: seq<nat>, q: seq<nat>, a: nat, b: nat)
    requires LinksMined(c, k, g) && LinksExact(c, k, g) && IsTrail(g, p) && IsTrail(g, q)
    requires c.NewEdge(k) == Edge(p[0], q[0]) && Meet(p, q, a, b) && a + b + 1 >= 3
    ensures ClosedBy(c, k, CycleNodes(p, q, a, b))
  {
    hide Bridged, Linked, LinksExact, IsBipartite;
    var w := CycleNodes(p, q, a, b);
    LinksAreBipartite(c, k, g);
    MeetIsSimpleCycle(g, p, q, a, b);
    assert IsSimpleCycle(w);
    forall t: nat | t < |w| - 1
      ensures StepRecorded(c, k, w, t)
    {
      var x, y := w[t], w[t + 1];
      StepIsLinked(g, p, q, a, b, t);
      LinkedBothWays(g, x, y);
      LinkedNodes(g, x, y);
      LinkedIfBridged(c, k, g, EdgeBetween(x, y));
    }
  }

  lemma LinkedNodes(g: seq<nat>, x: nat, y: nat)
    ensures Linked(g, x, y) ==> 0 < x < |g| && 0 < y < |g|
  {
  }

  lemma StepIsLinked(g: seq<nat>, p: seq<nat>, q: seq<nat>, a: nat, b: nat, t: nat)
    requires IsTrail(g, p) && IsTrail(g, q) && a < |p| && b < |q| && p[a] == q[b] && t < a + b
    ensures var w := CycleNodes(p, q, a, b); Linked(g, w[t], w[t + 1])
  {
    if t < a {
      assert g[p[t]] == p[t + 1];
    } else {
      assert g[q[a + b - t - 1]] == q[a + b - t];
    }
  }

  lemma LinksAreBipartite(c: Cuckoo, k: nat, g: seq<nat>)
    requires LinksMined(c, k, g)
    ensures IsBipartite(g)
  {
    forall x: nat | x < |g| && g[x] != 0
      ensures g[x] % 2 != x % 2
    {
      assert LinkIsMined(c, k, x, g[x]);
    }
  }

  /** In the exact forest, the new edge closes a cycle of `n` edges if and only if the trails of its ends meet that far up. */
  lemma ClosesIffMeets(c: Cuckoo, k: nat, g: seq<nat>, p: seq<nat>, q: seq<nat>, n: nat)
    requires LinksMined(c, k, g) && LinksExact(c, k, g) && IsTrail(g, p) && IsTrail(g, q)
    requires c.NewEdge(k) == Edge(p[0], q[0]) && n >= 3
    ensures Closes(c, k, n) <==> MeetsIn(p, q, n)
  {
    hide LinksMined, LinksExact, Bridged, IsSimpleCycle, IsSimpleWalk;
    if Closes(c, k, n) {
      var w: seq<nat> :| |w| == n && ClosedBy(c, k, w);
      ClosedIsWalk(c, k, g, w);
      var a, b := WalkMeets(g, p, q, w);
    }
    if MeetsIn(p, q, n) {
      var a: nat, b: nat :| Meet(p, q, a, b) && a + b + 1 == n;
      MeetIsClosed(c, k, g, p, q, a, b);
    }
  }
}
