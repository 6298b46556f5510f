/** When the miner's forest survives two-edge proofs: exactly as long as no recorded edge is generated again. */
module CuckooDoubled {
  import opened CuckooGraph
  import opened CuckooForest
  import opened CuckooCycle

  ghost predicate Linked(g: seq<nat>, x: nat, y: nat) {
    0 < x < |g| && 0 < y < |g| && (g[x] == y || g[y] == x)
  }

  lemma LinkedBothWays(g: seq<nat>, x: nat, y: nat)
    ensures Linked(g, x, y) <==> Linked(g, y, x)
  {
  }

  /** Two nodes that are each other's parents. */
  ghost predicate TwoCycle(g: seq<nat>) {
    exists x: nat, y: nat :: 0 < x < |g| && 0 < y < |g| && g[x] == y && g[y] == x
  }

  /** The edge of nonce `i` connects what no edge before it did, so the miner records it. */
  ghost predicate Bridge(c: Cuckoo, i: nat) {
    c.NewEdge(i).u != 0 && !MinedConnect(c, i, c.NewEdge(i).u, c.NewEdge(i).v)
  }

  ghost predicate Bridged(c: Cuckoo, k: nat, e: Edge) {
    exists i: nat :: i < k && c.NewEdge(i) == e && Bridge(c, i)
  }

  /** Some nonce below `k` generates an edge again that was recorded before. */
  ghost predicate Repeats(c: Cuckoo, k: nat) {
    exists j: nat :: j < k && Bridged(c, j, c.NewEdge(j))
  }

  /** The links of the forest are exactly the edges that were recorded. */
  ghost predicate LinksExact(c: Cuckoo, k: nat, g: seq<nat>) {
    forall e: Edge {:trigger Bridged(c, k, e)} :: 0 < e.u < |g| && 0 < e.v < |g| && e.u % 2 == 0 && e.v % 2 == 1 ==>
      (Linked(g, e.u, e.v) <==> Bridged(c, k, e))
  }

  lemma BridgedNext(c: Cuckoo, k: nat, e: Edge)
    ensures Bridged(c, k + 1, e) <==> Bridged(c, k, e) || (c.NewEdge(k) == e && Bridge(c, k))
  {
  }

  lemma RepeatsNext(c: Cuckoo, k: nat)
    ensures Repeats(c, k + 1) <==> Repeats(c, k) || Bridged(c, k, c.NewEdge(k))
  {
    hide Bridged;
  }

  lemma RepeatsGrows(c: Cuckoo, k: nat, n: nat)
    requires Repeats(c, k) && k <= n
    ensures Repeats(c, n)
  {
    hide Bridged;
  }

  /** Re-rooting turns links round, and makes or breaks none. */
  lemma RerootKeepsLinked(g: seq<nat>, p: seq<nat>, x: nat, y: nat)
    requires IsTrail(g, p)
    ensures Linked(Reroot(g, p), x, y) <==> Linked(g, x, y)
  {
    RerootReverses(g, p);
    if 0 < x < |g| && 0 < y < |g| {
      RerootTurns(g, p, x, y);
      RerootTurns(g, p, y, x);
    }
  }

  lemma RerootTurns(g: seq<nat>, p: seq<nat>, x: nat, y: nat)
    requires IsTrail(g, p) && 0 < x < |g| && 0 < y < |g|
    ensures g[x] == y ==> Reroot(g, p)[x] == y || Reroot(g, p)[y] == x
    ensures Reroot(g, p)[x] == y ==> g[x] == y || g[y] == x
  {
    hide Reroot;
    RerootReverses(g, p);
    if x in p {
      var i :| 0 <= i < |p| && p[i] == x;
      if g[x] == y {
        assert i < |p| - 1 && p[i + 1] == y;
      }
      if Reroot(g, p)[x] == y && i > 0 {
        assert p[i - 1 + 1] == x && g[p[i - 1]] == x;
      }
    }
  }

  /** Recording an edge adds just its link. */
  lemma JoinedLinks(g: seq<nat>, p: seq<nat>, w: nat, x: nat, y: nat)
    requires IsTrail(g, p) && 0 < w < |g| && 0 < x < |g| && 0 < y < |g|
    ensures Linked(Joined(g, p, w), x, y) <==> Linked(g, x, y) || (x == p[0] && y == w) || (x == w && y == p[0])
  {
    hide Reroot;
    RerootReverses(g, p);
    RerootKeepsLinked(g, p, x, y);
  }

  /** A link between two nodes puts them in one tree. */
  lemma LinkedShareRoot(g: seq<nat>, p: seq<nat>, q: seq<nat>)
    requires IsTrail(g, p) && IsTrail(g, q) && Linked(g, p[0], q[0])
    ensures p[|p| - 1] == q[|q| - 1]
  {
    if g[p[0]] == q[0] {
      TrailsAlign(g, p, q, 1, 0);
    } else {
      TrailsAlign(g, p, q, 0, 1);
    }
  }

  // ---------------------------------------------------------------- one nonce

  /** An edge that is not recorded changes nothing. */
  lemma UnrecordedKeepsExact(c: Cuckoo, k: nat, g: seq<nat>)
    requires LinksExact(c, k, g) && !Bridge(c, k)
    ensures LinksExact(c, k + 1, g)
  {
    hide Bridged, Linked;
    forall e: Edge | 0 < e.u < |g| && 0 < e.v < |g| && e.u % 2 == 0 && e.v % 2 == 1
      ensures Linked(g, e.u, e.v) <==> Bridged(c, k + 1, e)
    {
      BridgedNext(c, k, e);
    }
  }

  /** Recording the edge of a bridge keeps the links exact. */
  lemma JoinedKeepsExact(c: Cuckoo, k: nat, g: seq<nat>, p: seq<nat>, w: nat)
    requires LinksExact(c, k, g) && IsTrail(g, p) && 0 < w < |g| && w % 2 != p[0] % 2
    requires c.NewEdge(k) == EdgeBetween(p[0], w) && Bridge(c, k)
    ensures LinksExact(c, k + 1, Joined(g, p, w))
  {
    hide Bridged, Linked, Joined, Bridge;
    var g' := Joined(g, p, w);
    forall e: Edge | 0 < e.u < |g'| && 0 < e.v < |g'| && e.u % 2 == 0 && e.v % 2 == 1
      ensures Linked(g', e.u, e.v) <==> Bridged(c, k + 1, e)
    {
      BridgedNext(c, k, e);
      JoinedLinks(g, p, w, e.u, e.v);
    }
  }

  /** Between two trees, the edge is a bridge; within one, it is not. */
  lemma BridgeIffRootsDiffer(c: Cuckoo, k: nat, g: seq<nat>, p: seq<nat>, q: seq<nat>)
    requires Forest(c, k, g) && IsTrail(g, p) && IsTrail(g, q)
    requires c.NewEdge(k) == Edge(p[0], q[0])
    ensures Bridge(c, k) <==> p[|p| - 1] != q[|q| - 1]
  {
    hide Forest, MinedConnect;
    SharedRootIffConnected(c, k, g, p, q);
  }

  /** The edge of nonce `k` repeats a recorded one exactly if it is a link already. */
  lemma RepeatIffLinked(c: Cuckoo, k: nat, g: seq<nat>)
    requires LinksExact(c, k, g) && 0 < c.NewEdge(k).u < |g| && c.NewEdge(k).v < |g| && !Repeats(c, k)
    ensures Repeats(c, k + 1) <==> Linked(g, c.NewEdge(k).u, c.NewEdge(k).v)
  {
    hide Bridged, Linked;
    RepeatsNext(c, k);
  }

  /** The trails of the new edge's two ends meet, and close a cycle of length `len`. */
  ghost predicate MeetsIn(p: seq<nat>, q: seq<nat>, len: nat) {
    exists a: nat, b: nat :: Meet(p, q, a, b) && a + b + 1 == len
  }

  lemma MeetIsUnique(g: seq<nat>, p: seq<nat>, q: seq<nat>, len: nat, len': nat)
    requires IsTrail(g, p) && IsTrail(g, q) && MeetsIn(p, q, len) && MeetsIn(p, q, len')
    ensures len == len'
  {
    var a: nat, b: nat :| Meet(p, q, a, b) && a + b + 1 == len;
    var a': nat, b': nat :| Meet(p, q, a', b') && a' + b' + 1 == len';
    TrailsAlign(g, p, q, a, b);
    TrailsAlign(g, p, q, a', b');
    assert (a <= a' && b <= b') || (a' <= a && b' <= b);
  }

  /** The new edge closes a cycle of length two exactly if it is a link already. */
  lemma DoubledIffLinked(g: seq<nat>, p: seq<nat>, q: seq<nat>)
    requires IsTrail(g, p) && IsTrail(g, q) && p[0] != q[0]
    ensures MeetsIn(p, q, 2) <==> Linked(g, p[0], q[0])
  {
    if MeetsIn(p, q, 2) {
      var a: nat, b: nat :| Meet(p, q, a, b) && a + b + 1 == 2;
      if a == 1 { assert g[p[0]] == q[0]; } else { assert g[q[0]] == p[0]; }
    }
    if g[p[0]] == q[0] {
      assert Meet(p, q, 1, 0);
    } else if g[q[0]] == p[0] {
      assert Meet(p, q, 0, 1);
    }
  }

  lemma ParentTrailIsShorter(g: seq<nat>, p: seq<nat>, q: seq<nat>)
    requires IsTrail(g, p) && IsTrail(g, q) && g[q[0]] == p[0]
    ensures |q| == |p| + 1
  {
    TrailsAlign(g, p, q, 0, 1);
  }

  // ---------------------------------------------------------------- after a repeat

  /** Recording a link again makes its two ends each other's parents. */
  lemma DoubledMakesTwoCycle(g: seq<nat>, p: seq<nat>, q: seq<nat>)
    requires IsTrail(g, p) && IsTrail(g, q) && g[q[0]] == p[0]
    ensures TwoCycle(Joined(g, p, q[0]))
  {
    hide Reroot;
    RerootReverses(g, p);
    if q[0] in p {
      var i :| 0 <= i < |p| && p[i] == q[0];
      TrailsAlign(g, p, q, i, 0);
      TrailsAlign(g, p, q, 0, 1);
    }
    assert Joined(g, p, q[0])[q[0]] == p[0] && Joined(g, p, q[0])[p[0]] == q[0];
  }

  /** No trail goes into a two-cycle, so recording other edges leaves it alone. */
  lemma TwoCycleStays(g: seq<nat>, p: seq<nat>, w: nat)
    requires IsTrail(g, p) && TwoCycle(g)
    ensures TwoCycle(Joined(g, p, w))
  {
    hide Reroot;
    var x: nat, y: nat :| 0 < x < |g| && 0 < y < |g| && g[x] == y && g[y] == x;
    OffTrail(g, p, x, y);
    OffTrail(g, p, y, x);
    RerootReverses(g, p);
    assert Joined(g, p, w)[x] == y && Joined(g, p, w)[y] == x;
  }

  lemma OffTrail(g: seq<nat>, p: seq<nat>, x: nat, y: nat)
    requires IsTrail(g, p) && 0 < x < |g| && 0 < y < |g| && g[x] == y && g[y] == x
    ensures x !in p
  {
    if x in p {
      var i :| 0 <= i < |p| && p[i] == x;
      assert i + 1 < |p| && p[i + 1] == y;
      assert i + 2 < |p| && p[i + 2] == x;
      TrailInjective(g, p, i, i + 2);
      assert false;
    }
  }

  lemma TwoCycleHasNoRank(g: seq<nat>, rank: seq<nat>, tree: seq<nat>)
    requires IsForest(g, rank, tree)
    ensures !TwoCycle(g)
  {
  }

  lemma TwoCycleIsNoForest(c: Cuckoo, k: nat, g: seq<nat>)
    requires TwoCycle(g)
    ensures !Forest(c, k, g)
  {
    hide LinksMined, TreesMined, TwoCycle, IsForest;
    if Forest(c, k, g) {
      var rank: seq<nat>, tree: seq<nat> :| IsForest(g, rank, tree) && TreesMined(c, k, g, tree);
      TwoCycleHasNoRank(g, rank, tree);
    }
  }

  const ALWAYS_ONE: nat -> nat := n => 1

  /** A hash that never changes generates one edge only: it is recorded, and then repeated. */
  lemma ConstantHashRepeats(c: Cuckoo, k: nat)
    requires c == Context(2, ALWAYS_ONE) && k >= 2
    ensures Repeats(c, k)
  {
    var e := c.NewEdge(0);
    assert Pow2(1) == 2;
    assert e == Edge(2, 3) && c.NewEdge(1) == e;
    assert MinedClosed(c, 0, {2});
    assert Bridge(c, 0);
    assert Bridged(c, 1, c.NewEdge(1));
  }

  // ---------------------------------------------------------------- what the miner records

  /** The array after nonces below `k`: the exact forest or, once it is lost, a two-cycle. */
  ghost predicate State(c: Cuckoo, k: nat, lost: bool, g: seq<nat>) {
    LinksMined(c, k, g) && if lost then TwoCycle(g) else Forest(c, k, g) && LinksExact(c, k, g)
  }

  /** Hanging the first of the two trails under the other end, `p` being the shorter one if they are of one tree. */
  lemma JoinedState(c: Cuckoo, k: nat, two: bool, g: seq<nat>, p: seq<nat>, q: seq<nat>)
    requires State(c, k, two && Repeats(c, k), g) && IsTrail(g, p) && IsTrail(g, q) && p[0] % 2 != q[0] % 2
    requires c.NewEdge(k) == EdgeBetween(p[0], q[0]) && c.NewEdge(k).u != 0
    requires p[|p| - 1] == q[|q| - 1] ==> two && Linked(g, p[0], q[0]) && |p| <= |q|
    ensures State(c, k + 1, two && Repeats(c, k + 1), Joined(g, p, q[0]))
  {
    hide Forest, LinksExact, LinksMined, TwoCycle, Bridge, Repeats, Joined, Linked;
    JoinedKeepsLinks(c, k, g, p, q[0]);
    if two && Repeats(c, k) {
      TwoCycleStays(g, p, q[0]);
      RepeatsGrows(c, k, k + 1);
    } else if p[|p| - 1] != q[|q| - 1] {
      JoinedKeepsForest(c, k, g, p, q);
      JoinBridges(c, k, g, p, q);
      JoinedKeepsExact(c, k, g, p, q[0]);
      NotLinkedNoRepeat(c, k, two, g, p, q);
    } else {
      RepeatOfLink(c, k, g, p, q);
      ParentIsFirst(g, p, q);
      DoubledMakesTwoCycle(g, p, q);
    }
  }

  lemma JoinBridges(c: Cuckoo, k: nat, g: seq<nat>, p: seq<nat>, q: seq<nat>)
    requires Forest(c, k, g) && IsTrail(g, p) && IsTrail(g, q) && p[0] % 2 != q[0] % 2 && p[|p| - 1] != q[|q| - 1]
    requires c.NewEdge(k) == EdgeBetween(p[0], q[0]) && c.NewEdge(k).u != 0
    ensures Bridge(c, k)
  {
    hide Forest;
    if p[0] % 2 == 0 { BridgeIffRootsDiffer(c, k, g, p, q); } else { BridgeIffRootsDiffer(c, k, g, q, p); }
  }

  lemma NotLinkedNoRepeat(c: Cuckoo, k: nat, two: bool, g: seq<nat>, p: seq<nat>, q: seq<nat>)
    requires LinksExact(c, k, g) && IsTrail(g, p) && IsTrail(g, q) && p[|p| - 1] != q[|q| - 1]
    requires c.NewEdge(k) == EdgeBetween(p[0], q[0]) && !(two && Repeats(c, k))
    ensures !(two && Repeats(c, k + 1))
  {
    hide LinksExact;
    if Linked(g, p[0], q[0]) { LinkedShareRoot(g, p, q); }
    if !Repeats(c, k) { RepeatIffLinked(c, k, g); }
  }

  lemma RepeatOfLink(c: Cuckoo, k: nat, g: seq<nat>, p: seq<nat>, q: seq<nat>)
    requires LinksExact(c, k, g) && IsTrail(g, p) && IsTrail(g, q) && Linked(g, p[0], q[0])
    requires c.NewEdge(k) == EdgeBetween(p[0], q[0])
    ensures Repeats(c, k + 1)
  {
    hide LinksExact;
    if Repeats(c, k) { RepeatsGrows(c, k, k + 1); } else { RepeatIffLinked(c, k, g); }
  }

  lemma ParentIsFirst(g: seq<nat>, p: seq<nat>, q: seq<nat>)
    requires IsTrail(g, p) && IsTrail(g, q) && Linked(g, p[0], q[0]) && |p| <= |q|
    ensures g[q[0]] == p[0]
  {
    if g[p[0]] == q[0] { ParentTrailIsShorter(g, q, p); }
  }

  /** An edge within one tree that closes a longer cycle leaves all as it is. */
  lemma PassedState(c: Cuckoo, k: nat, two: bool, g: seq<nat>, p: seq<nat>, q: seq<nat>)
    requires State(c, k, two && Repeats(c, k), g) && IsTrail(g, p) && IsTrail(g, q)
    requires p[|p| - 1] == q[|q| - 1] && c.NewEdge(k) == Edge(p[0], q[0])
    requires two ==> !Linked(g, p[0], q[0])
    ensures State(c, k + 1, two && Repeats(c, k + 1), g)
  {
    hide Forest, LinksExact, LinksMined, TwoCycle, Bridge, Repeats, Linked;
    LinksMonotone(c, k, g);
    if two && Repeats(c, k) {
      RepeatsGrows(c, k, k + 1);
    } else {
      RedundantKeepsForest(c, k, g, p, q);
      BridgeIffRootsDiffer(c, k, g, p, q);
      UnrecordedKeepsExact(c, k, g);
      if two { RepeatIffLinked(c, k, g); }
    }
  }

  /** So does an edge with a null u-node. */
  lemma SkippedState(c: Cuckoo, k: nat, two: bool, g: seq<nat>)
    requires State(c, k, two && Repeats(c, k), g) && c.NewEdge(k).u == 0
    ensures State(c, k + 1, two && Repeats(c, k + 1), g)
  {
    hide Forest, LinksExact, LinksMined, TwoCycle, MinedConnect;
    LinksMonotone(c, k, g);
    RepeatsNext(c, k);
    if !(two && Repeats(c, k)) {
      SkippedKeepsForest(c, k, g);
      UnrecordedKeepsExact(c, k, g);
    }
  }

  lemma StateIsForestIff(c: Cuckoo, k: nat, lost: bool, g: seq<nat>)
    requires State(c, k, lost, g)
    ensures Forest(c, k, g) <==> !lost
  {
    hide Forest, TwoCycle;
    if lost { TwoCycleIsNoForest(c, k, g); }
  }

  /** From a forest, one nonce leads to a forest unless its edge is a link already and two-edge proofs are sought. */
  lemma ForestGoesOnIff(c: Cuckoo, k: nat, two: bool, g: seq<nat>, g': seq<nat>)
    requires State(c, k, two && Repeats(c, k), g) && State(c, k + 1, two && Repeats(c, k + 1), g') && Forest(c, k, g)
    requires 0 < c.NewEdge(k).u < |g| && c.NewEdge(k).v < |g|
    ensures Forest(c, k + 1, g') <==> !(two && Linked(g, c.NewEdge(k).u, c.NewEdge(k).v))
  {
    hide Forest, TwoCycle, Repeats, Linked, LinksExact, LinksMined;
    StateIsForestIff(c, k, two && Repeats(c, k), g);
    StateIsForestIff(c, k + 1, two && Repeats(c, k + 1), g');
    if two { RepeatIffLinked(c, k, g); }
  }
}
