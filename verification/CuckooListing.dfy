/** What the verifier accepts, as cycles written out node by node. */
module CuckooListing {
  import opened CuckooGraph
  import opened CuckooCycle
  import opened CuckooVerify

  /** Edges in the order of the walk: a v-node leads from each even place to the next, a u-node from each odd one. */
  ghost predicate InOrder(us: seq<nat>, vs: seq<nat>, at: seq<nat>) {
    && |us| == |vs| && |at| % 2 == 0
    && (forall t: nat :: t < |at| ==> at[t] < |us|)
    && (forall t: nat :: t < |at| && t % 2 == 0 ==> OnlyMate(vs, at[t], at[t + 1]))
    && (forall t: nat :: t < |at| - 1 && t % 2 == 1 ==> OnlyMate(us, at[t], at[t + 1]))
    && (forall s: nat, t: nat :: s < t < |at| ==> at[s] != at[t])
  }

  /** The walk so far, and the edge `i` that it has come to. */
  ghost predicate Ordered(us: seq<nat>, vs: seq<nat>, at: seq<nat>, seen: set<nat>, i: nat) {
    && InOrder(us, vs, at) && (forall e: nat :: e in seen <==> e in at) && |at| == |seen|
    && (if at == [] then i == 0 else at[0] == 0 && OnlyMate(us, at[|at| - 1], i))
  }

  /** All edges in the order of the walk, which comes back to the first. */
  ghost predicate Round(us: seq<nat>, vs: seq<nat>, at: seq<nat>) {
    && InOrder(us, vs, at) && |at| == |us| >= 2 && OnlyMate(us, at[|at| - 1], at[0])
    && (forall i: nat :: i < |us| ==> i in at)
  }

  lemma TurnInOrder(us: seq<nat>, vs: seq<nat>, at: seq<nat>, seen: set<nat>, i: nat, j: nat, next: nat)
    requires |us| == |vs| && Walked(us, vs, seen, i) && Ordered(us, vs, at, seen, i)
    requires OnlyMate(vs, i, j) && OnlyMate(us, j, next)
    ensures InOrder(us, vs, at + [i, j]) && |at + [i, j]| == |seen + {i, j}|
    ensures forall e: nat :: e in seen + {i, j} <==> e in at + [i, j]
  {
    hide Walked;
    TurnIsFresh(us, vs, seen, i, j, next);
    NotSeen(us, vs, seen, i);
    var more := at + [i, j];
    forall t: nat | t < |more| && t % 2 == 0
      ensures OnlyMate(vs, more[t], more[t + 1])
    {
      if t < |at| { assert more[t] == at[t] && more[t + 1] == at[t + 1]; }
    }
    forall t: nat | t < |more| - 1 && t % 2 == 1
      ensures OnlyMate(us, more[t], more[t + 1])
    {
      if t < |at| - 1 { assert more[t] == at[t] && more[t + 1] == at[t + 1]; }
    }
  }

  lemma NotSeen(us: seq<nat>, vs: seq<nat>, seen: set<nat>, i: nat)
    requires |us| == |vs| && Walked(us, vs, seen, i)
    ensures i !in seen && i < |us|
  {
  }

  /** In a single cycle every edge has a mate on each side. */
  lemma NextMates(us: seq<nat>, vs: seq<nat>, i: nat) returns (j: nat, next: nat)
    requires |us| == |vs| && SingleCycle(us, vs) && i < |us|
    ensures OnlyMate(vs, i, j) && OnlyMate(us, j, next)
  {
    assert HasOnlyMate(vs, i);
    j :| OnlyMate(vs, i, j);
    assert HasOnlyMate(us, j);
    next :| OnlyMate(us, j, next);
  }

  /** In a single cycle the walk goes round all edges. */
  lemma {:induction false} GoRound(us: seq<nat>, vs: seq<nat>, at: seq<nat>, seen: set<nat>, i: nat) returns (round: seq<nat>)
    requires |us| == |vs| && SingleCycle(us, vs) && Walked(us, vs, seen, i) && Ordered(us, vs, at, seen, i)
    ensures Round(us, vs, round)
    decreases |us| - |seen|
  {
    hide Walked, InOrder, SingleCycle, OnlyMate;
    NotSeen(us, vs, seen, i);
    var j, next := NextMates(us, vs, i);
    TurnIsFresh(us, vs, seen, i, j, next);
    TurnInOrder(us, vs, at, seen, i, j, next);
    var longer := at + [i, j];
    assert longer[0] == 0 && longer[|longer| - 1] == j;
    if next == 0 {
      TurnCloses(us, vs, seen, i, j);
      PlacesFit(us, vs, longer);
      FullIsAll(longer, seen + {i, j}, |us|);
      round := longer;
    } else {
      TurnKeepsWalk(us, vs, seen, i, j, next);
      round := GoRound(us, vs, longer, seen + {i, j}, next);
    }
  }

  lemma PlacesFit(us: seq<nat>, vs: seq<nat>, at: seq<nat>)
    requires InOrder(us, vs, at)
    ensures forall t: nat :: t < |at| ==> at[t] < |us|
  {
  }

  lemma FullIsAll(at: seq<nat>, seen: set<nat>, n: nat)
    requires (forall e: nat :: e in seen <==> e in at) && |seen| == n && forall e: nat :: e in at ==> e < n
    ensures forall i: nat :: i < n ==> i in at
  {
    SubsetSize(seen, Indices(n));
  }

  // ---------------------------------------------------------------- from the walk to the nodes

  /** The nodes that a round of edges passes: of each edge the end that it shares with the one before it. */
  ghost function NodesOf(es: seq<Edge>, at: seq<nat>): (w: seq<nat>)
    requires forall t: nat :: t < |at| ==> at[t] < |es|
    ensures |w| == |at|
  {
    seq(|at|, t requires 0 <= t < |at| => End(es[at[t]], t % 2))
  }

  /** Each edge of a round shares an end with the next: a v-node at even places, a u-node at odd ones. */
  lemma RoundShares(us: seq<nat>, vs: seq<nat>, at: seq<nat>, t: nat)
    requires Round(us, vs, at) && t < |at|
    ensures var n := Next(|at|, t);
      at[t] < |us| && at[n] < |us| && n % 2 != t % 2 && if t % 2 == 0 then vs[at[n]] == vs[at[t]] else us[at[n]] == us[at[t]]
  {
    if t % 2 == 0 {
      assert OnlyMate(vs, at[t], at[t + 1]);
    } else if t < |at| - 1 {
      assert OnlyMate(us, at[t], at[t + 1]);
    }
  }

  lemma RoundEdge(es: seq<Edge>, at: seq<nat>, t: nat)
    requires Round(Ends(es, 0), Ends(es, 1), at) && t < |at|
    requires forall i :: 0 <= i < |es| ==> es[i].u % 2 == 0 && es[i].v % 2 == 1
    ensures CycleEdge(NodesOf(es, at), t) == es[at[t]]
  {
    RoundShares(Ends(es, 0), Ends(es, 1), at, t);
    var w, n := NodesOf(es, at), Next(|at|, t);
    hide Round, InOrder;
    assert w[t] == End(es[at[t]], t % 2) && w[n] == End(es[at[n]], n % 2);
    assert End(es[at[n]], n % 2) == End(es[at[t]], n % 2);
  }

  /** The mate of an edge on a side is its neighbour in the round. */
  lemma RoundMates(us: seq<nat>, vs: seq<nat>, at: seq<nat>, s: nat, t: nat)
    requires Round(us, vs, at) && s < |at| && t < |at| && s != t
    ensures vs[at[s]] == vs[at[t]] ==> s == (if t % 2 == 0 then t + 1 else t - 1)
    ensures us[at[s]] == us[at[t]] ==> s == (if t % 2 == 1 then Next(|at|, t) else Prev(|at|, t))
  {
    if vs[at[s]] == vs[at[t]] {
      if t % 2 == 0 { assert OnlyMate(vs, at[t], at[t + 1]); } else { assert OnlyMate(vs, at[t - 1], at[t - 1 + 1]); }
    }
    if us[at[s]] == us[at[t]] {
      var p := if t % 2 == 1 then t else Prev(|at|, t);
      assert p % 2 == 1 && (p < |at| - 1 ==> OnlyMate(us, at[p], at[p + 1]));
    }
  }

  /** A round of at least three edges passes distinct nodes, u-nodes and v-nodes in turn. */
  lemma RoundIsSimple(es: seq<Edge>, at: seq<nat>)
    requires Round(Ends(es, 0), Ends(es, 1), at) && |es| >= 3
    requires forall i :: 0 <= i < |es| ==> es[i].u % 2 == 0 && es[i].v % 2 == 1
    ensures IsSimpleCycle(NodesOf(es, at))
  {
    var w := NodesOf(es, at);
    forall s: nat, t: nat | s < t < |w|
      ensures w[s] != w[t]
    {
      RoundMates(Ends(es, 0), Ends(es, 1), at, s, t);
      RoundMates(Ends(es, 0), Ends(es, 1), at, t, s);
    }
  }

  lemma RoundIsDistinct(es: seq<Edge>, at: seq<nat>, i: nat, j: nat)
    requires Round(Ends(es, 0), Ends(es, 1), at) && |es| >= 3 && i < j < |es|
    ensures es[i] != es[j]
  {
    var s: nat, t: nat := PlaceIn(es, at, i), PlaceIn(es, at, j);
    hide Round, InOrder;
    if es[i] == es[j] { RoundIsTwo(es, at, s, t); }
  }

  lemma RoundIsTwo(es: seq<Edge>, at: seq<nat>, s: nat, t: nat)
    requires Round(Ends(es, 0), Ends(es, 1), at) && s < |at| && t < |at| && s != t && es[at[s]] == es[at[t]]
    ensures |es| < 3
  {
    RoundMates(Ends(es, 0), Ends(es, 1), at, s, t);
    assert Ends(es, 0)[at[s]] == Ends(es, 0)[at[t]] && Ends(es, 1)[at[s]] == Ends(es, 1)[at[t]];
  }

  /** Where the round has edge `i`. */
  ghost function PlaceIn(es: seq<Edge>, at: seq<nat>, i: nat): (t: nat)
    requires Round(Ends(es, 0), Ends(es, 1), at) && i < |es|
    ensures t < |at| && at[t] == i
  {
    assert i in at;
    var t: nat :| t < |at| && at[t] == i;
    t
  }

  lemma RoundEdges(es: seq<Edge>, at: seq<nat>, e: Edge)
    requires Round(Ends(es, 0), Ends(es, 1), at)
    requires forall i :: 0 <= i < |es| ==> es[i].u % 2 == 0 && es[i].v % 2 == 1
    ensures e in es <==> e in CycleEdges(NodesOf(es, at))
  {
    var w := NodesOf(es, at);
    if e in es {
      var i: nat :| i < |es| && es[i] == e;
      RoundEdge(es, at, PlaceIn(es, at, i));
    }
    if e in CycleEdges(w) {
      var t: nat :| t < |w| && e == CycleEdge(w, t);
      RoundEdge(es, at, t);
    }
  }

  /** A round of at least three edges lists the edges of its cycle. */
  lemma RoundIsListing(es: seq<Edge>, at: seq<nat>)
    requires Round(Ends(es, 0), Ends(es, 1), at) && |es| >= 3
    requires forall i :: 0 <= i < |es| ==> es[i].u % 2 == 0 && es[i].v % 2 == 1
    ensures IsSimpleCycle(NodesOf(es, at)) && IsListing(es, NodesOf(es, at))
  {
    hide CycleEdges, IsSimpleCycle, CycleEdge, OnlyMate;
    RoundIsSimple(es, at);
    forall i: nat, j: nat | i < j < |es| ensures es[i] != es[j] { RoundIsDistinct(es, at, i, j); }
    forall e ensures e in es <==> e in CycleEdges(NodesOf(es, at)) { RoundEdges(es, at, e); }
  }

  /** The edges are those of a simple cycle, or one edge twice. */
  ghost predicate ListsCycle(es: seq<Edge>) {
    (|es| == 2 && es[0] == es[1]) || exists w: seq<nat> :: IsSimpleCycle(w) && IsListing(es, w)
  }

  /** Edges make a single cycle if and only if they list one, node by node, or are one edge twice. */
  lemma SingleCycleIff(es: seq<Edge>)
    requires forall i :: 0 <= i < |es| ==> es[i].u % 2 == 0 && es[i].v % 2 == 1
    ensures SingleCycle(Ends(es, 0), Ends(es, 1)) <==> ListsCycle(es)
  {
    var us, vs := Ends(es, 0), Ends(es, 1);
    if SingleCycle(us, vs) {
      assert Walked(us, vs, {}, 0) && Ordered(us, vs, [], {}, 0);
      var round := GoRound(us, vs, [], {}, 0);
      if |es| >= 3 {
        RoundIsListing(es, round);
      } else {
        TwoAreOne(es, round);
      }
    }
    if ListsCycle(es) {
      if |es| == 2 && es[0] == es[1] {
        DoubledIsCycle(us, vs);
      } else {
        var w: seq<nat> :| IsSimpleCycle(w) && IsListing(es, w);
        ListingIsSingleCycle(es, w);
      }
    }
  }

  lemma TwoAreOne(es: seq<Edge>, at: seq<nat>)
    requires Round(Ends(es, 0), Ends(es, 1), at) && |es| == 2
    ensures es[0] == es[1]
  {
    assert OnlyMate(Ends(es, 1), at[0], at[0 + 1]) && OnlyMate(Ends(es, 0), at[1], at[0]);
  }

  lemma DoubledIsCycle(us: seq<nat>, vs: seq<nat>)
    requires |us| == |vs| == 2 && us[0] == us[1] && vs[0] == vs[1]
    ensures SingleCycle(us, vs)
  {
    assert OnlyMate(us, 0, 1) && OnlyMate(us, 1, 0) && OnlyMate(vs, 0, 1) && OnlyMate(vs, 1, 0);
    forall t: set<nat> | t != {} && t <= Indices(2) && Closed(us, vs, t)
      ensures t == Indices(2)
    {
      var e :| e in t;
      assert 0 in t && 1 in t;
    }
  }

  /** A proof is valid if and only if its nonces are in order, below the easiness, and list a cycle by their edges. */
  lemma ValidProofIff(c: Cuckoo, nonces: seq<nat>, easiness: nat)
    ensures ValidProof(c, nonces, easiness) <==>
            Increasing(nonces) && (forall i :: 0 <= i < |nonces| ==> nonces[i] < easiness) && ListsCycle(EdgesOf(c, nonces))
  {
    hide SingleCycle, ListsCycle, Increasing;
    var es := EdgesOf(c, nonces);
    assert Ends(es, 0) == Side(c, nonces, 0) && Ends(es, 1) == Side(c, nonces, 1);
    SingleCycleIff(es);
  }
}
