/** The verifier of Cuckoo Cycle proofs. */
module CuckooVerify {
  import opened CuckooGraph

  /** What holds of the edges `seen` so far, when the walk stands at edge `i`. */
  ghost predicate Walked(us: seq<nat>, vs: seq<nat>, seen: set<nat>, i: nat)
    requires |us| == |vs|
  {
    && seen <= Indices(|us|) && i < |us| && i !in seen
    // the walk starts at edge 0 and has not come back to it
    && (if seen == {} then i == 0 else 0 in seen && i != 0)
    // no v-node leads out of `seen`; the only u-nodes that do are those of the two ends
    && ClosedOn(vs, seen, seen)
    && ClosedOn(us, seen - {0}, seen + {i})
    && (i != 0 ==> ClosedOn(us, {i}, seen + {i}) && HasOnlyMate(us, i))
    && (forall e {:trigger HasOnlyMate(vs, e)} :: e in seen ==> HasOnlyMate(vs, e))
    && (forall e {:trigger HasOnlyMate(us, e)} :: e in seen && e != 0 ==> HasOnlyMate(us, e))
    && Around(us, vs, seen + {i})
  }

  /** Edges that share a node of this side with an edge of `s` are in `t`. */
  ghost predicate ClosedOn(ns: seq<nat>, s: set<nat>, t: set<nat>) {
    forall e: nat, k: nat :: e in s && e < |ns| && k < |ns| && ns[k] == ns[e] ==> k in t
  }

  /** A closed set that holds edge 0 holds all of `s`. */
  ghost predicate Around(us: seq<nat>, vs: seq<nat>, s: set<nat>)
    requires |us| == |vs|
  {
    forall t: set<nat> :: Closed(us, vs, t) && 0 in t ==> s <= t
  }

  lemma SubsetSize(a: set<nat>, b: set<nat>)
    requires a <= b
    ensures |a| <= |b|
    ensures |a| == |b| ==> a == b
  {
    assert b == a + (b - a);
  }

  /** The two edges of one turn of the loop are new, so `count` never drops below zero. */
  lemma TurnIsFresh(us: seq<nat>, vs: seq<nat>, seen: set<nat>, i: nat, j: nat, next: nat)
    requires |us| == |vs| && Walked(us, vs, seen, i)
    requires OnlyMate(vs, i, j) && OnlyMate(us, j, next)
    ensures j !in seen && j != i && j != 0
    ensures |seen + {i, j}| == |seen| + 2 <= |us|
    ensures next == 0 || next !in seen + {i, j}
  {
    assert seen + {i, j} == (seen + {i}) + {j};
    SubsetSize(seen + {i, j}, Indices(|us|));
  }

  /** The edges of one turn have single mates, and lead only to each other and to `next`. */
  lemma TurnMates(us: seq<nat>, vs: seq<nat>, seen: set<nat>, i: nat, j: nat, next: nat)
    requires |us| == |vs| && Walked(us, vs, seen, i)
    requires OnlyMate(vs, i, j) && OnlyMate(us, j, next)
    ensures HasOnlyMate(vs, i) && HasOnlyMate(vs, j) && HasOnlyMate(us, j) && HasOnlyMate(us, next)
    ensures ClosedOn(vs, seen + {i, j}, seen + {i, j})
    ensures ClosedOn(us, seen + {i, j} - {0}, seen + {i, j} + {next})
    ensures ClosedOn(us, {next}, seen + {i, j} + {next})
    ensures Around(us, vs, seen + {i, j} + {next})
  {
    assert OnlyMate(vs, j, i);
    assert OnlyMate(us, next, j);
    forall t: set<nat> | Closed(us, vs, t) && 0 in t
      ensures seen + {i, j} + {next} <= t
    {
      assert seen + {i} <= t;
      assert j in t;
    }
  }

  /** A turn that does not come back to edge 0 keeps the walk's invariant. */
  lemma TurnKeepsWalk(us: seq<nat>, vs: seq<nat>, seen: set<nat>, i: nat, j: nat, next: nat)
    requires |us| == |vs| && Walked(us, vs, seen, i)
    requires OnlyMate(vs, i, j) && OnlyMate(us, j, next) && next != 0
    ensures Walked(us, vs, seen + {i, j}, next)
  {
    TurnIsFresh(us, vs, seen, i, j, next);
    TurnMates(us, vs, seen, i, j, next);
  }

  /** Back at edge 0, what was seen is closed, and is everything exactly for a single cycle. */
  lemma TurnCloses(us: seq<nat>, vs: seq<nat>, seen: set<nat>, i: nat, j: nat)
    requires |us| == |vs| && Walked(us, vs, seen, i)
    requires OnlyMate(vs, i, j) && OnlyMate(us, j, 0)
    ensures |seen + {i, j}| == |us| <==> SingleCycle(us, vs)
  {
    var all := seen + {i, j};
    TurnIsFresh(us, vs, seen, i, j, 0);
    TurnMates(us, vs, seen, i, j, 0);
    assert all + {0} == all;
    assert Closed(us, vs, all);
    SubsetSize(all, Indices(|us|));
    if all == Indices(|us|) {
      assert TwoRegular(us) by {
        forall e: nat | e < |us| ensures HasOnlyMate(us, e) { assert e in all; }
      }
      assert TwoRegular(vs) by {
        forall e: nat | e < |us| ensures HasOnlyMate(vs, e) { assert e in all; }
      }
      AroundIsConnected(us, vs);
    }
  }

  /** If every closed set around edge 0 is everything, the graph is connected. */
  lemma AroundIsConnected(us: seq<nat>, vs: seq<nat>)
    requires |us| == |vs| > 0
    requires Around(us, vs, Indices(|us|))
    ensures Connected(us, vs)
  {
    forall t: set<nat> | t != {} && t <= Indices(|us|) && Closed(us, vs, t)
      ensures t == Indices(|us|)
    {
      var all := Indices(|us|);
      assert Closed(us, vs, all - t);
      if 0 in all - t {
        assert false;
      }
    }
  }

  method Verify(c: Cuckoo, nonces: seq<nat>, ease: nat) returns (ok: bool)
    ensures ok <==> ValidProof(c, nonces, c.Easiness(ease))
    ensures ease * c.Size() < U64_SPAN ==>
      (ok <==> Increasing(nonces) && WithinShare(nonces, ease * c.Size()) && SingleCycle(Side(c, nonces, 0), Side(c, nonces, 1)))
  {
    hide Context.NewNode, Context.Easiness, Context.Size, SingleCycle, WithinShare;
    EasinessIsShare(c, ease, nonces);
    if ease * c.Size() < U64_SPAN { SmallRemainder(ease * c.Size()); }
    var easiness := c.Easiness(ease);
    var n := |nonces|;
    var us, vs := new nat[n], new nat[n];
    for k := 0 to n
      invariant forall m :: 0 <= m < k ==> us[m] == c.NewNode(nonces[m], 0)
      invariant forall m :: 0 <= m < k ==> vs[m] == c.NewNode(nonces[m], 1)
      invariant forall m :: 0 <= m < k ==> nonces[m] < easiness
      invariant forall a, b :: 0 <= a < b < k ==> nonces[a] < nonces[b]
    {
      if nonces[k] >= easiness || (k != 0 && nonces[k] <= nonces[k - 1]) {
        return false;
      }
      us[k] := c.NewNode(nonces[k], 0);
      vs[k] := c.NewNode(nonces[k], 1);
    }
    assert us[..] == Side(c, nonces, 0) && vs[..] == Side(c, nonces, 1);
    ok := FollowCycle(us, vs);
  }

  /** Finds the only other edge on the node of edge `i`; `i` itself when there is not exactly one. */
  method FindMate(ns: array<nat>, i: nat) returns (j: nat)
    requires i < ns.Length
    ensures j < ns.Length
    ensures j != i ==> OnlyMate(ns[..], i, j)
    ensures j == i ==> !HasOnlyMate(ns[..], i)
  {
    j := i;
    for k := 0 to ns.Length
      invariant j < ns.Length
      invariant j != i ==> j < k && ns[j] == ns[i]
      invariant forall m: nat :: m < k && m != i && ns[m] == ns[i] ==> m == j
    {
      if k != i && ns[k] == ns[i] {
        if j != i {
          assert ns[..][j] == ns[..][k] == ns[..][i];
          return i;
        }
        j := k;
      }
    }
  }

  /** The loop of `verify` that walks the edges, alternating sides. */
  method FollowCycle(us: array<nat>, vs: array<nat>) returns (ok: bool)
    requires us.Length == vs.Length
    ensures ok <==> SingleCycle(us[..], vs[..])
  {
    var n := us.Length;
    ghost var su, sv := us[..], vs[..];
    if n == 0 { return false; }
    var i := 0;
    var count := n;
    ghost var seen: set<nat> := {};
    while true
      invariant Walked(su, sv, seen, i)
      invariant count + |seen| == n
      decreases count
    {
      var j := FindMate(vs, i);
      if j == i {
        return false;
      }
      var next := FindMate(us, j);
      if next == j {
        return false;
      }
      TurnIsFresh(su, sv, seen, i, j, next);
      count := count - 2;
      if next == 0 {
        TurnCloses(su, sv, seen, i, j);
        break;
      }
      TurnKeepsWalk(su, sv, seen, i, j, next);
      seen := seen + {i, j};
      i := next;
    }
    ok := count == 0;
  }
}
