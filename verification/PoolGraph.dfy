/** The graph of pool transactions: edges by commitment, and two lists of vertices. */
module PoolGraph {
  import opened Wrappers
  import opened PoolState

  datatype PoolEntry = PoolEntry(transactionHash: Hash)

  ghost function Names(es: seq<PoolEntry>): set<Hash> {
    set e | e in es :: e.transactionHash
  }

  ghost predicate Distinct(es: seq<PoolEntry>) {
    forall i, j :: 0 <= i < j < |es| ==> es[i].transactionHash != es[j].transactionHash
  }

  /** Edges keyed by their commitment; the last of several with one key wins. */
  function ByCommitment(es: seq<Edge>): map<Commitment, Edge> {
    if es == [] then map[] else ByCommitment(es[..|es| - 1])[es[|es| - 1].output := es[|es| - 1]]
  }

  /** `Vec::swap_remove`: the last element takes the place of the removed one. */
  function SwapRemove<T>(s: seq<T>, i: nat): seq<T>
    requires i < |s|
  {
    s[i := s[|s| - 1]][..|s| - 1]
  }

  lemma SwapRemoveNames(es: seq<PoolEntry>, i: nat)
    requires Distinct(es) && i < |es|
    ensures Distinct(SwapRemove(es, i))
    ensures Names(SwapRemove(es, i)) == Names(es) - {es[i].transactionHash}
  {
    var r := SwapRemove(es, i);
    forall h
      ensures h in Names(r) <==> h in Names(es) && h != es[i].transactionHash
    {
      if h in Names(es) && h != es[i].transactionHash {
        var k :| 0 <= k < |es| && es[k].transactionHash == h;
        assert r[if k == |es| - 1 then i else k] == es[k];
      }
      if h in Names(r) {
        var k :| 0 <= k < |r| && r[k].transactionHash == h;
        assert r[k] == es[if k == i then |es| - 1 else k];
      }
    }
  }

  lemma AppendNames(es: seq<PoolEntry>, e: PoolEntry)
    ensures Names(es + [e]) == Names(es) + {e.transactionHash}
    ensures Distinct(es) && e.transactionHash !in Names(es) ==> Distinct(es + [e])
  {
    assert forall x :: x in es + [e] <==> x in es || x == e;
  }

  class DirectedGraph {
    var edges: Edges
    var vertices: seq<PoolEntry>
    var roots: seq<PoolEntry>

    constructor Empty()
      ensures Valid() && edges == map[] && Roots() == Inner() == {}
    {
      edges := map[];
      vertices := [];
      roots := [];
    }

    ghost predicate Valid()
      reads this
    {
      Distinct(vertices) && Distinct(roots) && Names(roots) !! Names(vertices)
    }

    ghost function Roots(): set<Hash>
      reads this
    {
      Names(roots)
    }

    ghost function Inner(): set<Hash>
      reads this
    {
      Names(vertices)
    }

    method RemoveEdgeByCommitment(c: Commitment) returns (e: Option<Edge>)
      modifies `edges
      ensures edges == old(edges) - {c}
      ensures e == if c in old(edges) then Some(old(edges)[c]) else None
    {
      e := if c in edges then Some(edges[c]) else None;
      edges := edges - {c};
    }

    static method Position(es: seq<PoolEntry>, h: Hash) returns (at: Option<nat>)
      ensures at.Some? ==> at.value < |es| && es[at.value].transactionHash == h
      ensures at.None? ==> h !in Names(es)
    {
      for i := 0 to |es|
        invariant forall k :: 0 <= k < i ==> es[k].transactionHash != h
      {
        if es[i].transactionHash == h {
          return Some(i);
        }
      }
      return None;
    }

    /** Takes the vertex out of whichever list it is in. */
    method RemoveVertex(h: Hash) returns (e: Option<PoolEntry>)
      requires Valid()
      modifies `roots, `vertices
      ensures Valid() && Roots() == old(Roots()) - {h} && Inner() == old(Inner()) - {h}
      ensures e.Some? <==> h in old(Roots()) + old(Inner())
      ensures e.Some? ==> e.value.transactionHash == h
    {
      var i := Position(roots, h);
      match i {
        case Some(at) =>
          SwapRemoveNames(roots, at);
          e := Some(roots[at]);
          assert roots[at] in roots;
          roots := SwapRemove(roots, at);
        case None =>
          var j := Position(vertices, h);
          match j {
            case Some(at) =>
              SwapRemoveNames(vertices, at);
              e := Some(vertices[at]);
              assert vertices[at] in vertices;
              vertices := SwapRemove(vertices, at);
            case None =>
              e := None;
          }
      }
    }

    /** Promotes to roots the vertices that are no longer the destination of any edge. */
    method UpdateRoots()
      requires Valid()
      modifies `roots, `vertices
      ensures Valid()
      ensures Roots() == old(Roots()) + set h | h in old(Inner()) && !HasParent(edges, h)
      ensures Inner() == set h | h in old(Inner()) && HasParent(edges, h)
    {
      var destinations := set c | c in edges && edges[c].destination.Some? :: edges[c].destination.value;
      var newVertices: seq<PoolEntry> := [];
      for i := 0 to |vertices|
        invariant vertices == old(vertices)
        invariant Distinct(newVertices) && Distinct(roots)
        invariant Names(roots) == old(Roots()) + set h | h in Names(vertices[..i]) && !HasParent(edges, h)
        invariant Names(newVertices) == set h | h in Names(vertices[..i]) && HasParent(edges, h)
      {
        var x := vertices[i];
        assert x.transactionHash in destinations <==> HasParent(edges, x.transactionHash);
        assert x.transactionHash !in Names(vertices[..i]);
        assert x in vertices;
        assert vertices[..i + 1] == vertices[..i] + [x];
        AppendNames(vertices[..i], x);
        if x.transactionHash in destinations {
          AppendNames(newVertices, x);
          newVertices := newVertices + [x];
        } else {
          AppendNames(roots, x);
          roots := roots + [x];
        }
      }
      assert vertices[..|vertices|] == vertices;
      vertices := newVertices;
    }

    /** Adds a vertex with its incoming edges; without any, it is a root. */
    method AddEntry(vertex: PoolEntry, es: seq<Edge>)
      requires Valid() && vertex.transactionHash !in Roots() + Inner()
      modifies this
      ensures Valid() && edges == old(edges) + ByCommitment(es)
      ensures Roots() == if es == [] then old(Roots()) + {vertex.transactionHash} else old(Roots())
      ensures Inner() == if es == [] then old(Inner()) else old(Inner()) + {vertex.transactionHash}
    {
      if |es| == 0 {
        AppendNames(roots, vertex);
        roots := roots + [vertex];
      } else {
        AppendNames(vertices, vertex);
        vertices := vertices + [vertex];
        for i := 0 to |es|
          invariant edges == old(edges) + ByCommitment(es[..i])
          invariant roots == old(roots) && vertices == old(vertices) + [vertex]
        {
          edges := edges[es[i].output := es[i]];
          assert es[..i + 1][..i] == es[..i];
        }
        assert es[..|es|] == es;
      }
    }

    /** All vertices, the roots first. */
    method GetVertices() returns (hashes: seq<Hash>)
      ensures |hashes| == |roots| + |vertices|
      ensures forall h :: h in hashes <==> h in Roots() + Inner()
      ensures Valid() ==> forall i, j :: 0 <= i < j < |hashes| ==> hashes[i] != hashes[j]
    {
      var es := roots + vertices;
      hashes := seq(|es|, i requires 0 <= i < |es| => es[i].transactionHash);
      ListsAreNames(hashes);
    }

    lemma ListsAreNames(hashes: seq<Hash>)
      requires |hashes| == |roots| + |vertices|
      requires forall i :: 0 <= i < |hashes| ==> hashes[i] == (roots + vertices)[i].transactionHash
      ensures forall h :: h in hashes <==> h in Roots() + Inner()
      ensures Valid() ==> forall i, j :: 0 <= i < j < |hashes| ==> hashes[i] != hashes[j]
    {
      forall h
        ensures h in hashes <==> h in Roots() + Inner()
      {
        if h in Roots() {
          var i :| 0 <= i < |roots| && roots[i].transactionHash == h;
          assert hashes[i] == h;
        }
        if h in Inner() {
          var i :| 0 <= i < |vertices| && vertices[i].transactionHash == h;
          assert hashes[|roots| + i] == h;
        }
        if h in hashes {
          var i :| 0 <= i < |hashes| && hashes[i] == h;
          assert (if i < |roots| then roots[i] else vertices[i - |roots|]).transactionHash == h;
        }
      }
      if Valid() {
        forall i, j | 0 <= i < j < |hashes|
          ensures hashes[i] != hashes[j]
        {
          if i < |roots| <= j {
            assert hashes[i] in Names(roots) && hashes[j] in Names(vertices);
          }
        }
      }
    }

    method GetRoots() returns (hashes: seq<Hash>)
      ensures |hashes| == |roots|
      ensures forall h :: h in hashes <==> h in Roots()
      ensures Valid() ==> forall i, j :: 0 <= i < j < |hashes| ==> hashes[i] != hashes[j]
    {
      var es := roots;
      hashes := seq(|es|, i requires 0 <= i < |es| => es[i].transactionHash);
      assert forall i :: 0 <= i < |es| ==> hashes[i] == es[i].transactionHash;
      assert forall h :: h in Roots() ==> exists i :: 0 <= i < |roots| && roots[i].transactionHash == h;
    }
  }
}
