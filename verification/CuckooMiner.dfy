/** The simple miner: it grows a forest edge by edge until an edge closes a long enough cycle. */
module CuckooMiner {
  import opened Wrappers
  import opened CuckooGraph
  import opened CuckooForest
  import opened CuckooCycle
  import opened CuckooDoubled
  import opened CuckooSearch
  import opened CuckooVerify

  const MAXPATHLEN: nat := 8192

  datatype Error = Path | NoSolution

  type Outcome = Result<seq<nat>, Error>

  datatype CycleSol = ValidSol(sol: seq<nat>) | InvalidCycle(len: nat) | NoCycle

  /** Some chain of parent links is too long for the path arrays. */
  ghost predicate HasLongChain(g: seq<nat>) {
    exists p: seq<nat> :: |p| == MAXPATHLEN + 1 && IsChain(g, p)
  }

  /** The nonces `s` are a proof: their edges are exactly those of the cycle `w`. */
  ghost predicate SolvesCycle(c: Cuckoo, easiness: nat, s: seq<nat>, w: seq<nat>) {
    && Increasing(s)
    && (forall i :: 0 <= i < |s| ==> s[i] < easiness)
    && IsListing(EdgesOf(c, s), w)
  }

  lemma SolutionIsValidProof(c: Cuckoo, easiness: nat, s: seq<nat>, w: seq<nat>)
    requires IsSimpleCycle(w) && SolvesCycle(c, easiness, s, w)
    ensures ValidProof(c, s, easiness)
  {
    var es := EdgesOf(c, s);
    ListingIsSingleCycle(es, w);
    assert Ends(es, 0) == Side(c, s, 0);
    assert Ends(es, 1) == Side(c, s, 1);
  }

  /** The nonces list the edges of the cycle that nonce `k` closes. */
  ghost predicate ProofFrom(c: Cuckoo, easiness: nat, k: nat, s: seq<nat>) {
    exists w: seq<nat> :: ClosedBy(c, k, w) && SolvesCycle(c, easiness, s, w)
  }

  /** The nonces list the edges of the cycle of length `n` through the meeting point of the trails. */
  ghost predicate SolvesMeet(c: Cuckoo, easiness: nat, s: seq<nat>, p: seq<nat>, q: seq<nat>, n: nat) {
    exists a: nat, b: nat :: Meet(p, q, a, b) && a + b + 1 == n && SolvesCycle(c, easiness, s, CycleNodes(p, q, a, b))
  }

  lemma SolvedIsProof(c: Cuckoo, easiness: nat, k: nat, g: seq<nat>, p: seq<nat>, q: seq<nat>, s: seq<nat>, n: nat)
    requires LinksMined(c, k, g) && LinksExact(c, k, g) && IsTrail(g, p) && IsTrail(g, q)
    requires c.NewEdge(k) == Edge(p[0], q[0]) && n >= 3 && SolvesMeet(c, easiness, s, p, q, n)
    ensures ProofFrom(c, easiness, k, s)
  {
    hide LinksMined, LinksExact, IsTrail, ClosedBy, SolvesCycle, Context.NewEdge;
    var a: nat, b: nat :| Meet(p, q, a, b) && a + b + 1 == n && SolvesCycle(c, easiness, s, CycleNodes(p, q, a, b));
    MeetIsClosed(c, k, g, p, q, a, b);
  }

  // ---------------------------------------------------------------- counting edges

  ghost function FirstEdges(w: seq<nat>, m: nat): (s: set<Edge>)
    requires m <= |w|
  {
    set t: nat | t in Indices(m) :: CycleEdge(w, t)
  }

  lemma {:induction false} FirstEdgesSize(w: seq<nat>, m: nat)
    requires m <= |w|
    ensures |FirstEdges(w, m)| <= m
    ensures IsSimpleCycle(w) ==> |FirstEdges(w, m)| == m
  {
    if m > 0 {
      FirstEdgesSize(w, m - 1);
      var e := CycleEdge(w, m - 1);
      assert FirstEdges(w, m) == FirstEdges(w, m - 1) + {e};
      if IsSimpleCycle(w) {
        LastEdgeIsNew(w, m);
      }
    }
  }

  lemma LastEdgeIsNew(w: seq<nat>, m: nat)
    requires IsSimpleCycle(w) && 0 < m <= |w|
    ensures CycleEdge(w, m - 1) !in FirstEdges(w, m - 1)
  {
    forall t: nat | t < m - 1
      ensures CycleEdge(w, t) != CycleEdge(w, m - 1)
    {
      CycleEdgesDiffer(w, t, m - 1);
    }
  }

  lemma CycleEdgesSize(w: seq<nat>)
    ensures |CycleEdges(w)| <= |w|
    ensures IsSimpleCycle(w) ==> |CycleEdges(w)| == |w|
    ensures |w| == 2 && w[0] % 2 != w[1] % 2 ==> |CycleEdges(w)| == 1
  {
    assert CycleEdges(w) == FirstEdges(w, |w|);
    FirstEdgesSize(w, |w|);
    if |w| == 2 && w[0] % 2 != w[1] % 2 {
      assert CycleEdges(w) == {CycleEdge(w, 0)};
    }
  }

  lemma TrailEdgeIsMined(c: Cuckoo, k: nat, g: seq<nat>, p: seq<nat>, t: nat)
    requires LinksMined(c, k, g) && IsTrail(g, p) && t + 1 < |p|
    ensures EdgeBetween(p[t], p[t + 1]) == EdgeBetween(p[t + 1], p[t])
    ensures exists nonce: nat :: nonce < k && c.NewEdge(nonce) == EdgeBetween(p[t], p[t + 1])
  {
    assert LinkIsMined(c, k, p[t], g[p[t]]);
  }

  /** Every edge of the cycle that nonce `k` closes comes from a nonce up to `k`. */
  lemma CycleIsMined(c: Cuckoo, k: nat, g: seq<nat>, p: seq<nat>, q: seq<nat>, a: nat, b: nat, e: Edge)
    requires LinksMined(c, k, g) && IsTrail(g, p) && IsTrail(g, q) && a < |p| && b < |q| && p[a] == q[b]
    requires c.NewEdge(k) == Edge(p[0], q[0])
    requires e in CycleEdges(CycleNodes(p, q, a, b))
    ensures exists nonce: nat :: nonce <= k && c.NewEdge(nonce) == e
  {
    hide LinksMined, IsTrail, CycleNodes, CycleEdge, EdgeBetween, Context.NewEdge;
    var w := CycleNodes(p, q, a, b);
    var t: nat :| t < |w| && CycleEdge(w, t) == e;
    CycleEdgeOnTrails(p, q, a, b, t);
    if t < a {
      TrailEdgeIsMined(c, k, g, p, t);
    } else if t < a + b {
      TrailEdgeIsMined(c, k, g, q, a + b - t - 1);
    }
  }

  // ---------------------------------------------------------------- the miner

  /** The cast to 32 bits. */
  function AsU32(n: nat): (r: nat)
    ensures n < U32_SPAN ==> r == n
  {
    n % U32_SPAN
  }

  function ClearBit(n: nat): nat { n - n % 2 }

  function SetBit(n: nat): nat { n - n % 2 + 1 }

  ghost predicate HasNonce(c: Cuckoo, k: nat, e: Edge) {
    exists nonce: nat :: nonce < k && c.NewEdge(nonce) == e
  }

  /** `e` is the edge of one of the links `p[t]`, `p[t + 1]` with `from <= t < to`. */
  ghost predicate UpEdge(p: seq<nat>, from: nat, to: nat, e: Edge)
    requires to < |p|
  {
    exists t: nat :: from <= t < to && e == EdgeBetween(p[t], p[t + 1])
  }

  lemma UpEdgesAreCycle(p: seq<nat>, q: seq<nat>, a: nat, b: nat, cycle: set<Edge>)
    requires a < |p| && b < |q| && p[a] == q[b] && p[0] % 2 == 0 && q[0] % 2 == 1
    requires forall i: nat :: i <= b ==> q[i] % 2 == (i + 1) % 2
    requires forall e :: e in cycle <==> e == Edge(p[0], q[0]) || UpEdge(p, 0, a, e) || UpEdge(q, 0, b, e)
    ensures cycle == CycleEdges(CycleNodes(p, q, a, b))
  {
    var w := CycleNodes(p, q, a, b);
    forall e
      ensures e in cycle <==> e in CycleEdges(w)
    {
      if e in cycle { UpEdgeIsCycleEdge(p, q, a, b, e); }
      if e in CycleEdges(w) {
        var t: nat :| t < |w| && e == CycleEdge(w, t);
        CycleEdgeIsUpEdge(p, q, a, b, t);
      }
    }
  }

  lemma UpEdgeIsCycleEdge(p: seq<nat>, q: seq<nat>, a: nat, b: nat, e: Edge)
    requires a < |p| && b < |q| && p[a] == q[b] && p[0] % 2 == 0 && q[0] % 2 == 1
    requires forall i: nat :: i <= b ==> q[i] % 2 == (i + 1) % 2
    requires e == Edge(p[0], q[0]) || UpEdge(p, 0, a, e) || UpEdge(q, 0, b, e)
    ensures e in CycleEdges(CycleNodes(p, q, a, b))
  {
    hide CycleEdge, CycleNodes, CycleEdges;
    var w := CycleNodes(p, q, a, b);
    if e == Edge(p[0], q[0]) {
      CycleEdgeOnTrails(p, q, a, b, a + b);
    } else if UpEdge(p, 0, a, e) {
      var t: nat :| t < a && e == EdgeBetween(p[t], p[t + 1]);
      CycleEdgeOnTrails(p, q, a, b, t);
    } else {
      var t: nat :| t < b && e == EdgeBetween(q[t], q[t + 1]);
      CycleEdgeOnTrails(p, q, a, b, a + b - t - 1);
      assert e == CycleEdge(w, a + b - t - 1);
    }
  }

  lemma CycleEdgeIsUpEdge(p: seq<nat>, q: seq<nat>, a: nat, b: nat, t: nat)
    requires a < |p| && b < |q| && p[a] == q[b] && p[0] % 2 == 0 && q[0] % 2 == 1 && t <= a + b
    requires forall i: nat :: i <= b ==> q[i] % 2 == (i + 1) % 2
    ensures var e := CycleEdge(CycleNodes(p, q, a, b), t);
      e == Edge(p[0], q[0]) || UpEdge(p, 0, a, e) || UpEdge(q, 0, b, e)
  {
    CycleEdgeOnTrails(p, q, a, b, t);
    if a <= t < a + b {
      var i := a + b - t - 1;
      assert CycleEdge(CycleNodes(p, q, a, b), t) == EdgeBetween(q[i], q[i + 1]);
    }
  }

  /** What the recovery scan has found below nonce `k`: `s` for some edges of `all`, not yet `rest`. */
  ghost predicate Recovered(c: Cuckoo, k: nat, s: seq<nat>, all: set<Edge>, rest: set<Edge>) {
    && Increasing(s) && (forall i :: 0 <= i < |s| ==> s[i] < k)
    && (forall i: nat, j: nat :: i < j < |s| ==> EdgesOf(c, s)[i] != EdgesOf(c, s)[j])
    && (forall e :: e in all <==> e in rest || e in EdgesOf(c, s))
    && (forall e :: e in EdgesOf(c, s) ==> e !in rest)
    && (forall e :: e in rest ==> !HasNonce(c, k, e))
  }

  lemma CycleOfPrefixes(p: seq<nat>, q: seq<nat>, m: nat, n: nat, a: nat, b: nat)
    requires a < m <= |p| && b < n <= |q|
    ensures CycleNodes(p[..m], q[..n], a, b) == CycleNodes(p, q, a, b)
  {
  }

  /** Trails with one root meet where the aligned search first finds them equal. */
  lemma AlignedSearchMeets(g: seq<nat>, p: seq<nat>, q: seq<nat>, a: nat, b: nat)
    requires IsTrail(g, p) && IsTrail(g, q) && a < |p| && b < |q| && p[a] == q[b]
    requires forall i: nat, j: nat {:trigger p[i], q[j]} :: i < a && j < b && i - j == a - b ==> p[i] != q[j]
    ensures Meet(p, q, a, b)
  {
    TrailsAlign(g, p, q, a, b);
    forall i: nat, j: nat | i <= a && j <= b && p[i] == q[j]
      ensures i == a && j == b
    {
      TrailsAlign(g, p, q, i, j);
    }
  }

  lemma TrailParity(g: seq<nat>, p: seq<nat>)
    requires IsBipartite(g) && IsTrail(g, p)
    ensures p[0] % 2 == 0 ==> forall i: nat :: i < |p| ==> p[i] % 2 == i % 2
    ensures p[0] % 2 == 1 ==> forall i: nat :: i < |p| ==> p[i] % 2 == (i + 1) % 2
  {
    forall i: nat | i < |p|
      ensures p[i] % 2 == (p[0] % 2 + i) % 2
    {
      TrailAlternates(g, p, i);
    }
  }

  /** The cycle found is complete: every edge has a nonce, unless the cycle is a doubled edge. */
  lemma CycleIsRecoverable(c: Cuckoo, k: nat, easiness: nat, g: seq<nat>, p: seq<nat>, q: seq<nat>, a: nat, b: nat)
    requires LinksMined(c, k, g) && IsTrail(g, p) && IsTrail(g, q) && Meet(p, q, a, b)
    requires c.NewEdge(k) == Edge(p[0], q[0]) && k < easiness
    ensures (a + b + 1) % 2 == 0
    ensures forall e :: e in CycleEdges(CycleNodes(p, q, a, b)) ==> HasNonce(c, easiness, e)
    ensures a + b + 1 >= 3 ==> IsSimpleCycle(CycleNodes(p, q, a, b))
    ensures |CycleEdges(CycleNodes(p, q, a, b))| == a + b + 1 <==> a + b + 1 != 2
  {
    var w := CycleNodes(p, q, a, b);
    LinksAreBipartite(c, k, g);
    MeetIsSimpleCycle(g, p, q, a, b);
    MeetAlternates(g, p, q, a, b, 0);
    if a + b > 0 { MeetAlternates(g, p, q, a, b, 1); }
    CycleEdgesSize(w);
    forall e | e in CycleEdges(w)
      ensures HasNonce(c, easiness, e)
    {
      CycleIsMined(c, k, g, p, q, a, b, e);
    }
  }

  lemma RecoverStart(c: Cuckoo, all: set<Edge>)
    ensures Recovered(c, 0, [], all, all)
  {
  }

  lemma RecoverStep(c: Cuckoo, k: nat, s: seq<nat>, all: set<Edge>, rest: set<Edge>)
    requires Recovered(c, k, s, all, rest) && c.NewEdge(k) in rest
    ensures Recovered(c, k + 1, s + [k], all, rest - {c.NewEdge(k)})
  {
    var s' := s + [k];
    assert EdgesOf(c, s') == EdgesOf(c, s) + [c.NewEdge(k)];
    forall e | e in rest - {c.NewEdge(k)}
      ensures !HasNonce(c, k + 1, e)
    {
      assert !HasNonce(c, k, e);
    }
  }

  lemma SkipStep(c: Cuckoo, k: nat, s: seq<nat>, all: set<Edge>, rest: set<Edge>)
    requires Recovered(c, k, s, all, rest) && c.NewEdge(k) !in rest
    ensures Recovered(c, k + 1, s, all, rest)
  {
    forall e | e in rest
      ensures !HasNonce(c, k + 1, e)
    {
      assert !HasNonce(c, k, e);
    }
  }

  /** The scan finds as many nonces as the proof needs exactly when every edge has one. */
  lemma RecoverEnd(c: Cuckoo, k: nat, s: seq<nat>, w: seq<nat>, rest: set<Edge>)
    requires Recovered(c, k, s, CycleEdges(w), rest) && |s| + |rest| == |CycleEdges(w)| <= |w|
    ensures |s| == |w| ==> SolvesCycle(c, k, s, w)
    ensures |s| == |w| <==> |CycleEdges(w)| == |w| && forall e :: e in CycleEdges(w) ==> HasNonce(c, k, e)
  {
    if |s| == |w| {
      assert rest == {};
      forall e | e in CycleEdges(w)
        ensures HasNonce(c, k, e)
      {
        assert e in EdgesOf(c, s);
        var i :| 0 <= i < |s| && EdgesOf(c, s)[i] == e;
        assert c.NewEdge(s[i]) == e;
      }
    } else if |CycleEdges(w)| == |w| {
      assert rest != {};
      var e :| e in rest;
      assert e in CycleEdges(w) && !HasNonce(c, k, e);
    }
  }

  class Miner {
    const easiness: nat
    const proofSize: nat
    const sizeshift: nat
    var cuckoo: Option<Cuckoo>
    var graph: array<nat>

    constructor (ease: nat, sizeshift: nat, proofSize: nat)
      requires ease <= 100 && 1 <= sizeshift <= 32
      ensures this.sizeshift == sizeshift && this.proofSize == proofSize
      ensures easiness == ease * Pow2(sizeshift) / 100 && easiness <= U32_SPAN
      ensures forall n: nat :: n < easiness <==> BelowShare(n, ease * Pow2(sizeshift))
      ensures fresh(graph)
    {
      var size := Pow2(sizeshift);
      EasinessFits(ease, sizeshift);
      forall n: nat ensures n < ease * size / 100 <==> BelowShare(n, ease * size) { PercentBelow(ease * size, n); }
      this.easiness := ease * size / 100;
      this.proofSize := proofSize;
      this.sizeshift := sizeshift;
      cuckoo := None;
      graph := new nat[size + 1](_ => 0);
    }

    ghost predicate Set(c: Cuckoo)
      reads this
    {
      && cuckoo == Some(c) && c.sizeshift == sizeshift <= 32
      && graph.Length == c.Size() + 1 && easiness <= U32_SPAN
    }

    /** Follows parent links from `us[0]` to the root, filling `us`. */
    method Path(ghost c: Cuckoo, ghost k: nat, start: nat, us: array<nat>) returns (r: Option<nat>)
      requires us.Length == MAXPATHLEN && us != graph && LinksMined(c, k, graph[..])
      requires 0 < us[0] < graph.Length && start == graph[us[0]]
      modifies us
      ensures us[0] == old(us[0])
      ensures r.Some? ==> r.value < MAXPATHLEN && IsTrail(graph[..], us[..r.value + 1])
      ensures r.None? ==> HasLongChain(graph[..])
    {
      ghost var g := graph[..];
      var u := start;
      var nu := 0;
      while u != 0
        invariant nu < MAXPATHLEN && us[0] == old(us[0])
        invariant IsChain(g, us[..nu + 1])
        invariant u == g[us[nu]] && graph[..] == g
        decreases MAXPATHLEN - nu
      {
        nu := nu + 1;
        if nu >= MAXPATHLEN {
          assert IsChain(g, us[..MAXPATHLEN] + [u]);
          while nu != 0 && us[nu - 1] != u
            invariant nu <= MAXPATHLEN
          {
            nu := nu - 1;
          }
          return None;
        }
        us[nu] := u;
        u := graph[u];
      }
      return Some(nu);
    }

    /** Reverses the links along `path[..n + 1]` and hangs `path[0]` under `w`. */
    method Hang(n: nat, path: array<nat>, w: nat)
      requires n < path.Length && path != graph
      requires IsTrail(graph[..], path[..n + 1])
      modifies graph
      ensures graph[..] == Joined(old(graph[..]), path[..n + 1], w)
    {
      ghost var g: seq<nat>, p: seq<nat> := graph[..], path[..n + 1];
      var m: nat := n;
      HangStarts(g, p);
      while m != 0
        invariant m <= n && graph.Length == |g| && path[..n + 1] == p
        invariant Hanging(graph[..], p, m, Reroot(g, p))
      {
        HangStep(graph[..], p, m, Reroot(g, p));
        m := m - 1;
        ghost var before := graph[..];
        assert path[m] == p[m] && path[m + 1] == p[m + 1];
        graph[path[m + 1]] := path[m];
        assert graph[..] == before[p[m + 1] := p[m]];
      }
      HangEnds(graph[..], p, Reroot(g, p), w);
      ghost var last := graph[..];
      assert path[0] == p[0];
      graph[path[0]] := w;
      assert graph[..] == last[p[0] := w];
    }

    /** Re-roots the shorter path and links it to the other end of the edge. */
    method UpdateGraph(nu: nat, us: array<nat>, nv: nat, vs: array<nat>)
      requires nu < us.Length && nv < vs.Length && us != graph && vs != graph
      requires IsTrail(graph[..], us[..nu + 1]) && IsTrail(graph[..], vs[..nv + 1])
      modifies graph
      ensures graph[..] == if nu < nv then Joined(old(graph[..]), us[..nu + 1], vs[0])
                           else Joined(old(graph[..]), vs[..nv + 1], us[0])
    {
      if nu < nv {
        Hang(nu, us, vs[0]);
      } else {
        Hang(nv, vs, us[0]);
      }
    }

    /** With two-edge proofs, the forest is lost once a recorded edge is generated again. */
    ghost predicate Lost(c: Cuckoo, k: nat) {
      proofSize == 2 && Repeats(c, k)
    }

    /** The forest of the first `k` nonces, with a link for each edge recorded; or, once lost, a two-cycle. */
    ghost predicate Recorded(c: Cuckoo, k: nat)
      reads this, graph
    {
      Set(c) && State(c, k, Lost(c, k), graph[..])
    }

    lemma RecordedIsForestIff(c: Cuckoo, k: nat)
      requires Recorded(c, k)
      ensures Forest(c, k, graph[..]) <==> !Lost(c, k)
    {
      StateIsForestIff(c, k, Lost(c, k), graph[..]);
    }

    /** Mining stopped at nonce `k` with the outcome `r`: no nonce before it closes a cycle of the right length. */
    ghost predicate StoppedAt(c: Cuckoo, k: nat, r: Outcome)
      reads this, graph
    {
      && k <= easiness && Recorded(c, k) && (forall j: nat :: j < k ==> !Closes(c, j, proofSize))
      && match r
         case Ok(s) => k < easiness && Closes(c, k, proofSize) && ProofFrom(c, easiness, k, s)
         case Err(NoSolution) => k == easiness
         case Err(Path) => HasLongChain(graph[..]) && (c.Size() > MAXPATHLEN || (proofSize == 2 && Repeats(c, k)))
    }

    /** Mines the nonces in turn until one closes a cycle of the right length. */
    method MineImpl(ghost c: Cuckoo) returns (r: Outcome)
      requires Set(c) && forall x: nat :: x < graph.Length ==> graph[x] == 0
      modifies graph
      ensures r.Ok? ==> |r.value| == proofSize && ValidProof(c, r.value, easiness)
      // the proof is that of the first nonce that closes a cycle of the right length, if a path error does not come first
      ensures exists k: nat ::
        StoppedAt(c, k, r) && (Forest(c, k, graph[..]) <==> !(proofSize == 2 && Repeats(c, k)))
      ensures r != Err(Error.Path) ==> (r.Ok? <==> exists k: nat :: k < easiness && Closes(c, k, proofSize))
      ensures c.Size() <= 8192 && proofSize != 2 ==> r != Err(Error.Path)
      ensures proofSize == 2 ==> r.Err?
    {
      hide Forest, LinksMined, State, Repeats, Linked, IsTrail, HasLongChain, ValidProof, Closes, ProofFrom, Context.NewNode, Pow2;
      var us, vs := new nat[MAXPATHLEN](_ => 0), new nat[MAXPATHLEN](_ => 0);
      Pow2Fits(sizeshift);
      NothingRecorded(c);
      for nonce := 0 to easiness
        invariant Recorded(c, nonce) && graph == old(graph)
        invariant forall j: nat :: j < nonce ==> !Closes(c, j, proofSize)
      {
        us[0] := AsU32(cuckoo.value.NewNode(nonce, 0));
        vs[0] := AsU32(cuckoo.value.NewNode(nonce, 1));
        var u := graph[us[0]];
        var v := graph[vs[0]];
        if us[0] == 0 {
          SkipRecords(c, nonce);
          NullCloses(c, nonce, proofSize);
          continue;
        }
        var stop := MineEdge(c, nonce, u, us, v, vs);
        if stop.Some? {
          RecordedIsForestIff(c, nonce);
          assert StoppedAt(c, nonce, stop.value);
          return stop.value;
        }
      }
      RecordedIsForestIff(c, easiness);
      assert StoppedAt(c, easiness, Err(NoSolution));
      return Err(NoSolution);
    }

    /** The part of the mining loop that deals with one edge. */
    method MineEdge(ghost c: Cuckoo, ghost k: nat, u: nat, us: array<nat>, v: nat, vs: array<nat>) returns (stop: Option<Outcome>)
      requires Recorded(c, k) && k < easiness && us != graph && vs != graph && us != vs
      requires us.Length == vs.Length == MAXPATHLEN && c.NewEdge(k) == Edge(us[0], vs[0]) && us[0] != 0
      requires us[0] < graph.Length && vs[0] < graph.Length && u == graph[us[0]] && v == graph[vs[0]]
      modifies graph, us, vs
      ensures stop.None? ==> Recorded(c, k + 1)
      // a forest stays one, unless a two-edge proof is sought and the edge is a link already
      ensures stop.None? && old(Forest(c, k, graph[..])) ==>
        (Forest(c, k + 1, graph[..]) <==> !(proofSize == 2 && old(Linked(graph[..], us[0], vs[0]))))
      ensures stop.Some? ==> Recorded(c, k) && stop.value != Err(NoSolution)
      ensures stop.Some? && stop.value.Ok? ==>
              |stop.value.value| == proofSize != 2 && ValidProof(c, stop.value.value, easiness)
      // the search stops with a proof exactly if the edge closes a cycle of the right length
      ensures stop.None? ==> !Closes(c, k, proofSize)
      ensures stop.Some? && stop.value.Ok? ==> Closes(c, k, proofSize) && ProofFrom(c, easiness, k, stop.value.value)
      ensures stop == Some(Err(Error.Path)) ==>
              HasLongChain(graph[..]) && (!Lost(c, k) ==> c.Size() > MAXPATHLEN)
    {
      hide Forest, LinksMined, State, Repeats, Linked, IsTrail, HasLongChain, ValidProof, MeetsIn, Joined, Context.NewEdge;
      hide Closes, ProofFrom, SolvesMeet;
      ghost var g, e := graph[..], c.NewEdge(k);
      StateHasLinks(c, k);
      var nu := Path(c, k, u, us);
      if nu.None? {
        LongChainIsLarge(c, k);
        return Some(Err(Error.Path));
      }
      var nv := Path(c, k, v, vs);
      if nv.None? {
        LongChainIsLarge(c, k);
        return Some(Err(Error.Path));
      }
      var sol := FindSol(c, k, nu.value, us, nv.value, vs);
      SearchIsRight(c, k, nu.value, us, nv.value, vs, sol);
      match sol {
        case ValidSol(res) =>
          return Some(Ok(res));
        case InvalidCycle(len) =>
          CycleRecords(c, k, nu.value, us, nv.value, vs, len);
          if old(Forest(c, k, graph[..])) { ForestGoesOnIff(c, k, proofSize == 2, g, graph[..]); }
          return None;
        case NoCycle =>
          JoinRecords(c, k, nu.value, us, nv.value, vs);
          UpdateGraph(nu.value, us, nv.value, vs);
          if old(Forest(c, k, graph[..])) { ForestGoesOnIff(c, k, proofSize == 2, g, graph[..]); }
          return None;
      }
    }

    /** What the search for the cycle says of the nonce, in terms of the edges recorded before. */
    lemma SearchIsRight(c: Cuckoo, k: nat, nu: nat, us: array<nat>, nv: nat, vs: array<nat>, sol: CycleSol)
      requires Recorded(c, k) && AtEdge(c, k, nu, us, nv, vs)
      requires sol.NoCycle? ==> us[nu] != vs[nv] || proofSize == 2
      requires sol.InvalidCycle? ==> sol.len != proofSize && MeetsIn(us[..nu + 1], vs[..nv + 1], sol.len)
      requires sol.ValidSol? ==> proofSize >= 3 && SolvesMeet(c, easiness, sol.sol, us[..nu + 1], vs[..nv + 1], proofSize)
      ensures sol.ValidSol? <==> Closes(c, k, proofSize)
      ensures sol.ValidSol? ==> ProofFrom(c, easiness, k, sol.sol)
    {
      hide Forest, LinksMined, LinksExact, IsTrail, Closes, ProofFrom, Meet, CycleNodes, SolvesCycle, Context.NewEdge, Repeats;
      var g, p, q := graph[..], us[..nu + 1], vs[..nv + 1];
      if proofSize < 3 {
        TwoNeverClose(c, k, proofSize);
      } else {
        ClosesIffMeets(c, k, g, p, q, proofSize);
        if sol.ValidSol? { SolvedIsProof(c, easiness, k, g, p, q, sol.sol, proofSize); }
        if sol.InvalidCycle? && MeetsIn(p, q, proofSize) { MeetIsUnique(g, p, q, sol.len, proofSize); }
        if sol.NoCycle? && MeetsIn(p, q, proofSize) { MeetSharesRoot(g, p, q, proofSize); }
      }
    }

    lemma StateHasLinks(c: Cuckoo, k: nat)
      requires Recorded(c, k)
      ensures LinksMined(c, k, graph[..])
    {
    }

    lemma NothingRecorded(c: Cuckoo)
      requires Set(c) && forall x: nat :: x < graph.Length ==> graph[x] == 0
      ensures Recorded(c, 0)
    {
      EmptyIsForest(c, graph[..]);
    }

    lemma SkipRecords(c: Cuckoo, k: nat)
      requires Recorded(c, k) && c.NewEdge(k).u == 0
      ensures Recorded(c, k + 1)
    {
      SkippedState(c, k, proofSize == 2, graph[..]);
    }

    lemma CycleRecords(c: Cuckoo, k: nat, nu: nat, us: array<nat>, nv: nat, vs: array<nat>, len: nat)
      requires Recorded(c, k) && AtEdge(c, k, nu, us, nv, vs) && us[nu] == vs[nv]
      requires len != proofSize && MeetsIn(us[..nu + 1], vs[..nv + 1], len)
      ensures Recorded(c, k + 1)
    {
      hide State, Repeats, LinksMined, IsTrail, MeetsIn, Linked;
      var g, p, q := graph[..], us[..nu + 1], vs[..nv + 1];
      if proofSize == 2 && Linked(g, p[0], q[0]) {
        DoubledIffLinked(g, p, q);
        MeetIsUnique(g, p, q, len, 2);
      }
      PassedState(c, k, proofSize == 2, g, p, q);
    }

    lemma JoinRecords(c: Cuckoo, k: nat, nu: nat, us: array<nat>, nv: nat, vs: array<nat>)
      requires Recorded(c, k) && AtEdge(c, k, nu, us, nv, vs)
      requires us[nu] == vs[nv] ==> proofSize == 2 && MeetsIn(us[..nu + 1], vs[..nv + 1], 2)
      ensures var g := if nu < nv then Joined(graph[..], us[..nu + 1], vs[0]) else Joined(graph[..], vs[..nv + 1], us[0]);
        State(c, k + 1, Lost(c, k + 1), g)
    {
      hide State, Repeats, LinksMined, IsTrail, MeetsIn, Linked, Joined;
      var g, p, q := graph[..], us[..nu + 1], vs[..nv + 1];
      DoubledIffLinked(g, p, q);
      if nu < nv {
        JoinedState(c, k, proofSize == 2, g, p, q);
      } else {
        LinkedBothWays(g, p[0], q[0]);
        JoinedState(c, k, proofSize == 2, g, q, p);
      }
    }

    lemma LongChainIsLarge(c: Cuckoo, k: nat)
      requires Recorded(c, k) && HasLongChain(graph[..])
      ensures !Lost(c, k) ==> c.Size() > MAXPATHLEN
    {
      var p: seq<nat> :| |p| == MAXPATHLEN + 1 && IsChain(graph[..], p);
      if !Lost(c, k) { ChainFits(c, k, graph[..], p); }
    }

    /** Mines for the header whose keyed hash is `sip`. */
    method Mine(sip: nat -> nat) returns (r: Outcome)
      requires 1 <= sizeshift <= 32 && easiness <= U32_SPAN
      modifies this
      ensures r.Ok? ==> |r.value| == proofSize && ValidProof(Context(sizeshift, sip), r.value, easiness)
      ensures exists k: nat ::
        && StoppedAt(Context(sizeshift, sip), k, r)
        && (Forest(Context(sizeshift, sip), k, graph[..]) <==> !(proofSize == 2 && Repeats(Context(sizeshift, sip), k)))
      ensures r != Err(Error.Path) ==>
        (r.Ok? <==> exists k: nat :: k < easiness && Closes(Context(sizeshift, sip), k, proofSize))
      // up to 8192 nodes, mining for other than two-edge proofs finds what there is to find
      ensures Pow2(sizeshift) <= 8192 && proofSize != 2 ==> r != Err(Error.Path)
      ensures proofSize == 2 ==> r.Err?
    {
      graph := new nat[Pow2(sizeshift) + 1](_ => 0);
      cuckoo := Some(Context(sizeshift, sip));
      r := MineImpl(cuckoo.value);
    }

    /** Nonce `k` is being processed, and the paths hold the trails of its edge's two ends. */
    ghost predicate AtEdge(c: Cuckoo, k: nat, nu: nat, us: array<nat>, nv: nat, vs: array<nat>)
      reads this, graph, us, vs
    {
      && Set(c) && k < easiness && nu < us.Length && nv < vs.Length && us != graph && vs != graph
      && c.NewEdge(k) == Edge(us[0], vs[0]) && us[0] != 0
      && LinksMined(c, k, graph[..])
      && IsTrail(graph[..], us[..nu + 1]) && IsTrail(graph[..], vs[..nv + 1])
    }

    /** Looks for the cycle that the edge of nonce `k` closes, and for its proof if it is long enough. */
    method FindSol(ghost c: Cuckoo, ghost k: nat, nu0: nat, us: array<nat>, nv0: nat, vs: array<nat>) returns (r: CycleSol)
      requires AtEdge(c, k, nu0, us, nv0, vs)
      ensures us[nu0] != vs[nv0] ==> r.NoCycle?
      ensures us[nu0] == vs[nv0] ==> (r.NoCycle? <==> proofSize == 2 && MeetsIn(us[..nu0 + 1], vs[..nv0 + 1], 2))
      ensures r.InvalidCycle? ==> r.len != proofSize && MeetsIn(us[..nu0 + 1], vs[..nv0 + 1], r.len)
      ensures r.ValidSol? ==> |r.sol| == proofSize && MeetsIn(us[..nu0 + 1], vs[..nv0 + 1], proofSize)
      ensures r.ValidSol? ==> ValidProof(c, r.sol, easiness)
      ensures r.ValidSol? ==> proofSize >= 3 && SolvesMeet(c, easiness, r.sol, us[..nu0 + 1], vs[..nv0 + 1], proofSize)
    {
      hide LinksMined, IsTrail, IsSimpleCycle, CycleNodes, CycleEdges, HasNonce, ValidProof, Increasing, Context.NewEdge;
      ghost var g: seq<nat>, p: seq<nat>, q: seq<nat> := graph[..], us[..nu0 + 1], vs[..nv0 + 1];
      if us[nu0] == vs[nv0] {
        var min := if nu0 < nv0 then nu0 else nv0;
        var nu: nat := nu0 - min;
        var nv: nat := nv0 - min;
        while us[nu] != vs[nv]
          invariant nu <= nu0 && nv <= nv0 && nu0 - nu == nv0 - nv
          invariant forall i: nat, j: nat {:trigger p[i], q[j]} :: i < nu && j < nv && i - j == nu - nv ==> p[i] != q[j]
          decreases nu0 - nu
        {
          nu := nu + 1;
          nv := nv + 1;
        }
        AlignedSearchMeets(g, p, q, nu, nv);
        CycleIsRecoverable(c, k, easiness, g, p, q, nu, nv);
        assert MeetsIn(p, q, nu + nv + 1);
        if MeetsIn(p, q, 2) { MeetIsUnique(g, p, q, nu + nv + 1, 2); }
        if nu + nv + 1 == proofSize {
          PathsAlternate(c, k, nu, nu0, us, nv, nv0, vs);
          CycleOfPrefixes(us[..], vs[..], nu0 + 1, nv0 + 1, nu, nv);
          assert us[..][..nu0 + 1] == p && vs[..][..nv0 + 1] == q;
          r := Solution(c, us, nu, vs, nv);
          if r.ValidSol? {
            SolutionIsValidProof(c, easiness, r.sol, CycleNodes(p, q, nu, nv));
          }
        } else {
          r := InvalidCycle(nu + nv + 1);
        }
      } else {
        r := NoCycle;
      }
    }

    lemma PathsAlternate(c: Cuckoo, k: nat, nu: nat, nu0: nat, us: array<nat>, nv: nat, nv0: nat, vs: array<nat>)
      requires AtEdge(c, k, nu0, us, nv0, vs) && nu <= nu0 && nv <= nv0
      ensures forall i: nat :: i <= nu ==> us[i] % 2 == i % 2
      ensures forall i: nat :: i <= nv ==> vs[i] % 2 == (i + 1) % 2
    {
      hide LinksMined, IsTrail, IsBipartite;
      var p, q := us[..nu0 + 1], vs[..nv0 + 1];
      LinksAreBipartite(c, k, graph[..]);
      assert p[0] == c.NewEdge(k).u && q[0] == c.NewEdge(k).v;
      hide Context.NewEdge;
      TrailParity(graph[..], p);
      TrailParity(graph[..], q);
      assert forall i: nat :: i <= nu ==> us[i] == p[i];
      assert forall i: nat :: i <= nv ==> vs[i] == q[i];
    }

    /** Recovers the nonces of the cycle's edges, or `NoCycle` if some edge has none. */
    method Solution(ghost c: Cuckoo, us: array<nat>, nu: nat, vs: array<nat>, nv: nat) returns (r: CycleSol)
      requires Set(c) && nu < us.Length && nv < vs.Length
      requires nu + nv + 1 == proofSize && us[nu] == vs[nv] && us[0] % 2 == 0 && vs[0] % 2 == 1
      requires forall i: nat :: i <= nu ==> us[i] % 2 == i % 2
      requires forall i: nat :: i <= nv ==> vs[i] % 2 == (i + 1) % 2
      ensures r.ValidSol? || r.NoCycle?
      ensures r.ValidSol? ==> SolvesCycle(c, easiness, r.sol, CycleNodes(us[..], vs[..], nu, nv))
      ensures r.ValidSol? <==>
              && |CycleEdges(CycleNodes(us[..], vs[..], nu, nv))| == proofSize
              && forall e: Edge :: e in CycleEdges(CycleNodes(us[..], vs[..], nu, nv)) ==> HasNonce(c, easiness, e)
    {
      var cycle := CollectEdges(us, nu, vs, nv);
      r := RecoverNonces(c, cycle, CycleNodes(us[..], vs[..], nu, nv));
    }

    /** The scan over all nonces for those of the cycle's edges. */
    method RecoverNonces(ghost c: Cuckoo, edges: set<Edge>, ghost w: seq<nat>) returns (r: CycleSol)
      requires Set(c) && |w| == proofSize && edges == CycleEdges(w)
      ensures r.ValidSol? || r.NoCycle?
      ensures r.ValidSol? ==> SolvesCycle(c, easiness, r.sol, w)
      ensures r.ValidSol? <==>
              |edges| == proofSize && forall e :: e in edges ==> HasNonce(c, easiness, e)
    {
      hide Recovered, SolvesCycle, HasNonce, CycleEdges, Context.NewEdge;
      CycleEdgesSize(w);
      RecoverStart(c, edges);
      var cycle := edges;
      var n: nat := 0;
      var sol := new nat[proofSize];
      ghost var found: seq<nat> := [];
      for nonce := 0 to easiness
        invariant n == |found| && n + |cycle| == |edges|
        invariant forall i: nat :: i < n ==> sol[i] == found[i]
        invariant Recovered(c, nonce, found, edges, cycle)
      {
        var edge := cuckoo.value.NewEdge(nonce);
        if edge in cycle {
          RecoverStep(c, nonce, found, edges, cycle);
          sol[n] := AsU32(nonce);
          n := n + 1;
          cycle := cycle - {edge};
          found := found + [nonce];
        } else {
          SkipStep(c, nonce, found, edges, cycle);
        }
      }
      RecoverEnd(c, easiness, found, w, cycle);
      if n == proofSize {
        assert sol[..] == found;
        return ValidSol(sol[..]);
      } else {
        return NoCycle;
      }
    }

    /** The set of the cycle's edges, gathered along the two paths. */
    method CollectEdges(us: array<nat>, nu0: nat, vs: array<nat>, nv0: nat) returns (cycle: set<Edge>)
      requires nu0 < us.Length && nv0 < vs.Length && us[nu0] == vs[nv0]
      requires forall i: nat :: i <= nu0 ==> us[i] % 2 == i % 2
      requires forall i: nat :: i <= nv0 ==> vs[i] % 2 == (i + 1) % 2
      ensures cycle == CycleEdges(CycleNodes(us[..], vs[..], nu0, nv0))
    {
      cycle := {Edge(us[0], vs[0])};
      var nu: nat := nu0;
      while nu != 0
        invariant nu <= nu0
        invariant forall e :: e in cycle <==> e == Edge(us[0], vs[0]) || UpEdge(us[..], nu, nu0, e)
      {
        nu := nu - 1;
        cycle := cycle + {Edge(us[ClearBit(nu + 1)], us[SetBit(nu)])};
      }
      var nv: nat := nv0;
      while nv != 0
        invariant nv <= nv0
        invariant forall e :: e in cycle <==>
          e == Edge(us[0], vs[0]) || UpEdge(us[..], 0, nu0, e) || UpEdge(vs[..], nv, nv0, e)
      {
        nv := nv - 1;
        cycle := cycle + {Edge(vs[SetBit(nv)], vs[ClearBit(nv + 1)])};
      }
      UpEdgesAreCycle(us[..], vs[..], nu0, nv0, cycle);
    }
  }

  /** Whatever the miner finds, the verifier accepts for the same header, size and ease. */
  method MinedProofVerifies(sip: nat -> nat, ease: nat, sizeshift: nat, proofSize: nat) returns (found: bool, ok: bool)
    requires ease <= 100 && 1 <= sizeshift <= 32
    ensures found ==> ok
  {
    var miner := new Miner(ease, sizeshift, proofSize);
    var r := miner.Mine(sip);
    found, ok := r.Ok?, false;
    if r.Ok? {
      EasinessFits(ease, sizeshift);
      ok := Verify(Context(sizeshift, sip), r.value, ease);
    }
  }

  /** With a hash that never changes, the search for two-edge proofs loses its forest. */
  method ForestIsLost() returns (miner: Miner, r: Outcome)
    ensures r.Err? && !Forest(Context(2, ALWAYS_ONE), miner.easiness, miner.graph[..])
  {
    hide Forest, Repeats, State;
    Pow2Is4();
    miner := new Miner(100, 2, 2);
    r := miner.Mine(ALWAYS_ONE);
    ghost var c := Context(2, ALWAYS_ONE);
    ghost var k: nat :| miner.StoppedAt(c, k, r);
    assert miner.easiness == 4 && miner.proofSize == 2;
    if r.error == NoSolution { ConstantHashRepeats(c, k); } else { assert r == Err(Error.Path); }
    LostIsNoForest(miner, c, k);
  }

  lemma LostIsNoForest(miner: Miner, c: Cuckoo, k: nat)
    requires miner.Recorded(c, k) && miner.Lost(c, k)
    ensures forall n: nat :: !Forest(c, n, miner.graph[..])
  {
    forall n: nat ensures !Forest(c, n, miner.graph[..]) {
      TwoCycleIsNoForest(c, n, miner.graph[..]);
    }
  }

  lemma Pow2Is4()
    ensures Pow2(2) == 4
  {
    assert Pow2(1) == 2;
  }

  /** With `p[m]` taken as a root, reversing the rest of the trail gives `target`. */
  ghost predicate Hanging(g: seq<nat>, p: seq<nat>, m: nat, target: seq<nat>) {
    && m < |p| && p[m] < |g|
    && IsTrail(g[p[m] := 0], p[..m + 1]) && Reroot(g[p[m] := 0], p[..m + 1]) == target
  }

  lemma HangStarts(g: seq<nat>, p: seq<nat>)
    requires IsTrail(g, p)
    ensures Hanging(g, p, |p| - 1, Reroot(g, p))
  {
    assert g[p[|p| - 1] := 0] == g;
    assert p[..|p|] == p;
  }

  /** One step of the reversal loop moves the root of the unfinished tree one node down. */
  lemma HangStep(g: seq<nat>, p: seq<nat>, m: nat, target: seq<nat>)
    requires m > 0 && Hanging(g, p, m, target)
    ensures Hanging(g[p[m] := p[m - 1]], p, m - 1, target)
  {
    var h, r := g[p[m] := 0], p[..m + 1];
    assert p[m - 1] == r[m - 1];
    RerootOnceTrail(h, r);
    assert r[..m] == p[..m];
    assert RerootOnce(h, r) == g[p[m] := p[m - 1]][p[m - 1] := 0];
  }

  lemma HangEnds(g: seq<nat>, p: seq<nat>, target: seq<nat>, w: nat)
    requires Hanging(g, p, 0, target)
    ensures |target| == |g| && g[p[0] := w] == target[p[0] := w]
  {
    assert target == g[p[0] := 0];
  }

  lemma Pow2Fits(sizeshift: nat)
    requires sizeshift <= 32
    ensures Pow2(sizeshift) <= U32_SPAN
  {
    assert Pow2(8) == 0x100;
    assert Pow2(16) == 0x1_0000;
    assert Pow2(24) == 0x100_0000;
    assert Pow2(32) == U32_SPAN;
    Pow2Monotone(sizeshift, 32);
  }

  lemma EasinessFits(ease: nat, sizeshift: nat)
    requires ease <= 100 && 1 <= sizeshift <= 32
    ensures ease * Pow2(sizeshift) / 100 <= U32_SPAN
    ensures ease * Pow2(sizeshift) % U64_SPAN == ease * Pow2(sizeshift)
  {
    Pow2Fits(sizeshift);
    PercentFits(ease, Pow2(sizeshift));
  }

  lemma PercentFits(ease: nat, size: nat)
    requires ease <= 100 && size <= U32_SPAN
    ensures ease * size / 100 <= U32_SPAN
    ensures ease * size % U64_SPAN == ease * size
  {
    PercentAtMost(ease, size);
    SmallQuotient(ease * size, size);
    SmallRemainder(ease * size);
  }

  lemma PercentAtMost(ease: nat, size: nat)
    requires ease <= 100
    ensures 0 <= ease * size <= 100 * size
  {
    assert 100 * size - ease * size == (100 - ease) * size;
  }

  lemma SmallQuotient(x: nat, size: nat)
    requires x <= 100 * size
    ensures x / 100 <= size
  {
  }
}
