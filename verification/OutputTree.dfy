/** Blocks applied to the tree of outputs: inputs are found by an index of commitments that no rewind takes back. */
module OutputTree {
  import opened Wrappers

  type Commitment = nat

  datatype Output = Output(commit: Commitment, switchHash: nat)

  /** A leaf of the tree of outputs; it is live until it is pruned, and then the height of the block that did is logged. */
  datatype Leaf = Leaf(output: Output, spent: Option<nat>)

  /** Where each commitment was created last, counting leaves from 0. */
  type Index = map<Commitment, nat>

  datatype Body = Body(height: nat, inputs: seq<Commitment>, outputs: seq<Output>)

  /** `BeyondFile` stands for reading past the end of the file, which ends the program. */
  datatype Error = MissingIndex | AlreadySpent | BeyondFile | DuplicateCommitment

  predicate Live(leaves: seq<Leaf>, i: nat) {
    i < |leaves| && leaves[i].spent.None?
  }

  /** What a read at place `i` finds: a leaf of the tree or, after a rewind, one that the file still holds there. */
  predicate Found(leaves: seq<Leaf>, file: seq<Leaf>, i: nat) {
    if i < |leaves| then leaves[i].spent.None? else i < |file| && file[i].spent.None?
  }

  /** Pruning passes over places that are not in the tree, and over a leaf that is last, or has only its parent after
      it: the newest of `n` leaves, unless `n` is a multiple of four and the parent has a parent of its own. */
  predicate Removable(i: nat, n: nat) {
    i < n && (i + 1 < n || n % 4 == 0)
  }

  /** The size of a tree of `n` leaves, with a parent on each two nodes of the same level; the next leaf comes after. */
  function TreeSize(n: nat): nat {
    if n == 0 then 0 else n + TreeSize(n / 2)
  }

  /** The parent follows a right leaf at once, and a left leaf after its sibling. */
  function ParentPosition(i: nat): nat {
    TreeSize(i) + 1 + if i % 2 == 0 then 2 else 1
  }

  lemma {:induction false} TreeSizeHalf(m: nat)
    ensures TreeSize(2 * m) == 2 * m + TreeSize(m) && TreeSize(2 * m + 1) == 2 * m + 1 + TreeSize(m)
  {
    assert (2 * m) / 2 == m && (2 * m + 1) / 2 == m;
  }

  lemma {:induction false} TreeSizeGrows(i: nat, n: nat)
    requires i <= n
    ensures TreeSize(i) + (n - i) <= TreeSize(n)
  {
    if i < n {
      TreeSizeGrows(i / 2, n / 2);
    }
  }

  /** What each of four leaves adds to a tree; the fourth completes a tree of its own. */
  lemma {:induction false} FourLeaves(q: nat)
    ensures TreeSize(4 * q + 1) == TreeSize(4 * q) + 1 && TreeSize(4 * q + 2) == TreeSize(4 * q) + 3
    ensures TreeSize(4 * q + 3) == TreeSize(4 * q) + 4 && TreeSize(4 * q + 4) >= TreeSize(4 * q) + 7
  {
    hide TreeSize;
    TreeSizeHalf(2 * q);
    TreeSizeHalf(2 * q + 1);
    TreeSizeHalf(2 * q + 2);
    TreeSizeHalf(q);
    TreeSizeHalf(q + 1);
    TreeSizeGrows(q, q + 1);
  }

  lemma RemainderOf(q: nat, r: nat)
    requires r < 4
    ensures (4 * q + r) % 4 == r && (4 * q + r) % 2 == r % 2
  {
    var n := 4 * q + r;
    assert n == 4 * (n / 4) + n % 4 && n / 4 == q;
    assert n == 2 * (n / 2) + n % 2;
    if r < 2 { assert n / 2 == 2 * q; } else { assert n / 2 == 2 * q + 1; }
  }

  /** Pruning takes out a leaf whose parent is in the tree, unless that parent is the only node after the leaf. */
  lemma {:induction false} RemovableIff(i: nat, n: nat)
    requires i < n
    ensures Removable(i, n) <==> TreeSize(i) + 2 < TreeSize(n) && ParentPosition(i) <= TreeSize(n)
  {
    hide TreeSize;
    var q, r := i / 4, i % 4;
    assert i == 4 * q + r;
    FourLeaves(q);
    RemainderOf(q, r);
    if i + 1 < n {
      TreeSizeGrows(i + 1, n);
      TreeSizeGrows(i + 2, n);
    } else if r < 3 {
      RemainderOf(q, r + 1);
    } else {
      RemainderOf(q + 1, 0);
    }
  }

  function SpentAt(leaf: Leaf, h: nat): Leaf {
    if leaf.spent.None? then leaf.(spent := Some(h)) else leaf
  }

  function Pruned(leaves: seq<Leaf>, i: nat, h: nat): (r: seq<Leaf>)
    ensures |r| == |leaves|
  {
    if Removable(i, |leaves|) then leaves[i := SpentAt(leaves[i], h)] else leaves
  }

  /** Each input prunes the leaf that its commitment is indexed at, whatever that leaf holds. */
  function SpendAll(leaves: seq<Leaf>, file: seq<Leaf>, index: Index, inputs: seq<Commitment>, h: nat): Result<seq<Leaf>, Error>
    decreases |inputs|
  {
    if inputs == [] then Ok(leaves)
    else if inputs[0] !in index then Err(MissingIndex)
    else if index[inputs[0]] >= |leaves| && index[inputs[0]] >= |file| then Err(BeyondFile)
    else if !Found(leaves, file, index[inputs[0]]) then Err(AlreadySpent)
    else SpendAll(Pruned(leaves, index[inputs[0]], h), file, index, inputs[1..], h)
  }

  /** The output is indexed at a live leaf, one of the first `bound`, that holds the very same output. */
  predicate IsDuplicate(leaves: seq<Leaf>, index: Index, bound: nat, o: Output) {
    o.commit in index && index[o.commit] < bound && Live(leaves, index[o.commit]) && leaves[index[o.commit]].output == o
  }

  function PushAll(leaves: seq<Leaf>, index: Index, bound: nat, outputs: seq<Output>): Result<seq<Leaf>, Error>
    decreases |outputs|
  {
    if outputs == [] then Ok(leaves)
    else if IsDuplicate(leaves, index, bound, outputs[0]) then Err(DuplicateCommitment)
    else PushAll(leaves + [Leaf(outputs[0], None)], index, bound, outputs[1..])
  }

  function Applied(leaves: seq<Leaf>, file: seq<Leaf>, index: Index, b: Body): Result<seq<Leaf>, Error> {
    var spent := SpendAll(leaves, file, index, b.inputs, b.height);
    if spent.Err? then spent else PushAll(spent.value, index, |spent.value|, b.outputs)
  }

  /** The index with the outputs pushed from leaf number `start` on; the last one of a commitment counts. */
  function Created(index: Index, start: nat, outputs: seq<Output>): Index {
    if outputs == [] then index
    else
      var n := |outputs| - 1;
      Created(index, start, outputs[..n])[outputs[n].commit := start + n]
  }

  // ---------------------------------------------------------------- what an application comes to

  /** The leaves with those at the given places pruned. */
  function Without(leaves: seq<Leaf>, places: set<nat>, h: nat): (r: seq<Leaf>)
    ensures |r| == |leaves|
    ensures forall i :: 0 <= i < |leaves| ==>
      r[i] == if i in places && Removable(i, |leaves|) then SpentAt(leaves[i], h) else leaves[i]
  {
    seq(|leaves|, i requires 0 <= i < |leaves| =>
      if i in places && Removable(i, |leaves|) then SpentAt(leaves[i], h) else leaves[i])
  }

  function Places(index: Index, inputs: seq<Commitment>): set<nat> {
    set c | c in inputs && c in index :: index[c]
  }

  /** Every input is indexed at a live leaf, and no two at the same one that can be pruned. */
  predicate IndexedLive(leaves: seq<Leaf>, file: seq<Leaf>, index: Index, inputs: seq<Commitment>) {
    && (forall k :: 0 <= k < |inputs| ==> inputs[k] in index && Found(leaves, file, index[inputs[k]]))
    && (forall k, m :: 0 <= k < m < |inputs| && Removable(index[inputs[k]], |leaves|) ==> index[inputs[k]] != index[inputs[m]])
  }

  /** Inputs are spent if and only if all are indexed at live leaves, and then just those leaves are pruned. */
  lemma {:induction false} SpendAllIff(leaves: seq<Leaf>, file: seq<Leaf>, index: Index, inputs: seq<Commitment>, h: nat)
    ensures SpendAll(leaves, file, index, inputs, h).Ok? <==> IndexedLive(leaves, file, index, inputs)
    ensures SpendAll(leaves, file, index, inputs, h).Ok? ==>
      SpendAll(leaves, file, index, inputs, h).value == Without(leaves, Places(index, inputs), h)
    decreases |inputs|
  {
    if inputs == [] {
      assert Without(leaves, {}, h) == leaves;
      assert Places(index, inputs) == {};
    } else if inputs[0] in index && Found(leaves, file, index[inputs[0]]) {
      var p, rest := index[inputs[0]], inputs[1..];
      var next := Pruned(leaves, p, h);
      assert inputs == [inputs[0]] + rest;
      SpendAllIff(next, file, index, rest, h);
      FirstIsLive(leaves, file, index, inputs, h);
      assert Places(index, inputs) == {p} + Places(index, rest);
      if IndexedLive(leaves, file, index, inputs) {
        assert Without(next, Places(index, rest), h) == Without(leaves, Places(index, inputs), h);
      }
    }
  }

  lemma FirstIsLive(leaves: seq<Leaf>, file: seq<Leaf>, index: Index, inputs: seq<Commitment>, h: nat)
    requires inputs != [] && inputs[0] in index && Found(leaves, file, index[inputs[0]])
    ensures IndexedLive(leaves, file, index, inputs) <==> IndexedLive(Pruned(leaves, index[inputs[0]], h), file, index, inputs[1..])
  {
    var p, rest := index[inputs[0]], inputs[1..];
    var next := Pruned(leaves, p, h);
    if IndexedLive(next, file, index, rest) {
      forall k, m | 0 <= k < m < |inputs| && Removable(index[inputs[k]], |leaves|)
        ensures index[inputs[k]] != index[inputs[m]]
      {
        assert inputs[m] == rest[m - 1];
        if k > 0 { assert inputs[k] == rest[k - 1]; }
      }
      forall k | 0 <= k < |inputs|
        ensures inputs[k] in index && Found(leaves, file, index[inputs[k]])
      {
        if k > 0 { assert inputs[k] == rest[k - 1]; }
      }
    }
    if IndexedLive(leaves, file, index, inputs) {
      forall k | 0 <= k < |rest|
        ensures rest[k] in index && Found(next, file, index[rest[k]])
      {
        assert rest[k] == inputs[k + 1];
      }
    }
  }

  /** An input is refused for its index, for what is found there, or because nothing can be read there. */
  predicate Unspendable(leaves: seq<Leaf>, file: seq<Leaf>, index: Index, c: Commitment, e: Error) {
    match e
    case MissingIndex => c !in index
    case BeyondFile => c in index && index[c] >= |leaves| && index[c] >= |file|
    case AlreadySpent => c in index && (index[c] < |leaves| || index[c] < |file|) && !Found(leaves, file, index[c])
    case DuplicateCommitment => false
  }

  /** When spending fails, it is for the first input that cannot be spent after those before it. */
  lemma {:induction false} SpendAllFails(leaves: seq<Leaf>, file: seq<Leaf>, index: Index, inputs: seq<Commitment>, h: nat)
    returns (k: nat, l: seq<Leaf>)
    requires SpendAll(leaves, file, index, inputs, h).Err?
    ensures k < |inputs| && SpendAll(leaves, file, index, inputs[..k], h) == Ok(l)
    ensures Unspendable(l, file, index, inputs[k], SpendAll(leaves, file, index, inputs, h).error)
    decreases |inputs|
  {
    var c := inputs[0];
    if c !in index || (index[c] >= |leaves| && index[c] >= |file|) || !Found(leaves, file, index[c]) {
      k, l := 0, leaves;
    } else {
      var j: nat;
      j, l := SpendAllFails(Pruned(leaves, index[c], h), file, index, inputs[1..], h);
      k := j + 1;
      assert inputs[..k][1..] == inputs[1..][..j];
    }
  }

  function Unspent(outputs: seq<Output>): (r: seq<Leaf>)
    ensures |r| == |outputs| && forall k :: 0 <= k < |r| ==> r[k] == Leaf(outputs[k], None)
  {
    seq(|outputs|, k requires 0 <= k < |outputs| => Leaf(outputs[k], None))
  }

  /** Pushing leaves the leaves before as they are, and with them what counts as a duplicate. */
  lemma DuplicateStays(leaves: seq<Leaf>, index: Index, bound: nat, pushed: Leaf, o: Output)
    requires bound <= |leaves|
    ensures IsDuplicate(leaves + [pushed], index, bound, o) <==> IsDuplicate(leaves, index, bound, o)
  {
  }

  /** Outputs are pushed if and only if none of them is a duplicate of an earlier leaf. */
  lemma {:induction false} PushAllIff(leaves: seq<Leaf>, index: Index, bound: nat, outputs: seq<Output>)
    requires bound <= |leaves|
    ensures PushAll(leaves, index, bound, outputs).Ok? <==> forall o :: o in outputs ==> !IsDuplicate(leaves, index, bound, o)
    ensures PushAll(leaves, index, bound, outputs).Ok? ==>
      PushAll(leaves, index, bound, outputs).value == leaves + Unspent(outputs)
    decreases |outputs|
  {
    hide IsDuplicate;
    if outputs == [] {
      assert leaves + Unspent(outputs) == leaves;
    } else {
      var pushed, rest := Leaf(outputs[0], None), outputs[1..];
      PushAllIff(leaves + [pushed], index, bound, rest);
      forall o
        ensures IsDuplicate(leaves + [pushed], index, bound, o) <==> IsDuplicate(leaves, index, bound, o)
      {
        DuplicateStays(leaves, index, bound, pushed, o);
      }
      assert forall o :: o in outputs <==> o == outputs[0] || o in rest;
      assert leaves + Unspent(outputs) == leaves + [pushed] + Unspent(rest);
    }
  }

  /** The last output with the commitment. */
  function LastOf(outputs: seq<Output>, c: Commitment): (r: Option<nat>)
    ensures r.Some? ==> r.value < |outputs| && outputs[r.value].commit == c
    ensures r.Some? ==> forall k :: r.value < k < |outputs| ==> outputs[k].commit != c
    ensures r.None? ==> forall k :: 0 <= k < |outputs| ==> outputs[k].commit != c
  {
    if outputs == [] then None
    else if outputs[|outputs| - 1].commit == c then Some(|outputs| - 1)
    else LastOf(outputs[..|outputs| - 1], c)
  }

  /** A commitment is indexed at its last output, or where it was before. */
  lemma {:induction false} CreatedAt(index: Index, start: nat, outputs: seq<Output>, c: Commitment)
    ensures var k := LastOf(outputs, c);
      if k.Some? then c in Created(index, start, outputs) && Created(index, start, outputs)[c] == start + k.value
      else (c in Created(index, start, outputs) <==> c in index) && (c in index ==> Created(index, start, outputs)[c] == index[c])
  {
    if outputs != [] {
      CreatedAt(index, start, outputs[..|outputs| - 1], c);
    }
  }
}
