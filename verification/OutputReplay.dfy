/** Replaying blocks by an index made elsewhere, and the index that the blocks on the head leave. */
module OutputReplay {
  import opened Wrappers
  import opened OutputTree

  predicate Holds(leaves: seq<Leaf>, i: nat, c: Commitment) {
    Live(leaves, i) && leaves[i].output.commit == c
  }

  ghost predicate Held(leaves: seq<Leaf>, c: Commitment) {
    exists i: nat :: Holds(leaves, i, c)
  }

  /** The leaves after a block spent what it names, wherever it is. */
  function OwnSpent(leaves: seq<Leaf>, inputs: seq<Commitment>, h: nat): (r: seq<Leaf>)
    ensures |r| == |leaves|
    ensures forall i :: 0 <= i < |leaves| ==>
      r[i] == if leaves[i].output.commit in inputs && Removable(i, |leaves|) then SpentAt(leaves[i], h) else leaves[i]
  {
    seq(|leaves|, i requires 0 <= i < |leaves| =>
      if leaves[i].output.commit in inputs && Removable(i, |leaves|) then SpentAt(leaves[i], h) else leaves[i])
  }

  function OwnApplied(leaves: seq<Leaf>, b: Body): seq<Leaf> {
    OwnSpent(leaves, b.inputs, b.height) + Unspent(b.outputs)
  }

  /** Of the live leaves that can be pruned, the inputs are indexed at those that hold their commitments. */
  predicate RightlyIndexed(leaves: seq<Leaf>, file: seq<Leaf>, index: Index, inputs: seq<Commitment>) {
    && IndexedLive(leaves, file, index, inputs)
    && forall i: nat :: i < |leaves| ==> Live(leaves, i) && Removable(i, |leaves|) ==>
      (i in Places(index, inputs) <==> leaves[i].output.commit in inputs)
  }

  /** Spending by an index spends what the block names if and only if the index is right about it. */
  lemma SpentRightIff(leaves: seq<Leaf>, file: seq<Leaf>, index: Index, inputs: seq<Commitment>, h: nat)
    ensures SpendAll(leaves, file, index, inputs, h) == Ok(OwnSpent(leaves, inputs, h)) <==> RightlyIndexed(leaves, file, index, inputs)
  {
    SpendAllIff(leaves, file, index, inputs, h);
    var own, byIndex := OwnSpent(leaves, inputs, h), Without(leaves, Places(index, inputs), h);
    if RightlyIndexed(leaves, file, index, inputs) {
      assert own == byIndex;
    } else if IndexedLive(leaves, file, index, inputs) {
      var i: nat :| i < |leaves| && Live(leaves, i) && Removable(i, |leaves|) &&
        !(i in Places(index, inputs) <==> leaves[i].output.commit in inputs);
      assert own[i] != byIndex[i];
    }
  }

  /** No output has the commitment of a live leaf. */
  ghost predicate AllNew(leaves: seq<Leaf>, outputs: seq<Output>) {
    forall o :: o in outputs ==> !Held(leaves, o.commit)
  }

  /** A block whose outputs are new has its own effect if and only if the index is right about its inputs. */
  lemma AppliedRightIff(leaves: seq<Leaf>, file: seq<Leaf>, index: Index, b: Body)
    requires AllNew(OwnSpent(leaves, b.inputs, b.height), b.outputs)
    ensures Applied(leaves, file, index, b) == Ok(OwnApplied(leaves, b)) <==> RightlyIndexed(leaves, file, index, b.inputs)
  {
    hide RightlyIndexed;
    SpentRightIff(leaves, file, index, b.inputs, b.height);
    SpendAllIff(leaves, file, index, b.inputs, b.height);
    var own, spent := OwnSpent(leaves, b.inputs, b.height), SpendAll(leaves, file, index, b.inputs, b.height);
    if spent.Ok? {
      PushAllIff(spent.value, index, |spent.value|, b.outputs);
      assert (own + Unspent(b.outputs))[..|own|] == own;
      assert (spent.value + Unspent(b.outputs))[..|own|] == spent.value;
      if spent.value == own {
        forall o | o in b.outputs
          ensures !IsDuplicate(own, index, |own|, o)
        {
          assert IsDuplicate(own, index, |own|, o) ==> Holds(own, index[o.commit], o.commit);
        }
      }
    }
  }

  /** Blocks in order, all by the index of the start: an extension enters its own outputs only when it is kept. */
  function Replayed(leaves: seq<Leaf>, file: seq<Leaf>, index: Index, blocks: seq<Body>): Result<seq<Leaf>, Error> {
    if blocks == [] then Ok(leaves)
    else
      var n := |blocks| - 1;
      var before := Replayed(leaves, file, index, blocks[..n]);
      if before.Err? then before else Applied(before.value, file, index, blocks[n])
  }

  function OwnReplayed(leaves: seq<Leaf>, blocks: seq<Body>): seq<Leaf> {
    if blocks == [] then leaves
    else OwnApplied(OwnReplayed(leaves, blocks[..|blocks| - 1]), blocks[|blocks| - 1])
  }

  /** The outputs of each block are new when it comes. */
  ghost predicate Lawful(leaves: seq<Leaf>, blocks: seq<Body>) {
    forall j: nat :: j < |blocks| ==> LawfulAt(leaves, blocks, j)
  }

  ghost predicate LawfulAt(leaves: seq<Leaf>, blocks: seq<Body>, j: nat)
    requires j < |blocks|
  {
    AllNew(OwnSpent(OwnReplayed(leaves, blocks[..j]), blocks[j].inputs, blocks[j].height), blocks[j].outputs)
  }

  predicate RightAt(leaves: seq<Leaf>, file: seq<Leaf>, index: Index, blocks: seq<Body>, j: nat)
    requires j < |blocks|
  {
    RightlyIndexed(OwnReplayed(leaves, blocks[..j]), file, index, blocks[j].inputs)
  }

  /** The first `j` blocks have their own effect. */
  predicate FaithfulTo(leaves: seq<Leaf>, file: seq<Leaf>, index: Index, blocks: seq<Body>, j: nat)
    requires j <= |blocks|
  {
    Replayed(leaves, file, index, blocks[..j]) == Ok(OwnReplayed(leaves, blocks[..j]))
  }

  /** A replay does at every block what the fork itself did if and only if the index is right about the inputs of each. */
  lemma {:induction false} ReplayRightIff(leaves: seq<Leaf>, file: seq<Leaf>, index: Index, blocks: seq<Body>, n: nat)
    requires Lawful(leaves, blocks) && n <= |blocks|
    ensures (forall j: nat :: j <= n ==> FaithfulTo(leaves, file, index, blocks, j)) <==>
            (forall j: nat :: j < n ==> RightAt(leaves, file, index, blocks, j))
  {
    hide RightlyIndexed, Applied, OwnApplied, AllNew;
    assert FaithfulTo(leaves, file, index, blocks, 0);
    if n > 0 {
      ReplayRightIff(leaves, file, index, blocks, n - 1);
      assert blocks[..n][..n - 1] == blocks[..n - 1];
      assert LawfulAt(leaves, blocks, n - 1);
      AppliedRightIff(OwnReplayed(leaves, blocks[..n - 1]), file, index, blocks[n - 1]);
      if forall j: nat :: j < n ==> RightAt(leaves, file, index, blocks, j) {
        assert RightAt(leaves, file, index, blocks, n - 1);
        assert FaithfulTo(leaves, file, index, blocks, n - 1);
        assert FaithfulTo(leaves, file, index, blocks, n);
      }
      if forall j: nat :: j <= n ==> FaithfulTo(leaves, file, index, blocks, j) {
        assert FaithfulTo(leaves, file, index, blocks, n) && FaithfulTo(leaves, file, index, blocks, n - 1);
        assert RightAt(leaves, file, index, blocks, n - 1);
      }
    }
  }

  /** A single input is spent where it is if and only if it is indexed there. */
  lemma OneInputIff(leaves: seq<Leaf>, file: seq<Leaf>, index: Index, c: Commitment, i: nat, h: nat)
    requires Holds(leaves, i, c) && Removable(i, |leaves|)
    requires forall j: nat :: Holds(leaves, j, c) ==> j == i
    ensures SpendAll(leaves, file, index, [c], h) == Ok(OwnSpent(leaves, [c], h)) <==> IndexedAt(index, c, i)
  {
    SpentRightIff(leaves, file, index, [c], h);
    assert Places(index, [c]) == if c in index then {index[c]} else {};
    forall j: nat | j < |leaves| && Live(leaves, j)
      ensures leaves[j].output.commit in [c] <==> j == i
    {
      assert leaves[j].output.commit == c ==> Holds(leaves, j, c);
    }
  }

  // ---------------------------------------------------------------- when the index is right

  /** Commitments are indexed at leaves that hold them, and those of live leaves at those leaves. */
  predicate Exact(leaves: seq<Leaf>, index: Index) {
    && (forall c :: c in index ==> index[c] < |leaves| && leaves[index[c]].output.commit == c)
    && (forall i: nat :: i < |leaves| && leaves[i].spent.None? ==> IndexedAt(index, leaves[i].output.commit, i))
  }

  predicate IndexedAt(index: Index, c: Commitment, i: nat) {
    c in index && index[c] == i
  }

  /** Every commitment is that of a live leaf, and none that can be pruned comes twice. */
  ghost predicate Spendable(leaves: seq<Leaf>, inputs: seq<Commitment>) {
    && (forall k :: 0 <= k < |inputs| ==> Held(leaves, inputs[k]))
    && (forall i: nat, k, m :: 0 <= k < m < |inputs| && Holds(leaves, i, inputs[k]) && Removable(i, |leaves|) ==> inputs[k] != inputs[m])
  }

  lemma ExactHolds(leaves: seq<Leaf>, index: Index, c: Commitment, i: nat)
    requires Exact(leaves, index)
    ensures Holds(leaves, i, c) <==> Live(leaves, i) && IndexedAt(index, c, i)
    ensures c in index ==> index[c] < |leaves|
  {
  }

  /** By an exact index, the inputs are spent if and only if they are spendable, and those are spent that the block names. */
  lemma ExactSpends(leaves: seq<Leaf>, file: seq<Leaf>, index: Index, inputs: seq<Commitment>)
    requires Exact(leaves, index)
    ensures IndexedLive(leaves, file, index, inputs) <==> Spendable(leaves, inputs)
    ensures Spendable(leaves, inputs) ==> RightlyIndexed(leaves, file, index, inputs)
  {
    hide Exact, Holds, Removable;
    forall i: nat, c
      ensures (Holds(leaves, i, c) <==> Live(leaves, i) && IndexedAt(index, c, i)) && (c in index ==> index[c] < |leaves|)
    {
      ExactHolds(leaves, index, c, i);
    }
    if IndexedLive(leaves, file, index, inputs) {
      forall k | 0 <= k < |inputs|
        ensures Held(leaves, inputs[k])
      {
        assert Holds(leaves, index[inputs[k]], inputs[k]);
      }
    }
    if Spendable(leaves, inputs) {
      forall k | 0 <= k < |inputs|
        ensures inputs[k] in index && Holds(leaves, index[inputs[k]], inputs[k])
      {
        assert Held(leaves, inputs[k]);
      }
      forall k, m | 0 <= k < m < |inputs| && Removable(index[inputs[k]], |leaves|)
        ensures index[inputs[k]] != index[inputs[m]]
      {
        if index[inputs[k]] == index[inputs[m]] {
          SameLeaf(leaves, index[inputs[k]], inputs[k], inputs[m]);
        }
      }
      PlacesAreOwn(leaves, index, inputs);
    }
  }

  lemma SameLeaf(leaves: seq<Leaf>, i: nat, c: Commitment, d: Commitment)
    requires Holds(leaves, i, c) && Holds(leaves, i, d)
    ensures c == d
  {
  }

  lemma PlacesAreOwn(leaves: seq<Leaf>, index: Index, inputs: seq<Commitment>)
    requires Exact(leaves, index) && forall k :: 0 <= k < |inputs| ==> inputs[k] in index
    ensures forall i: nat :: Live(leaves, i) ==> (i in Places(index, inputs) <==> leaves[i].output.commit in inputs)
  {
    forall i: nat | Live(leaves, i)
      ensures i in Places(index, inputs) <==> leaves[i].output.commit in inputs
    {
      assert IndexedAt(index, leaves[i].output.commit, i);
    }
  }

  /** With an exact index a block applies if and only if its inputs are spendable and none of its outputs is live
      already, and then it has its own effect. */
  lemma ExactApplies(leaves: seq<Leaf>, file: seq<Leaf>, index: Index, b: Body)
    requires Exact(leaves, index)
    ensures var kept := OwnSpent(leaves, b.inputs, b.height);
      Applied(leaves, file, index, b).Ok? <==>
      Spendable(leaves, b.inputs) && forall o :: o in b.outputs ==> Leaf(o, None) !in kept
    ensures Applied(leaves, file, index, b).Ok? ==> Applied(leaves, file, index, b).value == OwnApplied(leaves, b)
  {
    hide RightlyIndexed, Spendable, IndexedLive;
    var kept := OwnSpent(leaves, b.inputs, b.height);
    ExactSpends(leaves, file, index, b.inputs);
    SpentRightIff(leaves, file, index, b.inputs, b.height);
    SpendAllIff(leaves, file, index, b.inputs, b.height);
    PushAllIff(kept, index, |kept|, b.outputs);
    forall o | o in b.outputs
      ensures IsDuplicate(kept, index, |kept|, o) <==> Leaf(o, None) in kept
    {
      if Leaf(o, None) in kept {
        var i: nat :| i < |kept| && kept[i] == Leaf(o, None);
        assert IndexedAt(index, leaves[i].output.commit, i);
      }
    }
  }

  /** The block creates no commitment twice, and none that a live leaf holds. */
  ghost predicate Fresh(leaves: seq<Leaf>, outputs: seq<Output>) {
    && AllNew(leaves, outputs)
    && forall k, m :: 0 <= k < m < |outputs| ==> outputs[k].commit != outputs[m].commit
  }

  /** Keeping the extension keeps the index exact if and only if the outputs are fresh: with another switch hash,
      the commitment of a live leaf is no duplicate. */
  lemma ExtensionExactIff(leaves: seq<Leaf>, index: Index, b: Body)
    requires Exact(leaves, index)
    ensures Exact(OwnApplied(leaves, b), Created(index, |leaves|, b.outputs)) <==> Fresh(OwnSpent(leaves, b.inputs, b.height), b.outputs)
  {
    var kept, created := OwnSpent(leaves, b.inputs, b.height), Created(index, |leaves|, b.outputs);
    if Exact(OwnApplied(leaves, b), created) {
      ExactIsFresh(kept, created, b.outputs);
    }
    if Fresh(kept, b.outputs) {
      FreshIsExact(leaves, index, b);
    }
  }

  lemma ExactIsFresh(kept: seq<Leaf>, created: Index, outputs: seq<Output>)
    requires Exact(kept + Unspent(outputs), created)
    ensures Fresh(kept, outputs)
  {
    var after := kept + Unspent(outputs);
    forall k | 0 <= k < |outputs|
      ensures IndexedAt(created, outputs[k].commit, |kept| + k)
    {
      assert after[|kept| + k] == Leaf(outputs[k], None);
    }
    forall o | o in outputs
      ensures !Held(kept, o.commit)
    {
      var k :| 0 <= k < |outputs| && outputs[k] == o;
      forall i: nat
        ensures !Holds(kept, i, o.commit)
      {
        assert Holds(kept, i, o.commit) ==> after[i] == kept[i] && IndexedAt(created, o.commit, i);
      }
    }
  }

  /** Whatever the outputs, commitments stay indexed at leaves that hold them. */
  lemma IndexedAreThere(leaves: seq<Leaf>, index: Index, b: Body)
    requires Exact(leaves, index)
    ensures forall c :: c in Created(index, |leaves|, b.outputs) ==>
      var i := Created(index, |leaves|, b.outputs)[c];
      i < |OwnApplied(leaves, b)| && OwnApplied(leaves, b)[i].output.commit == c
  {
    forall c | c in Created(index, |leaves|, b.outputs)
      ensures var i := Created(index, |leaves|, b.outputs)[c];
        i < |OwnApplied(leaves, b)| && OwnApplied(leaves, b)[i].output.commit == c
    {
      CreatedAt(index, |leaves|, b.outputs, c);
    }
  }

  lemma FreshIsExact(leaves: seq<Leaf>, index: Index, b: Body)
    requires Exact(leaves, index) && Fresh(OwnSpent(leaves, b.inputs, b.height), b.outputs)
    ensures Exact(OwnApplied(leaves, b), Created(index, |leaves|, b.outputs))
  {
    hide Created;
    var kept, created := OwnSpent(leaves, b.inputs, b.height), Created(index, |leaves|, b.outputs);
    var after := OwnApplied(leaves, b);
    IndexedAreThere(leaves, index, b);
    forall i: nat | i < |after| && after[i].spent.None?
      ensures IndexedAt(created, after[i].output.commit, i)
    {
      var c := after[i].output.commit;
      CreatedAt(index, |leaves|, b.outputs, c);
      if i < |kept| {
        assert Holds(kept, i, c) && Held(kept, c);
        assert IndexedAt(index, c, i);
      } else {
        assert after[i] == Leaf(b.outputs[i - |kept|], None);
      }
    }
  }

  /** Blocks in order on the head, each kept before the next one comes. */
  function Extended(leaves: seq<Leaf>, index: Index, blocks: seq<Body>): Result<(seq<Leaf>, Index), Error> {
    if blocks == [] then Ok((leaves, index))
    else
      var b := blocks[|blocks| - 1];
      var before := Extended(leaves, index, blocks[..|blocks| - 1]);
      if before.Err? then before
      else
        var applied := Applied(before.value.0, before.value.0, before.value.1, b);
        if applied.Err? then Err(applied.error)
        else Ok((applied.value, Created(before.value.1, |before.value.0|, b.outputs)))
  }

  ghost predicate FreshAt(leaves: seq<Leaf>, blocks: seq<Body>, j: nat)
    requires j < |blocks|
  {
    Fresh(OwnSpent(OwnReplayed(leaves, blocks[..j]), blocks[j].inputs, blocks[j].height), blocks[j].outputs)
  }

  ghost predicate SpendableAt(leaves: seq<Leaf>, blocks: seq<Body>, j: nat)
    requires j < |blocks|
  {
    Spendable(OwnReplayed(leaves, blocks[..j]), blocks[j].inputs)
  }

  /** As long as no fork is kept, the index stays exact, and blocks with fresh outputs apply if and only if their
      inputs are spendable, each with its own effect. */
  lemma {:induction false} HeadRunIsExact(leaves: seq<Leaf>, index: Index, blocks: seq<Body>)
    requires Exact(leaves, index) && forall j: nat :: j < |blocks| ==> FreshAt(leaves, blocks, j)
    ensures var r := Extended(leaves, index, blocks);
      && (r.Ok? <==> forall j: nat :: j < |blocks| ==> SpendableAt(leaves, blocks, j))
      && (r.Ok? ==> r.value.0 == OwnReplayed(leaves, blocks) && Exact(r.value.0, r.value.1))
  {
    hide Exact, Fresh, Spendable, Applied, OwnApplied, OwnSpent;
    if blocks != [] {
      var n := |blocks| - 1;
      var init, b := blocks[..n], blocks[n];
      forall j: nat | j < n
        ensures (FreshAt(leaves, blocks, j) <==> FreshAt(leaves, init, j)) && (SpendableAt(leaves, blocks, j) <==> SpendableAt(leaves, init, j))
      {
        assert blocks[..j] == init[..j];
      }
      HeadRunIsExact(leaves, index, init);
      var before := Extended(leaves, index, init);
      if before.Ok? {
        assert FreshAt(leaves, blocks, n);
        ExactApplies(before.value.0, before.value.0, before.value.1, b);
        FreshIsNoDuplicate(OwnSpent(before.value.0, b.inputs, b.height), b.outputs);
        ExtensionExactIff(before.value.0, before.value.1, b);
        assert SpendableAt(leaves, blocks, n) <==> Spendable(before.value.0, b.inputs);
      } else {
        var j: nat :| j < n && !SpendableAt(leaves, init, j);
        assert !SpendableAt(leaves, blocks, j);
      }
    }
  }

  lemma FreshIsNoDuplicate(leaves: seq<Leaf>, outputs: seq<Output>)
    requires Fresh(leaves, outputs)
    ensures forall o :: o in outputs ==> Leaf(o, None) !in leaves
  {
    forall o | o in outputs
      ensures Leaf(o, None) !in leaves
    {
      assert forall i: nat :: i < |leaves| && leaves[i] == Leaf(o, None) ==> Holds(leaves, i, o.commit);
    }
  }
}
