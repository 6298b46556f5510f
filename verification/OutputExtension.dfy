/** The unit of work that extends the tree of outputs by blocks, or by a fork and a block. */
module OutputExtension {
  import opened Wrappers
  import opened OutputTree
  import opened OutputReplay

  /** The index with all outputs of the blocks, pushed from leaf number `start` on. */
  function CreatedBy(index: Index, start: nat, blocks: seq<Body>): Index {
    if blocks == [] then index
    else
      var n := |blocks| - 1;
      Created(CreatedBy(index, start, blocks[..n]), start + OutputCount(blocks[..n]), blocks[n].outputs)
  }

  function OutputCount(blocks: seq<Body>): nat {
    if blocks == [] then 0 else OutputCount(blocks[..|blocks| - 1]) + |blocks[|blocks| - 1].outputs|
  }

  lemma {:induction false} CreatedOver(index: Index, entered: Index, start: nat, outputs: seq<Output>)
    ensures index + Created(entered, start, outputs) == Created(index + entered, start, outputs)
  {
    if outputs != [] {
      CreatedOver(index, entered, start, outputs[..|outputs| - 1]);
    }
  }

  /** Saving the new positions over the index comes to entering them one by one. */
  lemma {:induction false} CreatedByOver(index: Index, start: nat, blocks: seq<Body>)
    ensures index + CreatedBy(map[], start, blocks) == CreatedBy(index, start, blocks)
  {
    if blocks == [] {
      assert index + map[] == index;
    } else {
      var n := |blocks| - 1;
      CreatedByOver(index, start, blocks[..n]);
      CreatedOver(index, CreatedBy(map[], start, blocks[..n]), start + OutputCount(blocks[..n]), blocks[n].outputs);
    }
  }

  /** Blocks on their way into the tree; the shared index is only read. */
  class Extension {
    const index: Index
    const file: seq<Leaf>
    var leaves: seq<Leaf>
    var newOutputs: Index

    constructor (leaves: seq<Leaf>, file: seq<Leaf>, index: Index)
      ensures this.leaves == leaves && this.file == file && this.index == index && newOutputs == map[]
    {
      this.leaves, this.file, this.index := leaves, file, index;
      newOutputs := map[];
    }

    /** Inputs first, so that a block cannot spend its own outputs. */
    method ApplyBlock(b: Body) returns (r: Option<Error>)
      modifies this
      ensures r == match Applied(old(leaves), file, index, b) case Ok(_) => None case Err(e) => Some(e)
      ensures r.None? ==> leaves == Applied(old(leaves), file, index, b).value
      ensures r.None? ==> newOutputs == Created(old(newOutputs), old(|leaves|), b.outputs)
    {
      hide IsDuplicate, Removable;
      for i := 0 to |b.inputs|
        invariant newOutputs == old(newOutputs) && |leaves| == old(|leaves|)
        invariant SpendAll(leaves, file, index, b.inputs[i..], b.height) == SpendAll(old(leaves), file, index, b.inputs, b.height)
      {
        var c := b.inputs[i];
        assert b.inputs[i..][1..] == b.inputs[i + 1..];
        if c !in index {
          return Some(MissingIndex);
        }
        if index[c] >= |leaves| && index[c] >= |file| {
          return Some(BeyondFile);
        }
        if !Found(leaves, file, index[c]) {
          return Some(AlreadySpent);
        }
        leaves := Pruned(leaves, index[c], b.height);
      }
      var maxIndex := |leaves|;
      for i := 0 to |b.outputs|
        invariant |leaves| == maxIndex + i
        invariant PushAll(leaves, index, maxIndex, b.outputs[i..]) == Applied(old(leaves), file, index, b)
        invariant newOutputs == Created(old(newOutputs), maxIndex, b.outputs[..i])
      {
        var o := b.outputs[i];
        assert b.outputs[i..][1..] == b.outputs[i + 1..];
        assert b.outputs[..i + 1][..i] == b.outputs[..i];
        if IsDuplicate(leaves, index, maxIndex, o) {
          return Some(DuplicateCommitment);
        }
        newOutputs := newOutputs[o.commit := |leaves|];
        leaves := leaves + [Leaf(o, None)];
      }
      assert b.outputs[..|b.outputs|] == b.outputs;
      return None;
    }
  }

  // ---------------------------------------------------------------- rewinding to the block that a fork starts from

  /** The leaves without what blocks from height `h` on have spent, block `h` itself included. */
  function Revived(leaves: seq<Leaf>, h: nat): (r: seq<Leaf>)
    ensures |r| == |leaves|
    ensures forall i :: 0 <= i < |leaves| ==>
      r[i] == if leaves[i].spent.Some? && leaves[i].spent.value >= h then leaves[i].(spent := None) else leaves[i]
  {
    seq(|leaves|, i requires 0 <= i < |leaves| =>
      if leaves[i].spent.Some? && leaves[i].spent.value >= h then leaves[i].(spent := None) else leaves[i])
  }

  /** Going back takes nothing back if and only if no leaf was spent at that height or above. */
  lemma RevivedSameIff(leaves: seq<Leaf>, h: nat)
    ensures Revived(leaves, h) == leaves <==>
            forall i :: 0 <= i < |leaves| && leaves[i].spent.Some? ==> leaves[i].spent.value < h
  {
    if exists i :: 0 <= i < |leaves| && leaves[i].spent.Some? && leaves[i].spent.value >= h {
      var i :| 0 <= i < |leaves| && leaves[i].spent.Some? && leaves[i].spent.value >= h;
      assert Revived(leaves, h)[i] != leaves[i];
    }
  }

  /** How many leaves a rewind to a block keeps: up to where its last output is indexed, or none without outputs. */
  function KeptLeaves(index: Index, b: Body): Result<nat, Error> {
    if b.outputs == [] then Ok(0)
    else
      var c := b.outputs[|b.outputs| - 1].commit;
      if c in index then Ok(index[c] + 1) else Err(MissingIndex)
  }

  /** Spending at a height, and going back to it, changes nothing; going back to the next height keeps what was spent. */
  lemma {:induction false} SpentIsRevived(leaves: seq<Leaf>, file: seq<Leaf>, index: Index, inputs: seq<Commitment>, h: nat)
    requires SpendAll(leaves, file, index, inputs, h).Ok?
    ensures var l := SpendAll(leaves, file, index, inputs, h).value;
      && |l| == |leaves|
      && Revived(l, h) == Revived(leaves, h)
      && (Revived(leaves, h + 1) == leaves ==> Revived(l, h + 1) == l)
    decreases |inputs|
  {
    if inputs != [] {
      var next := Pruned(leaves, index[inputs[0]], h);
      assert Revived(next, h) == Revived(leaves, h);
      if Revived(leaves, h + 1) == leaves {
        forall i | 0 <= i < |next|
          ensures Revived(next, h + 1)[i] == next[i]
        {
          assert Revived(leaves, h + 1)[i] == leaves[i];
        }
      }
      SpentIsRevived(next, file, index, inputs[1..], h);
    }
  }

  /** A block on the head is undone by going back to its height and its leaves; going back to the block itself, with the
      next height, finds the tree as the block left it. */
  lemma RewindUndoesBlock(leaves: seq<Leaf>, file: seq<Leaf>, index: Index, b: Body)
    requires Applied(leaves, file, index, b).Ok?
    requires forall i :: 0 <= i < |leaves| && leaves[i].spent.Some? ==> leaves[i].spent.value < b.height
    ensures var l := Applied(leaves, file, index, b).value;
      |l| == |leaves| + |b.outputs| && Revived(l, b.height)[..|leaves|] == leaves && Revived(l, b.height + 1) == l
  {
    hide IsDuplicate, SpendAll, PushAll;
    var spent := SpendAll(leaves, file, index, b.inputs, b.height).value;
    SpentIsRevived(leaves, file, index, b.inputs, b.height);
    PushAllIff(spent, index, |spent|, b.outputs);
    RevivedSameIff(leaves, b.height);
    RevivedSameIff(leaves, b.height + 1);
    var l := spent + Unspent(b.outputs);
    forall i | 0 <= i < |l|
      ensures Revived(l, b.height + 1)[i] == l[i]
    {
      if i < |spent| { assert Revived(spent, b.height + 1)[i] == spent[i]; }
    }
    forall i | 0 <= i < |leaves|
      ensures Revived(l, b.height)[i] == leaves[i]
    {
      assert Revived(spent, b.height)[i] == leaves[i];
    }
  }

  /** Right after a block with outputs is kept, a rewind to it keeps just the leaves up to its last one. */
  lemma KeepsUpToBlock(index: Index, start: nat, b: Body)
    requires b.outputs != []
    ensures KeptLeaves(Created(index, start, b.outputs), b) == Ok(start + |b.outputs|)
  {
    CreatedAt(index, start, b.outputs, b.outputs[|b.outputs| - 1].commit);
  }

  function AllOutputs(blocks: seq<Body>): seq<Output> {
    if blocks == [] then [] else AllOutputs(blocks[..|blocks| - 1]) + blocks[|blocks| - 1].outputs
  }

  /** The index of several blocks is that of all their outputs in a row. */
  lemma {:induction false} CreatedByRow(index: Index, start: nat, blocks: seq<Body>)
    ensures OutputCount(blocks) == |AllOutputs(blocks)|
    ensures CreatedBy(index, start, blocks) == Created(index, start, AllOutputs(blocks))
  {
    if blocks != [] {
      var n := |blocks| - 1;
      CreatedByRow(index, start, blocks[..n]);
      CreatedRow(index, start, AllOutputs(blocks[..n]), blocks[n].outputs);
    }
  }

  lemma {:induction false} CreatedRow(index: Index, start: nat, a: seq<Output>, b: seq<Output>)
    ensures Created(index, start, a + b) == Created(Created(index, start, a), start + |a|, b)
  {
    if b == [] {
      assert a + b == a;
    } else {
      assert (a + b)[..|a + b| - 1] == a + b[..|b| - 1];
      CreatedRow(index, start, a, b[..|b| - 1]);
    }
  }

  /** The tree of outputs and the index of its commitments. */
  class SumTrees {
    var leaves: seq<Leaf>
    var index: Index

    constructor ()
      ensures leaves == [] && index == map[]
    {
      leaves, index := [], map[];
    }

    /** The unit of work: on a fork the tree goes back to the block it starts from; then blocks are applied, and the
        outcome is kept unless it fails or is rolled back. What the rewind takes back stays taken back. */
    method Extending(fork: Option<Body>, blocks: seq<Body>, rollback: bool) returns (r: Option<Error>)
      // where the index leads, there is a leaf
      requires fork.Some? && KeptLeaves(index, fork.value).Ok? ==> KeptLeaves(index, fork.value).value <= |leaves|
      modifies this
      ensures fork.Some? && KeptLeaves(old(index), fork.value).Err? ==>
        r == Some(MissingIndex) && leaves == old(leaves) && index == old(index)
      ensures fork.Some? ==> KeptLeaves(old(index), fork.value).Ok? ==>
        var revived := Revived(old(leaves), fork.value.height);
        Extends(revived, revived[..KeptLeaves(old(index), fork.value).value], old(index), blocks, rollback, r)
      ensures fork.None? ==> Extends(old(leaves), old(leaves), old(index), blocks, rollback, r)
      // a fork that is dropped leaves the tree as it was exactly if nothing had been spent from its start on
      ensures fork.Some? && KeptLeaves(old(index), fork.value).Ok? && (rollback || r.Some?) ==>
        (leaves == old(leaves) <==>
         forall i :: 0 <= i < |leaves| && old(leaves[i].spent.Some?) ==> old(leaves[i].spent.value) < fork.value.height)
    {
      var rewound := leaves;
      if fork.Some? {
        var kept := KeptLeaves(index, fork.value);
        if kept.Err? {
          return Some(kept.error);
        }
        RevivedSameIff(leaves, fork.value.height);
        leaves := Revived(leaves, fork.value.height);
        rewound := leaves[..kept.value];
      }
      r := Extend(rewound, blocks, rollback);
    }

    /** The blocks are applied to the rewound leaves, and the outcome is kept if it may be. */
    ghost predicate Extends(was: seq<Leaf>, rewound: seq<Leaf>, positions: Index, blocks: seq<Body>, rollback: bool, r: Option<Error>)
      reads this
    {
      var replayed := Replayed(rewound, was, positions, blocks);
      && r == (match replayed case Ok(_) => None case Err(e) => Some(e))
      && (leaves, index) ==
         if r.None? && !rollback then (replayed.value, CreatedBy(positions, |rewound|, blocks)) else (was, positions)
    }

    method Extend(rewound: seq<Leaf>, blocks: seq<Body>, rollback: bool) returns (r: Option<Error>)
      modifies this
      ensures r == match Replayed(rewound, old(leaves), old(index), blocks) case Ok(_) => None case Err(e) => Some(e)
      ensures (leaves, index) ==
        if r.None? && !rollback then (Replayed(rewound, old(leaves), old(index), blocks).value, CreatedBy(old(index), |rewound|, blocks))
        else (old(leaves), old(index))
    {
      hide Applied, Created;
      var extension := new Extension(rewound, leaves, index);
      for j := 0 to |blocks|
        invariant leaves == old(leaves) && index == old(index) == extension.index && leaves == extension.file && fresh(extension)
        invariant Replayed(rewound, leaves, index, blocks[..j]) == Ok(extension.leaves)
        invariant |extension.leaves| == |rewound| + OutputCount(blocks[..j])
        invariant extension.newOutputs == CreatedBy(map[], |rewound|, blocks[..j])
      {
        assert blocks[..j + 1][..j] == blocks[..j];
        AppliedSize(extension.leaves, leaves, index, blocks[j]);
        r := extension.ApplyBlock(blocks[j]);
        if r.Some? {
          ReplayStopped(rewound, leaves, index, blocks, j + 1);
          return;
        }
      }
      assert blocks[..|blocks|] == blocks;
      if !rollback {
        CreatedByOver(index, |rewound|, blocks);
        leaves := extension.leaves;
        index := index + extension.newOutputs;
      }
      return None;
    }
  }

  lemma AppliedSize(leaves: seq<Leaf>, file: seq<Leaf>, index: Index, b: Body)
    ensures Applied(leaves, file, index, b).Ok? ==> |Applied(leaves, file, index, b).value| == |leaves| + |b.outputs|
  {
    hide IndexedLive, IsDuplicate;
    SpendAllIff(leaves, file, index, b.inputs, b.height);
    var spent := SpendAll(leaves, file, index, b.inputs, b.height);
    if spent.Ok? {
      PushAllIff(spent.value, index, |spent.value|, b.outputs);
    }
  }

  /** A block that does not apply ends the replay. */
  lemma {:induction false} ReplayStopped(leaves: seq<Leaf>, file: seq<Leaf>, index: Index, blocks: seq<Body>, n: nat)
    requires n <= |blocks| && Replayed(leaves, file, index, blocks[..n]).Err?
    ensures Replayed(leaves, file, index, blocks) == Replayed(leaves, file, index, blocks[..n])
    decreases |blocks|
  {
    if n == |blocks| {
      assert blocks[..n] == blocks;
    } else {
      assert blocks[..|blocks| - 1][..n] == blocks[..n];
      ReplayStopped(leaves, file, index, blocks[..|blocks| - 1], n);
    }
  }

  // ---------------------------------------------------------------- a replay that is refused

  const GENESIS: Body := Body(0, [], [])

  const COIN: Output := Output(1, 0)

  /** Two blocks that create two coins and spend them. */
  const OLD_FORK: seq<Body> := [Body(1, [], [COIN, Output(2, 0), Output(3, 0)]), Body(2, [1, 2], [Output(4, 0)])]

  /** A block that creates the first coin in the place of the second. */
  const NEW_FORK: Body := Body(1, [], [Output(5, 0), COIN])

  const NEXT: Body := Body(3, [], [Output(6, 0)])

  /** One more block, in a replay or on the head. */
  lemma OneMore(leaves: seq<Leaf>, file: seq<Leaf>, index: Index, start: nat, blocks: seq<Body>, b: Body)
    ensures Replayed(leaves, file, index, blocks + [b]) ==
            var before := Replayed(leaves, file, index, blocks);
            if before.Err? then before else Applied(before.value, file, index, b)
    ensures Extended(leaves, index, blocks).Ok? ==>
      var s := Extended(leaves, index, blocks).value;
      Applied(s.0, s.0, s.1, b).Ok? ==>
        Extended(leaves, index, blocks + [b]) == Ok((Applied(s.0, s.0, s.1, b).value, Created(s.1, |s.0|, b.outputs)))
    ensures CreatedBy(index, start, blocks + [b]) == Created(CreatedBy(index, start, blocks), start + OutputCount(blocks), b.outputs)
  {
    hide Applied, Created;
    assert (blocks + [b])[..|blocks|] == blocks;
  }

  /** A block without inputs applies to an empty tree by any index. */
  lemma FirstApplies(file: seq<Leaf>, index: Index, b: Body)
    requires b.inputs == []
    ensures Replayed([], file, index, [b]) == Ok(Unspent(b.outputs)) && CreatedBy(index, 0, [b]) == Created(index, 0, b.outputs)
    ensures Extended([], index, [b]) == Ok((Unspent(b.outputs), Created(index, 0, b.outputs)))
  {
    PushAllIff([], index, 0, b.outputs);
    assert [] + Unspent(b.outputs) == Unspent(b.outputs);
    assert Applied([], file, index, b) == Ok(Unspent(b.outputs)) == Applied([], [], index, b);
    OneMore([], file, index, 0, [], b);
    assert [] + [b] == [b];
  }

  /** Where the coins are indexed after the first block of the old fork. */
  lemma FirstIndex(index: Index)
    requires index == Created(map[], 0, OLD_FORK[0].outputs)
    ensures index == map[1 := 0, 2 := 1, 3 := 2]
  {
    var o := OLD_FORK[0].outputs;
    assert o[..2][..1] == o[..1] && o[..1][..0] == [];
    assert Created(map[], 0, o[..1]) == map[1 := 0];
    assert Created(map[], 0, o[..2]) == map[1 := 0, 2 := 1];
  }

  /** Replaying the old fork prunes the second coin in place of the first, and then finds it spent. */
  lemma OldForkIsRefused(file: seq<Leaf>, index: Index)
    requires 1 in index && 2 in index && index[1] == 1 && index[2] == 1
    ensures Replayed([], file, index, OLD_FORK + [NEXT]) == Err(AlreadySpent)
  {
    var l := Unspent(OLD_FORK[0].outputs);
    FirstApplies(file, index, OLD_FORK[0]);
    var pruned := Pruned(l, 1, 2);
    assert SpendAll(pruned, file, index, [2], 2) == Err(AlreadySpent);
    assert [1, 2][1..] == [2];
    OneMore([], file, index, 0, [OLD_FORK[0]], OLD_FORK[1]);
    assert OLD_FORK == [OLD_FORK[0]] + [OLD_FORK[1]];
    OneMore([], file, index, 0, OLD_FORK, NEXT);
  }

  lemma NothingSpent(leaves: seq<Leaf>, file: seq<Leaf>, index: Index, h: nat)
    ensures SpendAll(leaves, file, index, [], h) == Ok(leaves)
  {
  }

  /** Both coins are spent where they are. */
  lemma CoinsSpent(l: seq<Leaf>, i: Index)
    requires l == Unspent(OLD_FORK[0].outputs) && i == Created(map[], 0, OLD_FORK[0].outputs)
    ensures SpendAll(l, l, i, [1, 2], 2).Ok?
  {
    FirstIndex(i);
    var once, twice := Pruned(l, 0, 2), Pruned(Pruned(l, 0, 2), 1, 2);
    assert [1, 2][1..] == [2] && [2][1..] == [];
    assert SpendAll(twice, l, i, [], 2) == Ok(twice);
    assert SpendAll(once, l, i, [2], 2) == Ok(twice);
  }

  /** In order on the head, all three blocks apply. */
  lemma OldForkApplies()
    ensures Extended([], map[], OLD_FORK + [NEXT]).Ok?
    ensures var l := Unspent(OLD_FORK[0].outputs);
      var i := Created(map[], 0, OLD_FORK[0].outputs);
      Replayed(l, l, i, [OLD_FORK[1]]).Ok? && CreatedBy(i, |l|, [OLD_FORK[1]]) == Created(i, 3, OLD_FORK[1].outputs)
  {
    hide SpendAll, PushAll, Created, IndexedLive, Without;
    var a, b := OLD_FORK[0], OLD_FORK[1];
    var l, i := Unspent(a.outputs), Created(map[], 0, a.outputs);
    FirstApplies([], map[], a);
    FirstIndex(i);
    CoinsSpent(l, i);
    SpendAllIff(l, l, i, [1, 2], 2);
    PushAllIff(SpendAll(l, l, i, [1, 2], 2).value, i, 3, b.outputs);
    OneMore([], [], map[], 0, [a], b);
    OneMore(l, l, i, 3, [], b);
    assert OLD_FORK == [a] + [b] && [] + [b] == [b];
    var (m, k) := Extended([], map[], OLD_FORK).value;
    CreatedAt(i, 3, b.outputs, 6);
    NothingSpent(m, m, k, 3);
    PushAllIff(m, k, |m|, NEXT.outputs);
    OneMore([], [], map[], 0, OLD_FORK, NEXT);
  }

  /** Two blocks make the head, a fork takes over, and a third block on the first two is then refused: replaying
      the second one, the first coin is looked for where the new fork has it. Without that fork all three apply. */
  method ReplayIsRefused() returns (t: SumTrees, r: Option<Error>)
    ensures Extended([], map[], OLD_FORK + [NEXT]).Ok?
    ensures r == Some(AlreadySpent)
  {
    t := new SumTrees();
    var first := t.Extending(None, [OLD_FORK[0]], false);
    FirstApplies([], map[], OLD_FORK[0]);
    ghost var index := t.index;
    FirstIndex(index);
    var second := t.Extending(None, [OLD_FORK[1]], false);
    OldForkApplies();
    index := t.index;
    CreatedAt(Created(map[], 0, OLD_FORK[0].outputs), 3, OLD_FORK[1].outputs, 2);
    ghost var file := Revived(t.leaves, 0);
    var fork := t.Extending(Some(GENESIS), [NEW_FORK], false);
    FirstApplies(file, index, NEW_FORK);
    CreatedAt(index, 0, NEW_FORK.outputs, 1);
    CreatedAt(index, 0, NEW_FORK.outputs, 2);
    assert first.None? && second.None? && fork.None?;
    file := Revived(t.leaves, 0);
    OldForkIsRefused(file, t.index);
    r := t.Extending(Some(GENESIS), OLD_FORK + [NEXT], false);
  }
}
