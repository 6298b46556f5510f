/** Coin selection: which outputs of a wallet to spend for an amount. */
module WalletSelect {
  import opened Wrappers

  datatype OutputStatus = Unconfirmed | Unspent | Locked | Spent

  datatype OutputData = OutputData(
    rootKeyId: nat,
    nChild: nat,
    value: nat,
    status: OutputStatus,
    height: nat,
    lockHeight: nat,
    isCoinbase: bool)
  {
    function NumConfirmations(currentHeight: nat): (n: nat)
      requires status.Unconfirmed? || (status.Spent? && height == 0) || height <= currentHeight
    {
      if status.Unconfirmed? then 0
      else if status.Spent? && height == 0 then 0
      else 1 + (currentHeight - height)
    }

    /** Where the confirmations get counted, the output is no higher than the chain: the count would underflow. */
    predicate Countable(currentHeight: nat) {
      status.Unspent? && lockHeight <= currentHeight ==> height <= currentHeight
    }

    predicate EligibleToSpend(currentHeight: nat, minimumConfirmations: nat)
      requires Countable(currentHeight)
    {
      if status.Spent? || status.Locked? then false
      else if status.Unconfirmed? && isCoinbase then false
      else if lockHeight > currentHeight then false
      else if status.Unspent? && NumConfirmations(currentHeight) >= minimumConfirmations then true
      else status.Unconfirmed? && minimumConfirmations == 0
    }
  }

  function Sum(coins: seq<OutputData>): nat {
    if coins == [] then 0 else Sum(coins[..|coins| - 1]) + coins[|coins| - 1].value
  }

  ghost predicate Ascending(coins: seq<OutputData>) {
    forall i, j :: 0 <= i < j < |coins| ==> coins[i].value <= coins[j].value
  }

  lemma {:induction false} SumAdds(a: seq<OutputData>, b: seq<OutputData>)
    ensures Sum(a + b) == Sum(a) + Sum(b)
  {
    if b == [] {
      assert a + b == a;
    } else {
      assert (a + b)[..|a + b| - 1] == a + b[..|b| - 1];
      SumAdds(a, b[..|b| - 1]);
    }
  }

  lemma SumOfOne(c: OutputData)
    ensures Sum([c]) == c.value
  {
    assert [c][..0] == [];
  }

  // ---------------------------------------------------------------- sorting

  /** Stable insertion: after the coins of the same value. */
  function InsertCoin(coins: seq<OutputData>, c: OutputData): (r: seq<OutputData>)
    ensures multiset(r) == multiset(coins) + multiset{c}
  {
    if coins == [] then [c]
    else
      var last := |coins| - 1;
      assert coins == coins[..last] + [coins[last]];
      if coins[last].value <= c.value then coins + [c]
      else InsertCoin(coins[..last], c) + [coins[last]]
  }

  lemma {:induction false} InsertCoinAscending(coins: seq<OutputData>, c: OutputData)
    requires Ascending(coins)
    ensures Ascending(InsertCoin(coins, c))
  {
    if coins != [] && coins[|coins| - 1].value > c.value {
      hide InsertCoin;
      var last := |coins| - 1;
      InsertCoinAscending(coins[..last], c);
      InsertedBelow(coins[..last], c, coins[last].value);
      InsertBeforeLast(coins, c);
    }
  }

  lemma InsertBeforeLast(coins: seq<OutputData>, c: OutputData)
    requires coins != [] && coins[|coins| - 1].value > c.value
    ensures InsertCoin(coins, c) == InsertCoin(coins[..|coins| - 1], c) + [coins[|coins| - 1]]
  {
  }

  lemma InsertedBelow(coins: seq<OutputData>, c: OutputData, bound: nat)
    requires c.value <= bound && forall x :: x in coins ==> x.value <= bound
    ensures forall x :: x in InsertCoin(coins, c) ==> x.value <= bound
  {
    hide InsertCoin;
    forall x | x in InsertCoin(coins, c)
      ensures x in coins || x == c
    {
      assert x in multiset(InsertCoin(coins, c));
    }
  }

  function SortByValue(coins: seq<OutputData>): (r: seq<OutputData>)
    ensures multiset(r) == multiset(coins) && |r| == |coins|
  {
    if coins == [] then []
    else
      var last := |coins| - 1;
      assert coins == coins[..last] + [coins[last]];
      var r := InsertCoin(SortByValue(coins[..last]), coins[last]);
      assert |multiset(r)| == |multiset(coins)|;
      r
  }

  lemma {:induction false} SortByValueAscending(coins: seq<OutputData>)
    ensures Ascending(SortByValue(coins))
  {
    if coins != [] {
      SortByValueAscending(coins[..|coins| - 1]);
      InsertCoinAscending(SortByValue(coins[..|coins| - 1]), coins[|coins| - 1]);
    }
  }

  // ---------------------------------------------------------------- what can be covered

  /** `pick` is a choice of at most `k` of the coins. */
  ghost predicate IsChoice(pick: seq<OutputData>, coins: seq<OutputData>, k: nat) {
    multiset(pick) <= multiset(coins) && |pick| <= k
  }

  ghost predicate CanCover(coins: seq<OutputData>, k: nat, amount: nat) {
    exists pick: seq<OutputData> :: IsChoice(pick, coins, k) && Sum(pick) >= amount
  }

  ghost function Largest(sorted: seq<OutputData>, k: nat): seq<OutputData> {
    if |sorted| <= k then sorted else sorted[|sorted| - k..]
  }

  lemma RemoveOne(pick: seq<OutputData>, x: OutputData) returns (rest: seq<OutputData>)
    requires x in pick
    ensures multiset(rest) == multiset(pick) - multiset{x}
    ensures |rest| == |pick| - 1 && Sum(pick) == Sum(rest) + x.value
  {
    var i :| 0 <= i < |pick| && pick[i] == x;
    rest := pick[..i] + pick[i + 1..];
    assert pick == pick[..i] + ([x] + pick[i + 1..]);
    SumAdds(pick[..i], [x] + pick[i + 1..]);
    SumAdds([x], pick[i + 1..]);
    SumAdds(pick[..i], pick[i + 1..]);
    assert Sum([x]) == x.value by { assert [x][..0] == []; }
  }

  /** Adding a larger coin at the top leaves the total of the `k` largest no smaller. */
  lemma LargestGrows(sorted: seq<OutputData>, k: nat)
    requires Ascending(sorted) && sorted != []
    ensures Sum(Largest(sorted[..|sorted| - 1], k)) <= Sum(Largest(sorted, k))
  {
    var n := |sorted| - 1;
    var rest, x := sorted[..n], sorted[n];
    if k == 0 {
      assert Largest(rest, k) == [] && Largest(sorted, k) == [];
    } else if n < k {
      assert sorted == rest + [x];
      SumAdds(rest, [x]);
    } else {
      var mid := sorted[n - k + 1..n];
      assert Largest(rest, k) == [sorted[n - k]] + mid;
      assert Largest(sorted, k) == mid + [x];
      SumAdds([sorted[n - k]], mid);
      SumAdds(mid, [x]);
      assert Sum([x]) == x.value by { assert [x][..0] == []; }
      assert Sum([sorted[n - k]]) == sorted[n - k].value by { assert [sorted[n - k]][..0] == []; }
    }
  }

  lemma LargestTakesTop(sorted: seq<OutputData>, k: nat)
    requires sorted != [] && k > 0
    ensures Sum(Largest(sorted, k)) == Sum(Largest(sorted[..|sorted| - 1], k - 1)) + sorted[|sorted| - 1].value
  {
    var n := |sorted| - 1;
    assert Largest(sorted, k) == Largest(sorted[..n], k - 1) + [sorted[n]];
    SumAdds(Largest(sorted[..n], k - 1), [sorted[n]]);
    assert Sum([sorted[n]]) == sorted[n].value by { assert [sorted[n]][..0] == []; }
  }

  lemma DropTop(pick: multiset<OutputData>, rest: multiset<OutputData>, x: OutputData)
    requires pick <= rest + multiset{x}
    ensures pick - multiset{x} <= rest
    ensures x !in pick ==> pick <= rest
  {
  }

  lemma PrefixAscending(sorted: seq<OutputData>, n: nat)
    requires Ascending(sorted) && n <= |sorted|
    ensures Ascending(sorted[..n])
  {
  }

  /** No choice of at most `k` coins is worth more than the `k` largest. */
  lemma {:induction false} LargestIsBest(sorted: seq<OutputData>, k: nat, pick: seq<OutputData>)
    requires Ascending(sorted) && IsChoice(pick, sorted, k)
    ensures Sum(pick) <= Sum(Largest(sorted, k))
    decreases |sorted|
  {
    hide Sum, Largest, Ascending, IsChoice;
    if sorted == [] || pick == [] {
      NothingToPick(sorted, k, pick);
    } else {
      var n := |sorted| - 1;
      PrefixAscending(sorted, n);
      if sorted[n] in pick {
        var rest := TakeTop(sorted, k, pick);
        LargestIsBest(sorted[..n], k - 1, rest);
        LargestTakesTop(sorted, k);
      } else {
        SkipTop(sorted, k, pick);
        LargestIsBest(sorted[..n], k, pick);
        LargestGrows(sorted, k);
      }
    }
  }

  lemma TakeTop(sorted: seq<OutputData>, k: nat, pick: seq<OutputData>) returns (rest: seq<OutputData>)
    requires sorted != [] && IsChoice(pick, sorted, k) && sorted[|sorted| - 1] in pick
    ensures k > 0 && IsChoice(rest, sorted[..|sorted| - 1], k - 1)
    ensures Sum(pick) == Sum(rest) + sorted[|sorted| - 1].value
  {
    SplitTop(sorted, pick);
    rest := RemoveOne(pick, sorted[|sorted| - 1]);
  }

  lemma SkipTop(sorted: seq<OutputData>, k: nat, pick: seq<OutputData>)
    requires sorted != [] && IsChoice(pick, sorted, k) && sorted[|sorted| - 1] !in pick
    ensures IsChoice(pick, sorted[..|sorted| - 1], k)
  {
    SplitTop(sorted, pick);
  }

  lemma NothingToPick(sorted: seq<OutputData>, k: nat, pick: seq<OutputData>)
    requires IsChoice(pick, sorted, k) && (sorted == [] || pick == [])
    ensures Sum(pick) == 0
  {
    assert |multiset(pick)| == |pick|;
  }

  lemma SplitTop(sorted: seq<OutputData>, pick: seq<OutputData>)
    requires sorted != [] && multiset(pick) <= multiset(sorted)
    ensures var n := |sorted| - 1;
      && (sorted[n] in pick ==> multiset(pick) - multiset{sorted[n]} <= multiset(sorted[..n]))
      && (sorted[n] !in pick ==> multiset(pick) <= multiset(sorted[..n]))
  {
    var n := |sorted| - 1;
    assert sorted == sorted[..n] + [sorted[n]];
    assert multiset(sorted) == multiset(sorted[..n]) + multiset{sorted[n]};
    DropTop(multiset(pick), multiset(sorted[..n]), sorted[n]);
  }

  lemma LargestIsChoice(sorted: seq<OutputData>, k: nat)
    ensures IsChoice(Largest(sorted, k), sorted, k)
  {
    if |sorted| > k {
      assert sorted == sorted[..|sorted| - k] + sorted[|sorted| - k..];
    }
  }

  /** An amount can be covered exactly when the `k` largest coins cover it. */
  lemma CoverIffLargest(coins: seq<OutputData>, sorted: seq<OutputData>, k: nat, amount: nat)
    requires Ascending(sorted) && multiset(sorted) == multiset(coins)
    ensures CanCover(coins, k, amount) <==> Sum(Largest(sorted, k)) >= amount
  {
    if CanCover(coins, k, amount) {
      var pick :| IsChoice(pick, coins, k) && Sum(pick) >= amount;
      LargestIsBest(sorted, k, pick);
    }
    LargestIsChoice(sorted, k);
    assert IsChoice(Largest(sorted, k), coins, k);
  }

  // ---------------------------------------------------------------- selecting

  ghost predicate Eligible(o: OutputData, root: nat, currentHeight: nat, minimumConfirmations: nat) {
    o.Countable(currentHeight) && o.rootKeyId == root && o.EligibleToSpend(currentHeight, minimumConfirmations)
  }

  ghost function EligibleOf(outputs: seq<OutputData>, root: nat, currentHeight: nat, minimumConfirmations: nat): seq<OutputData> {
    if outputs == [] then []
    else
      var last := |outputs| - 1;
      var rest := EligibleOf(outputs[..last], root, currentHeight, minimumConfirmations);
      if Eligible(outputs[last], root, currentHeight, minimumConfirmations) then rest + [outputs[last]] else rest
  }

  /** A confirmed output that is not locked, deep enough; or, if no confirmations are asked for, one that is not yet
      confirmed and no coinbase. */
  ghost predicate Ripe(o: OutputData, currentHeight: nat, minimumConfirmations: nat) {
    && o.lockHeight <= currentHeight
    && (|| (o.status.Unspent? && o.height <= currentHeight && currentHeight + 1 >= o.height + minimumConfirmations)
        || (o.status.Unconfirmed? && !o.isCoinbase && minimumConfirmations == 0))
  }

  /** A confirmed output has one confirmation in its own block, and one more with each block after it. */
  lemma ConfirmationsGrow(o: OutputData, height: nat)
    requires o.height <= height && !o.status.Unconfirmed? && !(o.status.Spent? && o.height == 0)
    ensures o.NumConfirmations(o.height) == 1 && o.NumConfirmations(height + 1) == o.NumConfirmations(height) + 1
  {
  }

  /** Which outputs are eligible, without counting confirmations. */
  lemma EligibleIff(o: OutputData, root: nat, currentHeight: nat, minimumConfirmations: nat)
    ensures Eligible(o, root, currentHeight, minimumConfirmations) <==>
            o.rootKeyId == root && Ripe(o, currentHeight, minimumConfirmations)
  {
  }

  /** An output once eligible stays so while the chain grows, and with fewer confirmations asked for. */
  lemma EligibleStays(o: OutputData, root: nat, height: nat, later: nat, minimum: nat, fewer: nat)
    requires Eligible(o, root, height, minimum) && height <= later && fewer <= minimum
    ensures Eligible(o, root, later, fewer)
  {
  }

  /** Every eligible output is taken as often as it is listed, and no other. */
  lemma {:induction false} EligibleOfIs(outputs: seq<OutputData>, root: nat, currentHeight: nat, minimumConfirmations: nat, o: OutputData)
    ensures multiset(EligibleOf(outputs, root, currentHeight, minimumConfirmations))[o] ==
            if o.rootKeyId == root && Ripe(o, currentHeight, minimumConfirmations) then multiset(outputs)[o] else 0
  {
    if outputs != [] {
      hide Eligible, Ripe;
      var last := |outputs| - 1;
      assert outputs == outputs[..last] + [outputs[last]];
      EligibleOfIs(outputs[..last], root, currentHeight, minimumConfirmations, o);
      EligibleIff(outputs[last], root, currentHeight, minimumConfirmations);
    }
  }

  /** All of the coins, or just enough of the first ones, if together they cover the amount. */
  method SelectFrom(amount: nat, selectAll: bool, outputs: seq<OutputData>) returns (r: Option<seq<OutputData>>)
    ensures r.Some? <==> Sum(outputs) >= amount
    ensures r.Some? ==> r.value <= outputs && Sum(r.value) >= amount
    ensures r.Some? && selectAll ==> r.value == outputs
    ensures r.Some? && !selectAll && r.value != [] ==> Sum(r.value[..|r.value| - 1]) < amount
  {
    if Sum(outputs) < amount {
      return None;
    }
    if selectAll {
      return Some(outputs);
    }
    var selectedAmount := 0;
    var n := 0;
    while n < |outputs| && selectedAmount < amount
      invariant n <= |outputs| && selectedAmount == Sum(outputs[..n])
      invariant n > 0 ==> Sum(outputs[..n - 1]) < amount
    {
      assert outputs[..n + 1][..n] == outputs[..n];
      selectedAmount := selectedAmount + outputs[n].value;
      n := n + 1;
    }
    assert outputs[..|outputs|] == outputs;
    assert n > 0 ==> outputs[..n][..n - 1] == outputs[..n - 1];
    return Some(outputs[..n]);
  }

  /** How many coins a window holds. */
  function WindowSize(coins: seq<OutputData>, maxOutputs: nat): (n: nat)
    ensures n <= |coins| && n <= maxOutputs
  {
    if |coins| <= maxOutputs then |coins| else maxOutputs
  }

  /** `r` is a window of the sorted coins or the start of one, and no window of smaller coins covers the amount. */
  ghost predicate FromFirstCovering(r: seq<OutputData>, sorted: seq<OutputData>, n: nat, amount: nat)
    requires n <= |sorted|
  {
    exists i: nat :: i + n <= |sorted| && r <= Window(sorted, i, n) && NoneCovers(sorted, n, amount, i)
  }

  ghost predicate NoneCovers(sorted: seq<OutputData>, n: nat, amount: nat, before: nat)
    requires n <= |sorted|
  {
    forall j: nat {:trigger Window(sorted, j, n)} :: j < before && j + n <= |sorted| ==> Sum(Window(sorted, j, n)) < amount
  }

  function Window(sorted: seq<OutputData>, j: nat, n: nat): (w: seq<OutputData>)
    requires j + n <= |sorted|
    ensures |w| == n
  {
    sorted[j..j + n]
  }

  lemma {:induction false} PointwiseSum(a: seq<OutputData>, b: seq<OutputData>)
    requires |a| == |b| && forall i :: 0 <= i < |a| ==> a[i].value <= b[i].value
    ensures Sum(a) <= Sum(b)
  {
    if a != [] {
      PointwiseSum(a[..|a| - 1], b[..|b| - 1]);
    }
  }

  /** The first window that covers the amount is worth no more than any other that does. */
  lemma FirstCoveringIsLeast(r: seq<OutputData>, sorted: seq<OutputData>, n: nat, amount: nat, j: nat)
    requires Ascending(sorted) && n <= |sorted| && FromFirstCovering(r, sorted, n, amount)
    requires j + n <= |sorted| && Sum(Window(sorted, j, n)) >= amount
    ensures Sum(r) <= Sum(Window(sorted, j, n))
  {
    hide Sum;
    var i: nat :| i + n <= |sorted| && r <= Window(sorted, i, n) && NoneCovers(sorted, n, amount, i);
    assert i <= j;
    var w := Window(sorted, i, n);
    PointwiseSum(w, Window(sorted, j, n));
    SumAdds(r, w[|r|..]);
    assert w == r + w[|r|..];
  }

  /** Selects coins; `outputs` lists the wallet in whatever order its map yields. */
  method Select(
    outputs: seq<OutputData>,
    rootKeyId: nat,
    amount: nat,
    currentHeight: nat,
    minimumConfirmations: nat,
    maxOutputs: nat,
    defaultStrategy: bool)
    returns (r: seq<OutputData>)
    requires forall o :: o in outputs && o.rootKeyId == rootKeyId ==> o.Countable(currentHeight)
    // the source panics on windows of no coins
    requires maxOutputs >= 1 || EligibleOf(outputs, rootKeyId, currentHeight, minimumConfirmations) == []
    // only eligible coins, each at most once, and no more than allowed
    ensures IsChoice(r, EligibleOf(outputs, rootKeyId, currentHeight, minimumConfirmations), maxOutputs)
    // the amount is covered whenever any such choice covers it
    ensures Sum(r) >= amount <==>
      CanCover(EligibleOf(outputs, rootKeyId, currentHeight, minimumConfirmations), maxOutputs, amount)
    // otherwise no choice is worth more
    ensures Sum(r) < amount ==> forall pick: seq<OutputData> ::
      IsChoice(pick, EligibleOf(outputs, rootKeyId, currentHeight, minimumConfirmations), maxOutputs) ==> Sum(pick) <= Sum(r)
    // the default strategy spends as many coins as it may
    ensures defaultStrategy || Sum(r) < amount ==>
      var n := |EligibleOf(outputs, rootKeyId, currentHeight, minimumConfirmations)|;
      |r| == (if n <= maxOutputs then n else maxOutputs)
    // the coins come from the first window of the sorted coins that covers the amount
    ensures Sum(r) >= amount ==>
      var sorted := SortByValue(EligibleOf(outputs, rootKeyId, currentHeight, minimumConfirmations));
      FromFirstCovering(r, sorted, WindowSize(sorted, maxOutputs), amount)
    // the other one spends none to spare
    ensures !defaultStrategy && Sum(r) >= amount && r != [] ==> Sum(r[..|r| - 1]) < amount
  {
    ghost var coins := EligibleOf(outputs, rootKeyId, currentHeight, minimumConfirmations);
    var eligible := CollectEligible(outputs, rootKeyId, currentHeight, minimumConfirmations);
    SortByValueAscending(eligible);
    eligible := SortByValue(eligible);
    CoverIffLargest(coins, eligible, maxOutputs, amount);
    LargestIsChoice(eligible, maxOutputs);
    assert |eligible| == |coins|;
    SameChoices(eligible, coins, maxOutputs);
    hide Eligible, EligibleOf, SortByValue, CanCover, Sum, Ascending, Largest, IsChoice;
    var selected := SelectWindow(eligible, amount, maxOutputs, defaultStrategy);
    if selected.Some? {
      ChoiceCovers(coins, maxOutputs, amount, selected.value);
      return selected.value;
    }
    LargestLength(eligible, maxOutputs);
    r := LargestFirst(eligible, maxOutputs);
    IsChoiceByContent(r, Largest(eligible, maxOutputs), eligible, maxOutputs);
    forall pick: seq<OutputData> | IsChoice(pick, coins, maxOutputs)
      ensures Sum(pick) <= Sum(r)
    {
      LargestIsBest(eligible, maxOutputs, pick);
    }
  }

  /** Slides a window over the sorted coins until it covers the amount. */
  method SelectWindow(eligible: seq<OutputData>, amount: nat, maxOutputs: nat, defaultStrategy: bool)
    returns (r: Option<seq<OutputData>>)
    requires maxOutputs >= 1 || eligible == []
    ensures r.None? ==> Sum(Largest(eligible, maxOutputs)) < amount
    ensures r.Some? ==> IsChoice(r.value, eligible, maxOutputs) && Sum(r.value) >= amount
    ensures r.Some? ==> FromFirstCovering(r.value, eligible, WindowSize(eligible, maxOutputs), amount)
    ensures r.Some? && defaultStrategy ==> |r.value| == WindowSize(eligible, maxOutputs)
    ensures r.Some? && !defaultStrategy && r.value != [] ==> Sum(r.value[..|r.value| - 1]) < amount
  {
    hide Sum;
    if |eligible| > maxOutputs {
      for i := 0 to |eligible| - maxOutputs + 1
        invariant NoneCovers(eligible, maxOutputs, amount, i)
      {
        var window := Window(eligible, i, maxOutputs);
        r := SelectFrom(amount, defaultStrategy, window);
        if r.Some? {
          WindowIsChoice(eligible, i, maxOutputs, r.value);
          return;
        }
      }
      var last := |eligible| - maxOutputs;
      assert Window(eligible, last, maxOutputs) == Largest(eligible, maxOutputs);
      return None;
    } else {
      r := SelectFrom(amount, defaultStrategy, eligible);
      if r.Some? {
        WindowIsChoice(eligible, 0, |eligible|, r.value);
        assert Window(eligible, 0, |eligible|) == eligible;
      }
    }
  }

  lemma LargestLength(sorted: seq<OutputData>, k: nat)
    ensures |Largest(sorted, k)| == if |sorted| <= k then |sorted| else k
  {
  }

  lemma SameChoices(a: seq<OutputData>, b: seq<OutputData>, k: nat)
    requires multiset(a) == multiset(b)
    ensures forall pick: seq<OutputData> :: IsChoice(pick, a, k) <==> IsChoice(pick, b, k)
  {
  }

  lemma IsChoiceByContent(r: seq<OutputData>, pick: seq<OutputData>, coins: seq<OutputData>, k: nat)
    requires IsChoice(pick, coins, k) && multiset(r) == multiset(pick) && |r| == |pick|
    ensures IsChoice(r, coins, k)
  {
  }

  lemma ChoiceCovers(coins: seq<OutputData>, k: nat, amount: nat, r: seq<OutputData>)
    requires IsChoice(r, coins, k) && Sum(r) >= amount
    ensures CanCover(coins, k, amount)
  {
  }

  lemma WindowIsChoice(sorted: seq<OutputData>, i: nat, n: nat, r: seq<OutputData>)
    requires i + n <= |sorted| && r <= sorted[i..i + n]
    ensures multiset(r) <= multiset(sorted) && |r| <= n
    ensures i + n == |sorted| && i == 0 ==> sorted[i..i + n] == sorted
  {
    assert sorted == sorted[..i] + (r + sorted[i + |r|..]);
    assert multiset(sorted) == multiset(sorted[..i]) + (multiset(r) + multiset(sorted[i + |r|..]));
  }

  /** The eligible outputs of the wallet. */
  method CollectEligible(outputs: seq<OutputData>, rootKeyId: nat, currentHeight: nat, minimumConfirmations: nat)
    returns (eligible: seq<OutputData>)
    requires forall o :: o in outputs && o.rootKeyId == rootKeyId ==> o.Countable(currentHeight)
    ensures eligible == EligibleOf(outputs, rootKeyId, currentHeight, minimumConfirmations)
  {
    eligible := [];
    for i := 0 to |outputs|
      invariant eligible == EligibleOf(outputs[..i], rootKeyId, currentHeight, minimumConfirmations)
    {
      assert outputs[..i + 1][..i] == outputs[..i];
      if outputs[i].rootKeyId == rootKeyId && outputs[i].EligibleToSpend(currentHeight, minimumConfirmations) {
        eligible := eligible + [outputs[i]];
      }
    }
    assert outputs[..|outputs|] == outputs;
  }

  function Reverse(s: seq<OutputData>): (r: seq<OutputData>)
    ensures |r| == |s| && forall i :: 0 <= i < |s| ==> r[i] == s[|s| - 1 - i]
  {
    seq(|s|, i requires 0 <= i < |s| => s[|s| - 1 - i])
  }

  lemma {:induction false} ReverseSame(s: seq<OutputData>)
    ensures multiset(Reverse(s)) == multiset(s) && Sum(Reverse(s)) == Sum(s)
  {
    if s == [] {
      assert Reverse(s) == s;
    } else {
      var n := |s| - 1;
      ReverseSame(s[..n]);
      assert Reverse(s) == [s[n]] + Reverse(s[..n]);
      assert s == s[..n] + [s[n]];
      SumAdds([s[n]], Reverse(s[..n]));
      SumOfOne(s[n]);
    }
  }

  /** The largest coins, the largest of all first. */
  method LargestFirst(sorted: seq<OutputData>, maxOutputs: nat) returns (r: seq<OutputData>)
    ensures r == Reverse(Largest(sorted, maxOutputs))
    ensures multiset(r) == multiset(Largest(sorted, maxOutputs)) && Sum(r) == Sum(Largest(sorted, maxOutputs))
  {
    var reversed := Reverse(sorted);
    r := if |reversed| > maxOutputs then reversed[..maxOutputs] else reversed;
    assert r == Reverse(Largest(sorted, maxOutputs));
    ReverseSame(Largest(sorted, maxOutputs));
  }
}
