/** The queue of orphan blocks: what processing a block and retrying the orphans come to. */
module ChainOrphans {
  import opened Wrappers
  import opened ChainModel
  import opened ChainStore
  import opened ChainRules

  /** The chain's view and the queue, the oldest orphan last. */
  datatype Outcome = Outcome(view: View, queue: seq<Orphaned>)

  /** A new orphan goes to the front of the queue, and the oldest one may fall off the end. */
  ghost function Queued(queue: seq<Orphaned>, o: Orphaned): (r: seq<Orphaned>)
    ensures o in r && |r| <= MAX_ORPHANS
    ensures |queue| < MAX_ORPHANS ==> r == [o] + queue
    ensures |queue| == MAX_ORPHANS ==> r == [o] + queue[..MAX_ORPHANS - 1]
  {
    var longer := [o] + queue;
    if |longer| > MAX_ORPHANS then (assert longer[..MAX_ORPHANS][0] == o; longer[..MAX_ORPHANS])
    else (assert longer[0] == o; longer)
  }

  lemma GrownSame(v: View)
    ensures Grown(v, v)
  {
  }

  lemma GrowsOn(u: View, v: View, w: View)
    requires Grown(u, v) && Grown(v, w)
    ensures Grown(u, w)
  {
  }

  /** Processing a block: it is stored, queued or refused; a new head sets off a retry of the queue. */
  ghost function Process(j: Judge, v: View, queue: seq<Orphaned>, o: Orphaned): (r: Outcome)
    requires j.Good(v) && |queue| <= MAX_ORPHANS
    ensures j.Good(r.view) && Grown(v, r.view)
    ensures |r.queue| <= MAX_ORPHANS && |r.queue| <= |queue| + 1
    decreases |queue|, 2, 0
  {
    GrownSame(v);
    if j.Acceptable(v, o) then
      hide Judge.Good, Grown, Judge.Acceptable, View.With, View.Headed;
      StoringKeeps(j, v, o);
      if o.1.header.totalDifficulty > v.head.totalDifficulty
      then
        var r := Check(j, v.Headed(j.hash, o.1), queue);
        GrowsOn(v, v.Headed(j.hash, o.1), r.view);
        r
      else Outcome(v.With(j.hash, o.1), queue)
    else if j.Waits(v, o) then Outcome(v, Queued(queue, o))
    else Outcome(v, queue)
  }

  /** Retrying the queue: as many turns as there are orphans at the start. */
  ghost function Check(j: Judge, v: View, queue: seq<Orphaned>): (r: Outcome)
    requires j.Good(v) && |queue| <= MAX_ORPHANS
    ensures j.Good(r.view) && Grown(v, r.view)
    ensures |r.queue| <= |queue|
    decreases |queue|, 1, 0
  {
    Turns(j, v, queue, |queue|)
  }

  /** In each turn the oldest orphan is processed again. */
  ghost function Turns(j: Judge, v: View, queue: seq<Orphaned>, n: nat): (r: Outcome)
    requires j.Good(v) && |queue| <= MAX_ORPHANS
    ensures j.Good(r.view) && Grown(v, r.view)
    ensures |r.queue| <= |queue|
    decreases |queue|, 0, n
  {
    if n == 0 || queue == [] then Outcome(v, queue)
    else
      hide Judge.Good, Grown;
      var last := |queue| - 1;
      var r := Process(j, v, queue[..last], queue[last]);
      var s := Turns(j, r.view, r.queue, n - 1);
      GrowsOn(v, r.view, s.view);
      s
  }

  lemma TurnsUnfold(j: Judge, v: View, queue: seq<Orphaned>, n: nat)
    requires j.Good(v) && |queue| <= MAX_ORPHANS
    ensures Check(j, v, queue) == Turns(j, v, queue, |queue|)
    ensures n == 0 || queue == [] ==> Turns(j, v, queue, n) == Outcome(v, queue)
    ensures n > 0 && queue != [] ==>
      var r := Process(j, v, queue[..|queue| - 1], queue[|queue| - 1]);
      Turns(j, v, queue, n) == Turns(j, r.view, r.queue, n - 1)
  {
  }

  /** No orphan is made up or doubled: what is queued at the end was queued before, or is the block itself. */
  lemma {:induction false} ProcessMakesNoneUp(j: Judge, v: View, queue: seq<Orphaned>, o: Orphaned)
    requires j.Good(v) && |queue| <= MAX_ORPHANS
    ensures multiset(Process(j, v, queue, o).queue) <= multiset(queue) + multiset{o}
    decreases |queue|, 2, 0
  {
    hide Injective, Keyed, Linked, BlocksStored, Grown, Judge.Acceptable, Judge.Waits, View.With, View.Headed, Turns;
    if j.Acceptable(v, o) {
      StoringKeeps(j, v, o);
      if o.1.header.totalDifficulty > v.head.totalDifficulty {
        TurnsMakeNoneUp(j, v.Headed(j.hash, o.1), queue, |queue|);
      }
    } else if j.Waits(v, o) {
      var longer := [o] + queue;
      assert multiset(longer) == multiset(queue) + multiset{o};
      if |longer| > MAX_ORPHANS {
        assert longer == longer[..MAX_ORPHANS] + longer[MAX_ORPHANS..];
      }
    }
  }

  lemma {:induction false} TurnsMakeNoneUp(j: Judge, v: View, queue: seq<Orphaned>, n: nat)
    requires j.Good(v) && |queue| <= MAX_ORPHANS
    ensures multiset(Turns(j, v, queue, n).queue) <= multiset(queue)
    decreases |queue|, 0, n
  {
    hide Judge.Good, Grown, Process, Turns;
    TurnsUnfold(j, v, queue, n);
    if n > 0 && queue != [] {
      var rest, o := queue[..|queue| - 1], queue[|queue| - 1];
      assert queue == rest + [o];
      var r := Process(j, v, rest, o);
      ProcessMakesNoneUp(j, v, rest, o);
      TurnsMakeNoneUp(j, r.view, r.queue, n - 1);
    }
  }

  // ---------------------------------------------------------------- the turns of a retry

  /** An orphan that is tried, and the view at that moment. */
  datatype Turn = Turn(view: View, orphan: Orphaned)

  /** All turns that processing a block comes to: its own, and those of the retries that it sets off. */
  ghost function ProcessTrace(j: Judge, v: View, queue: seq<Orphaned>, o: Orphaned): (t: seq<Turn>)
    requires j.Good(v) && |queue| <= MAX_ORPHANS
    decreases |queue|, 2, 0
  {
    if j.Acceptable(v, o) && o.1.header.totalDifficulty > v.head.totalDifficulty then
      hide Judge.Good, Grown, Judge.Acceptable, View.Headed;
      StoringKeeps(j, v, o);
      [Turn(v, o)] + TurnsTrace(j, v.Headed(j.hash, o.1), queue, |queue|)
    else [Turn(v, o)]
  }

  ghost function TurnsTrace(j: Judge, v: View, queue: seq<Orphaned>, n: nat): (t: seq<Turn>)
    requires j.Good(v) && |queue| <= MAX_ORPHANS
    decreases |queue|, 0, n
  {
    if n == 0 || queue == [] then []
    else
      hide Judge.Good, Grown;
      var rest, o := queue[..|queue| - 1], queue[|queue| - 1];
      var r := Process(j, v, rest, o);
      ProcessTrace(j, v, rest, o) + TurnsTrace(j, r.view, r.queue, n - 1)
  }

  /** The view at the last turn of an orphan. */
  ghost function LastTurn(trace: seq<Turn>, x: Orphaned): (w: Option<View>)
    ensures w.Some? ==> Turn(w.value, x) in trace
  {
    if trace == [] then None
    else if trace[|trace| - 1].orphan == x then (assert trace[|trace| - 1] == Turn(trace[|trace| - 1].view, x); Some(trace[|trace| - 1].view))
    else LastTurn(trace[..|trace| - 1], x)
  }

  lemma {:induction false} LastTurnIsLater(a: seq<Turn>, b: seq<Turn>, x: Orphaned)
    ensures LastTurn(a + b, x) == if LastTurn(b, x).Some? then LastTurn(b, x) else LastTurn(a, x)
  {
    if b == [] {
      assert a + b == a;
    } else {
      assert (a + b)[..|a + b| - 1] == a + b[..|b| - 1];
      LastTurnIsLater(a, b[..|b| - 1], x);
    }
  }

  /** At its last turn the orphan was too far ahead of the head to be queued. */
  ghost predicate LeftBehind(trace: seq<Turn>, x: Orphaned) {
    LastTurn(trace, x).Some? && LastTurn(trace, x).value.head.height + MAX_ORPHANS <= x.1.header.height
  }

  /** The turn stores the block `k`. */
  ghost predicate TurnStores(j: Judge, t: Turn, k: BlockHash) {
    Linked(t.view.headers) && j.Acceptable(t.view, t.orphan) && j.hash(t.orphan.1.header) == k
  }

  ghost predicate SomeTurnStores(j: Judge, trace: seq<Turn>, k: BlockHash) {
    exists t :: t in trace && TurnStores(j, t, k)
  }

  lemma ProcessUnfold(j: Judge, v: View, queue: seq<Orphaned>, o: Orphaned)
    requires j.Good(v) && |queue| <= MAX_ORPHANS
    ensures j.Acceptable(v, o) ==>
      var v' := if o.1.header.totalDifficulty > v.head.totalDifficulty then v.Headed(j.hash, o.1) else v.With(j.hash, o.1);
      && j.Good(v') && Grown(v, v') && v'.blocks == v.blocks[j.hash(o.1.header) := o.1]
      && v'.head == (if o.1.header.totalDifficulty > v.head.totalDifficulty then TipOf(j.hash, o.1.header) else v.head)
      && (o.1.header.totalDifficulty <= v.head.totalDifficulty ==>
          Process(j, v, queue, o) == Outcome(v', queue) && ProcessTrace(j, v, queue, o) == [Turn(v, o)])
      && (o.1.header.totalDifficulty > v.head.totalDifficulty ==>
          && Process(j, v, queue, o) == Turns(j, v', queue, |queue|)
          && ProcessTrace(j, v, queue, o) == [Turn(v, o)] + TurnsTrace(j, v', queue, |queue|))
    ensures !j.Acceptable(v, o) ==>
      && Process(j, v, queue, o) == Outcome(v, if j.Waits(v, o) then Queued(queue, o) else queue)
      && ProcessTrace(j, v, queue, o) == [Turn(v, o)]
  {
    hide Linked, Keyed, Injective, BlocksStored, View.HeadStored, View.MostWork, Judge.Acceptable, Judge.Waits, Turns, TurnsTrace;
    if j.Acceptable(v, o) { StoringKeeps(j, v, o); }
  }

  lemma TraceUnfold(j: Judge, v: View, queue: seq<Orphaned>, n: nat)
    requires j.Good(v) && |queue| <= MAX_ORPHANS
    ensures n == 0 || queue == [] ==> TurnsTrace(j, v, queue, n) == []
    ensures n > 0 && queue != [] ==>
      var rest, o := queue[..|queue| - 1], queue[|queue| - 1];
      var r := Process(j, v, rest, o);
      TurnsTrace(j, v, queue, n) == ProcessTrace(j, v, rest, o) + TurnsTrace(j, r.view, r.queue, n - 1)
  {
    hide Judge.Good, Process, ProcessTrace;
  }

  // ---------------------------------------------------------------- where the heads and the blocks come from

  /** The head is `was`, or a block of the queue that has more work. */
  ghost predicate HeadFrom(j: Judge, was: Tip, queue: seq<Orphaned>, head: Tip) {
    head == was || exists f :: f in queue && IsHeadOf(j, was, f, head)
  }

  ghost predicate IsHeadOf(j: Judge, was: Tip, f: Orphaned, head: Tip) {
    f.1.header.totalDifficulty > was.totalDifficulty && head == TipOf(j.hash, f.1.header)
  }

  lemma HeadFromGoesOn(j: Judge, was: Tip, queue: seq<Orphaned>, mid: Tip, later: seq<Orphaned>, head: Tip)
    requires HeadFrom(j, was, queue, mid) && HeadFrom(j, mid, later, head)
    requires forall x :: x in later ==> x in queue
    ensures HeadFrom(j, was, queue, head)
  {
    if head != mid {
      var f :| f in later && IsHeadOf(j, mid, f, head);
      assert IsHeadOf(j, was, f, head);
    }
  }

  /** The turn is one of an orphan of the queue, after what was stored at `v`, under a head of the queue. */
  ghost predicate TurnFrom(j: Judge, v: View, queue: seq<Orphaned>, t: Turn) {
    t.orphan in queue && j.Good(t.view) && Grown(v, t.view) && HeadFrom(j, v.head, queue, t.view.head)
  }

  lemma TurnFromGoesOn(j: Judge, v: View, queue: seq<Orphaned>, v': View, later: seq<Orphaned>, t: Turn)
    requires Grown(v, v') && HeadFrom(j, v.head, queue, v'.head) && TurnFrom(j, v', later, t)
    requires forall x :: x in later ==> x in queue
    ensures TurnFrom(j, v, queue, t)
  {
    hide Judge.Good, Grown, HeadFrom;
    GrowsOn(v, v', t.view);
    HeadFromGoesOn(j, v.head, queue, v'.head, later, t.view.head);
  }

  lemma {:induction false} ProcessTurnsFrom(j: Judge, v: View, queue: seq<Orphaned>, o: Orphaned)
    requires j.Good(v) && |queue| <= MAX_ORPHANS
    ensures var r := Process(j, v, queue, o);
      && (forall t :: t in ProcessTrace(j, v, queue, o) ==> TurnFrom(j, v, queue + [o], t))
      && (forall x :: x in r.queue ==> x in queue + [o])
      && HeadFrom(j, v.head, queue + [o], r.view.head)
    decreases |queue|, 2, 0
  {
    hide Linked, Keyed, Injective, BlocksStored, View.HeadStored, View.MostWork, Judge.Acceptable, Judge.Waits, View.With, View.Headed, Process, ProcessTrace, TurnFrom, Turns, Grown;
    ProcessUnfold(j, v, queue, o);
    OwnTurn(j, v, queue, o);
    assert (queue + [o])[|queue|] == o;
    if j.Acceptable(v, o) && o.1.header.totalDifficulty > v.head.totalDifficulty {
      var v' := v.Headed(j.hash, o.1);
      assert IsHeadOf(j, v.head, o, v'.head);
      TurnsFrom(j, v', queue, |queue|);
      HeadFromGoesOn(j, v.head, queue + [o], v'.head, queue, Turns(j, v', queue, |queue|).view.head);
      forall t | t in TurnsTrace(j, v', queue, |queue|)
        ensures TurnFrom(j, v, queue + [o], t)
      {
        TurnFromGoesOn(j, v, queue + [o], v', queue, t);
      }
    }
  }

  lemma OwnTurn(j: Judge, v: View, queue: seq<Orphaned>, o: Orphaned)
    requires j.Good(v)
    ensures TurnFrom(j, v, queue + [o], Turn(v, o))
  {
    assert (queue + [o])[|queue|] == o;
  }

  /** Every turn of a retry is one of a queued orphan, and only queued blocks with more work become the head. */
  lemma {:induction false} TurnsFrom(j: Judge, v: View, queue: seq<Orphaned>, n: nat)
    requires j.Good(v) && |queue| <= MAX_ORPHANS
    ensures var r := Turns(j, v, queue, n);
      && (forall t :: t in TurnsTrace(j, v, queue, n) ==> TurnFrom(j, v, queue, t))
      && (forall x :: x in r.queue ==> x in queue)
      && HeadFrom(j, v.head, queue, r.view.head)
    decreases |queue|, 0, n
  {
    hide Judge.Good, Process, ProcessTrace, TurnFrom, HeadFrom, Turns, TurnsTrace, Grown;
    TurnsUnfold(j, v, queue, n);
    TraceUnfold(j, v, queue, n);
    if n > 0 && queue != [] {
      var rest, o := queue[..|queue| - 1], queue[|queue| - 1];
      assert queue == rest + [o];
      var m := Process(j, v, rest, o);
      var r := Turns(j, m.view, m.queue, n - 1);
      ProcessTurnsFrom(j, v, rest, o);
      TurnsFrom(j, m.view, m.queue, n - 1);
      HeadFromGoesOn(j, v.head, queue, m.view.head, m.queue, r.view.head);
      forall t | t in TurnsTrace(j, m.view, m.queue, n - 1)
        ensures TurnFrom(j, v, queue, t)
      {
        TurnFromGoesOn(j, v, queue, m.view, m.queue, t);
      }
    } else {
      HeadItself(j, v.head, queue);
    }
  }

  lemma HeadItself(j: Judge, head: Tip, queue: seq<Orphaned>)
    ensures HeadFrom(j, head, queue, head)
  {
  }

  /** Exactly the blocks that some turn stores are stored on top of those before. */
  lemma {:induction false} ProcessStores(j: Judge, v: View, queue: seq<Orphaned>, o: Orphaned, k: BlockHash)
    requires j.Good(v) && |queue| <= MAX_ORPHANS
    ensures k in Process(j, v, queue, o).view.blocks <==> k in v.blocks || SomeTurnStores(j, ProcessTrace(j, v, queue, o), k)
    decreases |queue|, 2, 0
  {
    hide Linked, Keyed, Injective, BlocksStored, View.HeadStored, View.MostWork, Judge.Acceptable, Judge.Waits, View.With, View.Headed;
    hide Process, ProcessTrace, Turns, SomeTurnStores, Grown;
    ProcessUnfold(j, v, queue, o);
    OneTurnStores(j, Turn(v, o), k);
    if j.Acceptable(v, o) && o.1.header.totalDifficulty > v.head.totalDifficulty {
      var v' := v.Headed(j.hash, o.1);
      TurnsStore(j, v', queue, |queue|, k);
      StoresInEither(j, [Turn(v, o)], TurnsTrace(j, v', queue, |queue|), k);
    }
  }

  lemma {:induction false} TurnsStore(j: Judge, v: View, queue: seq<Orphaned>, n: nat, k: BlockHash)
    requires j.Good(v) && |queue| <= MAX_ORPHANS
    ensures k in Turns(j, v, queue, n).view.blocks <==> k in v.blocks || SomeTurnStores(j, TurnsTrace(j, v, queue, n), k)
    decreases |queue|, 0, n
  {
    hide Judge.Good, Process, ProcessTrace, Turns, TurnsTrace, SomeTurnStores, Grown;
    TurnsUnfold(j, v, queue, n);
    TraceUnfold(j, v, queue, n);
    if n > 0 && queue != [] {
      var rest, o := queue[..|queue| - 1], queue[|queue| - 1];
      var m := Process(j, v, rest, o);
      ProcessStores(j, v, rest, o, k);
      TurnsStore(j, m.view, m.queue, n - 1, k);
      StoresInEither(j, ProcessTrace(j, v, rest, o), TurnsTrace(j, m.view, m.queue, n - 1), k);
    } else {
      NoTurnStores(j, k);
    }
  }

  lemma StoresInEither(j: Judge, a: seq<Turn>, b: seq<Turn>, k: BlockHash)
    ensures SomeTurnStores(j, a + b, k) <==> SomeTurnStores(j, a, k) || SomeTurnStores(j, b, k)
  {
    hide TurnStores;
  }

  lemma OneTurnStores(j: Judge, t: Turn, k: BlockHash)
    ensures SomeTurnStores(j, [t], k) <==> TurnStores(j, t, k)
  {
    hide TurnStores;
    assert t in [t];
  }

  lemma NoTurnStores(j: Judge, k: BlockHash)
    ensures !SomeTurnStores(j, [], k)
  {
  }

  // ---------------------------------------------------------------- what becomes of an orphan

  /** An orphan that has no turn stays in the queue, as long as there is room for one more. */
  lemma {:induction false} ProcessKeeps(j: Judge, v: View, queue: seq<Orphaned>, o: Orphaned, x: Orphaned)
    requires j.Good(v) && |queue| <= MAX_ORPHANS && x in queue
    requires j.Acceptable(v, o) || |queue| < MAX_ORPHANS
    requires LastTurn(ProcessTrace(j, v, queue, o), x).None?
    ensures x in Process(j, v, queue, o).queue
    decreases |queue|, 2, 0
  {
    hide Linked, Keyed, Injective, BlocksStored, View.HeadStored, View.MostWork, Judge.Acceptable, Judge.Waits, View.With, View.Headed, Process, ProcessTrace, Turns, Grown;
    ProcessUnfold(j, v, queue, o);
    if j.Acceptable(v, o) && o.1.header.totalDifficulty > v.head.totalDifficulty {
      var v' := v.Headed(j.hash, o.1);
      LastTurnIsLater([Turn(v, o)], TurnsTrace(j, v', queue, |queue|), x);
      TurnsKeep(j, v', queue, |queue|, x);
    }
  }

  lemma {:induction false} TurnsKeep(j: Judge, v: View, queue: seq<Orphaned>, n: nat, x: Orphaned)
    requires j.Good(v) && |queue| <= MAX_ORPHANS && x in queue
    requires LastTurn(TurnsTrace(j, v, queue, n), x).None?
    ensures x in Turns(j, v, queue, n).queue
    decreases |queue|, 0, n
  {
    hide Judge.Good, Process, ProcessTrace, Turns, TurnsTrace, Grown, LastTurn;
    TurnsUnfold(j, v, queue, n);
    TraceUnfold(j, v, queue, n);
    if n > 0 && queue != [] {
      var rest, o := queue[..|queue| - 1], queue[|queue| - 1];
      assert queue == rest + [o];
      var m := Process(j, v, rest, o);
      LastTurnIsLater(ProcessTrace(j, v, rest, o), TurnsTrace(j, m.view, m.queue, n - 1), x);
      HasItsTurn(j, v, rest, o);
      ProcessKeeps(j, v, rest, o, x);
      TurnsKeep(j, m.view, m.queue, n - 1, x);
    }
  }

  /** Processing a block begins with its own turn. */
  lemma HasItsTurn(j: Judge, v: View, queue: seq<Orphaned>, o: Orphaned)
    requires j.Good(v) && |queue| <= MAX_ORPHANS
    ensures LastTurn(ProcessTrace(j, v, queue, o), o).Some?
  {
    hide Linked, Keyed, Injective, BlocksStored, View.HeadStored, View.MostWork, Judge.Acceptable, Judge.Waits, View.With, View.Headed, Process, ProcessTrace, Turns, Grown;
    ProcessUnfold(j, v, queue, o);
    if j.Acceptable(v, o) && o.1.header.totalDifficulty > v.head.totalDifficulty {
      LastTurnIsLater([Turn(v, o)], TurnsTrace(j, v.Headed(j.hash, o.1), queue, |queue|), o);
    }
  }

  /** The block waits, is stored, or has a stored parent and bad content. */
  ghost predicate Handled(j: Judge, x: Orphaned, r: Outcome)
    requires Linked(r.view.headers)
  {
    || x in r.queue
    || j.hash(x.1.header) in r.view.blocks
    || (x.1.header.previous in r.view.blocks && x.1.header.previous in r.view.headers && !j.ContentFits(r.view.headers, x.1))
  }

  lemma HandledGoesOn(j: Judge, x: Orphaned, m: Outcome, r: Outcome)
    requires Linked(m.view.headers) && Linked(r.view.headers) && Grown(m.view, r.view)
    requires Handled(j, x, m) && (x in m.queue ==> Handled(j, x, r))
    ensures Handled(j, x, r)
  {
    hide Linked, Judge.HeaderFits, Judge.ContentFits;
    FitsStay(j, m.view, r.view, x);
  }

  /** A block with a good header that is not too far ahead is handled at its turn. */
  lemma HandledAtTurn(j: Judge, v: View, queue: seq<Orphaned>, x: Orphaned)
    requires j.Good(v) && !j.Acceptable(v, x)
    requires j.HeaderFits(v.headers, x.1.header, x.0) && x.1.header.height < v.head.height + MAX_ORPHANS
    ensures Handled(j, x, Outcome(v, if j.Waits(v, x) then Queued(queue, x) else queue))
  {
    hide Linked, Keyed, Injective, View.MostWork, Judge.HeaderFits, Judge.ContentFits;
    if x.1.header.previous in v.blocks {
      assert BlockStored(v.headers, v.blocks, x.1.header.previous);
    }
  }

  /** An orphan with a good header is handled at its last turn, unless the head has left it behind by then. */
  lemma {:induction false} ProcessAccounts(j: Judge, v: View, queue: seq<Orphaned>, o: Orphaned, x: Orphaned)
    requires j.Good(v) && |queue| <= MAX_ORPHANS
    requires x == o || (x in queue && (j.Acceptable(v, o) || |queue| < MAX_ORPHANS))
    requires j.HeaderFits(v.headers, x.1.header, x.0)
    ensures Handled(j, x, Process(j, v, queue, o)) || LeftBehind(ProcessTrace(j, v, queue, o), x)
    decreases |queue|, 2, 0
  {
    hide Linked, Keyed, Injective, BlocksStored, View.HeadStored, View.MostWork, Judge.HeaderFits, Judge.ContentFits, Judge.Acceptable;
    hide Judge.Waits, View.With, View.Headed, Process, ProcessTrace, Turns;
    ProcessUnfold(j, v, queue, o);
    if j.Acceptable(v, o) && o.1.header.totalDifficulty > v.head.totalDifficulty {
      var v' := v.Headed(j.hash, o.1);
      LastTurnIsLater([Turn(v, o)], TurnsTrace(j, v', queue, |queue|), x);
      FitsStay(j, v, v', x);
      if x in queue {
        TurnsAccount(j, v', queue, |queue|, x);
      }
    } else if !j.Acceptable(v, o) && x == o && !LeftBehind([Turn(v, o)], x) {
      HandledAtTurn(j, v, queue, x);
    }
  }

  lemma {:induction false} TurnsAccount(j: Judge, v: View, queue: seq<Orphaned>, n: nat, x: Orphaned)
    requires j.Good(v) && |queue| <= MAX_ORPHANS && x in queue
    requires j.HeaderFits(v.headers, x.1.header, x.0)
    ensures Handled(j, x, Turns(j, v, queue, n)) || LeftBehind(TurnsTrace(j, v, queue, n), x)
    decreases |queue|, 0, n
  {
    hide Linked, Keyed, Injective, BlocksStored, View.HeadStored, View.MostWork, Judge.HeaderFits, Judge.ContentFits, Judge.Acceptable;
    hide Process, ProcessTrace, Turns, TurnsTrace, Grown, LastTurn;
    TurnsUnfold(j, v, queue, n);
    TraceUnfold(j, v, queue, n);
    if n > 0 && queue != [] {
      var rest, o := queue[..|queue| - 1], queue[|queue| - 1];
      assert queue == rest + [o];
      var m := Process(j, v, rest, o);
      LastTurnIsLater(ProcessTrace(j, v, rest, o), TurnsTrace(j, m.view, m.queue, n - 1), x);
      ProcessAccounts(j, v, rest, o, x);
      FitsStay(j, v, m.view, x);
      if x in m.queue {
        TurnsAccount(j, m.view, m.queue, n - 1, x);
      } else {
        NoTurnOfOthers(j, m.view, m.queue, n - 1, x);
      }
      var r := Turns(j, m.view, m.queue, n - 1);
      if Handled(j, x, m) && (x in m.queue ==> Handled(j, x, r)) {
        HandledGoesOn(j, x, m, r);
      }
    }
  }

  lemma NoTurnOfOthers(j: Judge, v: View, queue: seq<Orphaned>, n: nat, x: Orphaned)
    requires j.Good(v) && |queue| <= MAX_ORPHANS && x !in queue
    ensures LastTurn(TurnsTrace(j, v, queue, n), x).None?
  {
    hide Judge.Good, TurnsTrace, Turns, LastTurn, Grown, HeadFrom;
    TurnsFrom(j, v, queue, n);
  }

  // ---------------------------------------------------------------- exactly the orphans left behind are lost

  /** The last turn of the orphan was under this head, and the orphan was near enough to be queued. */
  ghost predicate Settled(trace: seq<Turn>, head: Tip, x: Orphaned) {
    && LastTurn(trace, x).Some? && LastTurn(trace, x).value.head == head
    && x.1.header.height < head.height + MAX_ORPHANS
  }

  /** All orphans are settled but the last `n`, whose turns are still to come. */
  ghost predicate FrontSettled(trace: seq<Turn>, head: Tip, queue: seq<Orphaned>, n: nat) {
    forall i :: 0 <= i < |queue| - n ==> Settled(trace, head, queue[i])
  }

  lemma {:induction false} ProcessSettles(j: Judge, v: View, queue: seq<Orphaned>, o: Orphaned, n: nat, before: seq<Turn>)
    requires j.Good(v) && |queue| < MAX_ORPHANS && FrontSettled(before, v.head, queue, n)
    ensures var r := Process(j, v, queue, o);
      FrontSettled(before + ProcessTrace(j, v, queue, o), r.view.head, r.queue, n)
    decreases |queue|, 2, 0
  {
    hide Linked, Keyed, Injective, BlocksStored, View.HeadStored, View.MostWork, Judge.Acceptable, View.With, View.Headed, Process, ProcessTrace, Turns, TurnsTrace, Grown, LastTurn;
    ProcessUnfold(j, v, queue, o);
    LastOfOne(v, o);
    if j.Acceptable(v, o) && o.1.header.totalDifficulty > v.head.totalDifficulty {
      var v' := v.Headed(j.hash, o.1);
      TurnsSettle(j, v', queue, |queue|, before + [Turn(v, o)]);
      assert before + [Turn(v, o)] + TurnsTrace(j, v', queue, |queue|) == before + ([Turn(v, o)] + TurnsTrace(j, v', queue, |queue|));
    } else {
      forall x | Settled(before, v.head, x)
        ensures Settled(before + [Turn(v, o)], v.head, x)
      {
        LastTurnIsLater(before, [Turn(v, o)], x);
      }
      LastTurnIsLater(before, [Turn(v, o)], o);
    }
  }

  lemma LastOfOne(v: View, o: Orphaned)
    ensures forall x :: LastTurn([Turn(v, o)], x) == if x == o then Some(v) else None
  {
    assert [Turn(v, o)][..0] == [];
  }

  lemma {:induction false} TurnsSettle(j: Judge, v: View, queue: seq<Orphaned>, n: nat, before: seq<Turn>)
    requires j.Good(v) && |queue| <= MAX_ORPHANS && FrontSettled(before, v.head, queue, n)
    ensures var r := Turns(j, v, queue, n);
      FrontSettled(before + TurnsTrace(j, v, queue, n), r.view.head, r.queue, 0)
    decreases |queue|, 0, n
  {
    hide Judge.Good, Process, ProcessTrace, Turns, TurnsTrace, Grown, Settled;
    TurnsUnfold(j, v, queue, n);
    TraceUnfold(j, v, queue, n);
    if n > 0 && queue != [] {
      var rest, o := queue[..|queue| - 1], queue[|queue| - 1];
      var m := Process(j, v, rest, o);
      var a, b := ProcessTrace(j, v, rest, o), TurnsTrace(j, m.view, m.queue, n - 1);
      ProcessSettles(j, v, rest, o, n - 1, before);
      TurnsSettle(j, m.view, m.queue, n - 1, before + a);
      assert before + a + b == before + (a + b);
    } else {
      assert before + [] == before;
    }
  }

  /** Header and content are good, and so is the place in the chain, whatever the head. */
  ghost predicate Ready(j: Judge, v: View, x: Orphaned)
    requires Linked(v.headers)
  {
    && j.HeaderFits(v.headers, x.1.header, x.0)
    && x.1.header.previous in v.blocks && x.1.header.previous in v.headers && j.ContentFits(v.headers, x.1)
  }

  /** The retry neither stores the orphan nor queues it again. */
  ghost predicate Lost(j: Judge, x: Orphaned, r: Outcome) {
    x !in r.queue && j.hash(x.1.header) !in r.view.blocks
  }

  /** A retry loses an orphan that could be stored, but for its height, exactly when no turn stores its block
      and the head of the moment was too far below it at its last turn. */
  lemma LostIff(j: Judge, v: View, queue: seq<Orphaned>, x: Orphaned)
    requires j.Good(v) && |queue| <= MAX_ORPHANS && x in queue && Ready(j, v, x)
    ensures var trace := TurnsTrace(j, v, queue, |queue|);
      && LastTurn(trace, x).Some?
      && (Lost(j, x, Check(j, v, queue)) <==>
          && j.hash(x.1.header) !in v.blocks && !SomeTurnStores(j, trace, j.hash(x.1.header))
          && LastTurn(trace, x).value.head.height + MAX_ORPHANS <= x.1.header.height)
  {
    hide Linked, Keyed, Injective, BlocksStored, View.HeadStored, View.MostWork, Judge.HeaderFits, Judge.ContentFits;
    hide Turns, TurnsTrace, LastTurn, SomeTurnStores, Check;
    TurnsUnfold(j, v, queue, |queue|);
    QueuedIsSettled(j, v, queue, x);
    TurnsStore(j, v, queue, |queue|, j.hash(x.1.header));
    TurnsAccount(j, v, queue, |queue|, x);
    FitsStay(j, v, Check(j, v, queue).view, x);
  }

  /** Every orphan has a turn, and one that is queued in the end was near enough to the head at its last. */
  lemma QueuedIsSettled(j: Judge, v: View, queue: seq<Orphaned>, x: Orphaned)
    requires j.Good(v) && |queue| <= MAX_ORPHANS && x in queue
    ensures var trace := TurnsTrace(j, v, queue, |queue|);
      LastTurn(trace, x).Some? && (x in Turns(j, v, queue, |queue|).queue ==> !LeftBehind(trace, x))
  {
    hide Judge.Good, Turns, TurnsTrace, LastTurn, Grown;
    var r, trace := Turns(j, v, queue, |queue|), TurnsTrace(j, v, queue, |queue|);
    if LastTurn(trace, x).None? { TurnsKeep(j, v, queue, |queue|, x); }
    TurnsSettle(j, v, queue, |queue|, []);
    assert [] + trace == trace;
    if x in r.queue {
      var i :| 0 <= i < |r.queue| && r.queue[i] == x;
      assert Settled(trace, r.view.head, r.queue[i]);
    }
  }

  /** If no queued block with more work than the head is too far below it, an orphan that can be stored is not lost. */
  lemma AcceptableIsKept(j: Judge, v: View, queue: seq<Orphaned>, o: Orphaned)
    requires j.Good(v) && |queue| <= MAX_ORPHANS && o in queue && j.Acceptable(v, o)
    requires forall f :: f in queue && f.1.header.totalDifficulty > v.head.totalDifficulty ==>
      o.1.header.height < f.1.header.height + MAX_ORPHANS
    ensures !Lost(j, o, Check(j, v, queue))
  {
    hide Linked, Keyed, Injective, BlocksStored, View.HeadStored, View.MostWork, Judge.HeaderFits, Judge.ContentFits;
    hide Turns, TurnsTrace, LastTurn, SomeTurnStores, Grown;
    LostIff(j, v, queue, o);
    TurnsFrom(j, v, queue, |queue|);
    var trace := TurnsTrace(j, v, queue, |queue|);
    assert TurnFrom(j, v, queue, Turn(LastTurn(trace, o).value, o));
  }

  /** The condition is needed: a lower block that takes over the head loses an orphan that could be stored. */
  lemma LowerHeadLoses(j: Judge, v: View, o: Orphaned, f: Orphaned)
    requires j.Good(v) && j.Acceptable(v, o) && j.Acceptable(v, f)
    requires f.1.header.totalDifficulty > v.head.totalDifficulty && f.1.header.height + MAX_ORPHANS <= o.1.header.height
    ensures Check(j, v, [o, f]) == Outcome(v.Headed(j.hash, f.1), []) && Lost(j, o, Check(j, v, [o, f]))
  {
    hide Linked, Keyed, Injective, BlocksStored, View.HeadStored, View.MostWork, Judge.HeaderFits, Judge.ContentFits;
    hide Turns, Process, Check, View.With;
    var v' := v.Headed(j.hash, f.1);
    assert [o, f][..1] == [o] && [o][..0] == [];
    TurnsUnfold(j, v, [o, f], 2);
    ProcessUnfold(j, v, [o], f);
    TurnsUnfold(j, v', [o], 1);
    ProcessUnfold(j, v', [], o);
    TurnsUnfold(j, v', [], 0);
    TurnsUnfold(j, v', [], 1);
    NotStored(j, v, o, f);
  }

  /** An acceptable block is not stored yet, nor is it stored with a lower one. */
  lemma NotStored(j: Judge, v: View, o: Orphaned, f: Orphaned)
    requires j.Good(v) && j.Acceptable(v, o) && f.1.header.height < o.1.header.height
    ensures j.hash(o.1.header) !in v.blocks && j.hash(o.1.header) != j.hash(f.1.header)
  {
    hide Linked, BlocksStored, View.MostWork, RequiredAfter;
    KnownIffStored(j, v, j.hash(o.1.header));
  }

  /** The oldest orphan has its turn first, so it is stored if it can be. */
  lemma OldestIsTried(j: Judge, v: View, queue: seq<Orphaned>)
    requires j.Good(v) && 0 < |queue| <= MAX_ORPHANS && j.Acceptable(v, queue[|queue| - 1])
    ensures j.hash(queue[|queue| - 1].1.header) in Check(j, v, queue).view.blocks
  {
    hide Linked, Keyed, Injective, BlocksStored, View.MostWork, Judge.Acceptable, Turns, Check;
    var o := queue[|queue| - 1];
    TurnsUnfold(j, v, queue, |queue|);
    StoringKeeps(j, v, o);
  }

  // ---------------------------------------------------------------- retries that leave the head alone

  /** One turn in which no block becomes the head. */
  ghost function ForkTurn(j: Judge, v: View, o: Orphaned): (r: View)
    requires j.Good(v)
    ensures j.Good(r) && r.head == v.head
  {
    if IsStored(j, v, o) then
      hide Linked, Keyed, Injective, BlocksStored, View.MostWork, Judge.Acceptable;
      StoringKeeps(j, v, o);
      v.With(j.hash, o.1)
    else v
  }

  /** The turn of `o` stores it, on a fork. */
  ghost predicate IsStored(j: Judge, v: View, o: Orphaned)
    requires Linked(v.headers)
  {
    j.Acceptable(v, o) && o.1.header.totalDifficulty <= v.head.totalDifficulty
  }

  /** The view when orphan number `m - 1` has its turn: those from `m` on have had theirs, the last one first. */
  ghost function ViewAt(j: Judge, v: View, queue: seq<Orphaned>, m: nat): (r: View)
    requires j.Good(v) && m <= |queue|
    ensures j.Good(r) && r.head == v.head
    decreases |queue| - m
  {
    if m == |queue| then v else ForkTurn(j, ViewAt(j, v, queue, m + 1), queue[m])
  }

  /** The orphans from number `m` on that wait at their own turn, in their order in the queue. */
  ghost function WaitingFrom(j: Judge, v: View, queue: seq<Orphaned>, m: nat): (r: seq<Orphaned>)
    requires j.Good(v) && m <= |queue|
    ensures |r| <= |queue| - m
    decreases |queue| - m
  {
    if m == |queue| then []
    else if j.Waits(ViewAt(j, v, queue, m + 1), queue[m]) then [queue[m]] + WaitingFrom(j, v, queue, m + 1)
    else WaitingFrom(j, v, queue, m + 1)
  }

  /** As long as the head stays, a retry of the queue is one pass over it, the oldest orphan first. */
  lemma CheckIsOnePass(j: Judge, v: View, queue: seq<Orphaned>)
    requires j.Good(v) && |queue| <= MAX_ORPHANS && Check(j, v, queue).view.head == v.head
    ensures Check(j, v, queue) == Outcome(ViewAt(j, v, queue, 0), WaitingFrom(j, v, queue, 0))
  {
    assert queue[..|queue|] == queue;
    assert WaitingFrom(j, v, queue, |queue|) + queue == queue;
    TurnsAreOnePass(j, v, queue, |queue|);
  }

  lemma {:induction false} TurnsAreOnePass(j: Judge, v: View, queue: seq<Orphaned>, m: nat)
    requires j.Good(v) && |queue| <= MAX_ORPHANS && m <= |queue|
    requires Turns(j, ViewAt(j, v, queue, m), WaitingFrom(j, v, queue, m) + queue[..m], m).view.head == v.head
    ensures Turns(j, ViewAt(j, v, queue, m), WaitingFrom(j, v, queue, m) + queue[..m], m) ==
            Outcome(ViewAt(j, v, queue, 0), WaitingFrom(j, v, queue, 0))
  {
    hide Linked, Keyed, Injective, BlocksStored, View.MostWork, Turns, Process, ForkTurn;
    var w, q := ViewAt(j, v, queue, m), WaitingFrom(j, v, queue, m) + queue[..m];
    TurnsUnfold(j, w, q, m);
    if m == 0 {
      assert q == WaitingFrom(j, v, queue, 0);
    } else {
      var rest, o := WaitingFrom(j, v, queue, m) + queue[..m - 1], queue[m - 1];
      assert q[..|q| - 1] == rest && q[|q| - 1] == o;
      var r := Process(j, w, rest, o);
      OneTurn(j, w, rest, o);
      assert r.view == ForkTurn(j, w, o);
      assert r.queue == WaitingFrom(j, v, queue, m - 1) + queue[..m - 1];
      TurnsAreOnePass(j, v, queue, m - 1);
    }
  }

  /** A turn that leaves the head alone stores the orphan on a fork, queues it again or drops it. */
  lemma OneTurn(j: Judge, v: View, rest: seq<Orphaned>, o: Orphaned)
    requires j.Good(v) && |rest| < MAX_ORPHANS
    ensures var r := Process(j, v, rest, o);
      || (r.view.head != v.head && r.view.head.totalDifficulty > v.head.totalDifficulty)
      || r == Outcome(ForkTurn(j, v, o), if j.Waits(v, o) then [o] + rest else rest)
  {
    hide Linked, Keyed, Injective, BlocksStored, View.MostWork, Judge.HeaderFits, Judge.ContentFits, Turns;
    if j.Acceptable(v, o) {
      StoringKeeps(j, v, o);
    }
  }

  // ---------------------------------------------------------------- orphans left behind their parents

  ghost predicate WaitsAt(j: Judge, v: View, queue: seq<Orphaned>, i: nat)
    requires j.Good(v) && i < |queue|
  {
    j.Waits(ViewAt(j, v, queue, i + 1), queue[i])
  }

  /** The turn of orphan number `i` stores the block `k`. */
  ghost predicate StoresAt(j: Judge, v: View, queue: seq<Orphaned>, i: nat, k: BlockHash)
    requires j.Good(v) && i < |queue|
  {
    j.hash(queue[i].1.header) == k && IsStored(j, ViewAt(j, v, queue, i + 1), queue[i])
  }

  /** Some turn after that of orphan number `n` stores the block `k`. */
  ghost predicate StoredLater(j: Judge, v: View, queue: seq<Orphaned>, n: nat, k: BlockHash)
    requires j.Good(v) && n <= |queue|
  {
    exists i: nat :: i < n && StoresAt(j, v, queue, i, k)
  }

  ghost predicate WaitsFrom(j: Judge, v: View, queue: seq<Orphaned>, m: nat, o: Orphaned)
    requires j.Good(v) && m <= |queue|
  {
    exists i: nat :: m <= i < |queue| && queue[i] == o && WaitsAt(j, v, queue, i)
  }

  lemma {:induction false} WaitingAre(j: Judge, v: View, queue: seq<Orphaned>, m: nat, o: Orphaned)
    requires j.Good(v) && m <= |queue|
    ensures o in WaitingFrom(j, v, queue, m) <==> WaitsFrom(j, v, queue, m, o)
    decreases |queue| - m
  {
    hide Linked, Keyed, Injective, BlocksStored, View.HeadStored, View.MostWork, WaitsFrom, WaitsAt, ViewAt;
    if m < |queue| {
      WaitingAre(j, v, queue, m + 1, o);
      WaitsFromNext(j, v, queue, m, o);
    } else {
      WaitsFromEnd(j, v, queue, o);
    }
  }

  lemma WaitsFromNext(j: Judge, v: View, queue: seq<Orphaned>, m: nat, o: Orphaned)
    requires j.Good(v) && m < |queue|
    ensures WaitsFrom(j, v, queue, m, o) <==>
            (queue[m] == o && j.Waits(ViewAt(j, v, queue, m + 1), queue[m])) || WaitsFrom(j, v, queue, m + 1, o)
  {
    hide Linked, Keyed, Injective, BlocksStored, View.HeadStored, View.MostWork, Judge.Waits, ViewAt;
    assert WaitsAt(j, v, queue, m) <==> j.Waits(ViewAt(j, v, queue, m + 1), queue[m]);
  }

  lemma WaitsFromEnd(j: Judge, v: View, queue: seq<Orphaned>, o: Orphaned)
    requires j.Good(v)
    ensures !WaitsFrom(j, v, queue, |queue|, o)
  {
  }

  lemma {:induction false} BlocksAfter(j: Judge, v: View, queue: seq<Orphaned>, n: nat, k: BlockHash)
    requires j.Good(v) && n <= |queue|
    ensures k in ViewAt(j, v, queue, 0).blocks <==>
            k in ViewAt(j, v, queue, n).blocks || StoredLater(j, v, queue, n, k)
  {
    hide Linked, Keyed, Injective, BlocksStored, View.MostWork, Judge.Acceptable;
    if n > 0 {
      BlocksAfter(j, v, queue, n - 1, k);
      var w := ViewAt(j, v, queue, n);
      assert ViewAt(j, v, queue, n - 1) == ForkTurn(j, w, queue[n - 1]);
      if StoresAt(j, v, queue, n - 1, k) { assert StoredLater(j, v, queue, n, k); }
    }
  }

  /** Orphan number `i` waits at its turn, and its parent is stored later, or was while the orphan is still too high. */
  ghost predicate Stranded(j: Judge, v: View, queue: seq<Orphaned>, i: nat)
    requires j.Good(v) && i < |queue|
  {
    var h := queue[i].1.header;
    && WaitsAt(j, v, queue, i)
    && (|| StoredLater(j, v, queue, i, h.previous)
        || (h.height > v.head.height + 1 && h.previous in ViewAt(j, v, queue, i + 1).blocks))
  }

  /** When the head stays, exactly the stranded orphans end up waiting although their parents are stored. */
  lemma StrandedIff(j: Judge, v: View, queue: seq<Orphaned>, o: Orphaned)
    requires j.Good(v) && |queue| <= MAX_ORPHANS && Check(j, v, queue).view.head == v.head
    ensures var r := Check(j, v, queue);
      o in r.queue && o.1.header.previous in r.view.blocks <==>
      exists i: nat :: i < |queue| && queue[i] == o && Stranded(j, v, queue, i)
  {
    hide Linked, Keyed, Injective, BlocksStored, View.MostWork, Judge.HeaderFits, Judge.ContentFits, Check, ViewAt, StoredLater;
    var p := o.1.header.previous;
    CheckIsOnePass(j, v, queue);
    WaitingAre(j, v, queue, 0, o);
    forall i: nat | i < |queue| && queue[i] == o && WaitsAt(j, v, queue, i)
      ensures p in ViewAt(j, v, queue, 0).blocks <==> Stranded(j, v, queue, i)
    {
      BlocksAfter(j, v, queue, i + 1, p);
      WaiterStoresNothing(j, v, queue, i, p);
    }
  }

  /** The turn of an orphan that waits stores nothing. */
  lemma WaiterStoresNothing(j: Judge, v: View, queue: seq<Orphaned>, i: nat, k: BlockHash)
    requires j.Good(v) && i < |queue| && WaitsAt(j, v, queue, i)
    ensures StoredLater(j, v, queue, i + 1, k) <==> StoredLater(j, v, queue, i, k)
  {
    hide Linked, Keyed, Injective, BlocksStored, View.MostWork, Judge.HeaderFits, Judge.ContentFits, ViewAt;
    if StoredLater(j, v, queue, i + 1, k) {
      var n: nat :| n < i + 1 && StoresAt(j, v, queue, n, k);
      assert n != i;
    }
  }
}
