/** Difficulty retargeting: the rule for the difficulty that the next block must meet. */
module Consensus {
  import opened Wrappers

  const BLOCK_TIME_SEC: nat := 60
  const MINIMUM_DIFFICULTY: nat := 10
  const MEDIAN_TIME_WINDOW: nat := 11
  const DIFFICULTY_ADJUST_WINDOW: nat := 23
  const BLOCK_TIME_WINDOW: nat := DIFFICULTY_ADJUST_WINDOW * BLOCK_TIME_SEC
  const UPPER_TIME_BOUND: nat := BLOCK_TIME_WINDOW * 4 / 3
  const LOWER_TIME_BOUND: nat := BLOCK_TIME_WINDOW * 5 / 6
  const HARD_FORK_INTERVAL: nat := 250_000

  predicate ValidHeaderVersion(height: nat, version: nat) {
    height <= HARD_FORK_INTERVAL && version == 1
  }

  /** A timestamp and a difficulty, for each block from the latest to the oldest. */
  datatype Sample = Sample(timestamp: nat, difficulty: nat)

  /** Reading the history failed, or the median times ran backwards (the subtraction underflows: it panics or, unchecked, wraps). */
  datatype DifficultyError = TargetError | TimeUnderflow

  // ---------------------------------------------------------------- sorting

  ghost predicate Sorted(s: seq<nat>) {
    forall i, j :: 0 <= i < j < |s| ==> s[i] <= s[j]
  }

  function Insert(x: nat, s: seq<nat>): (r: seq<nat>)
    requires Sorted(s)
    ensures Sorted(r) && multiset(r) == multiset(s) + multiset{x}
  {
    if s == [] || x <= s[0] then [x] + s
    else
      assert s == [s[0]] + s[1..];
      var rest := Insert(x, s[1..]);
      PrependSorted(s, x, rest);
      [s[0]] + rest
  }

  lemma PrependSorted(s: seq<nat>, x: nat, rest: seq<nat>)
    requires s != [] && Sorted(s) && s[0] < x
    requires Sorted(rest) && multiset(rest) == multiset(s[1..]) + multiset{x}
    ensures Sorted([s[0]] + rest)
  {
    forall i | 0 <= i < |rest|
      ensures s[0] <= rest[i]
    {
      assert rest[i] in multiset(rest);
      if rest[i] != x {
        assert rest[i] in s[1..];
      }
    }
  }

  function Sort(s: seq<nat>): (r: seq<nat>)
    ensures Sorted(r) && multiset(r) == multiset(s) && |r| == |s|
  {
    if s == [] then [] else
      assert s == [s[0]] + s[1..];
      Insert(s[0], Sort(s[1..]))
  }

  lemma {:induction false} SortedIsUnique(a: seq<nat>, b: seq<nat>)
    requires Sorted(a) && Sorted(b) && multiset(a) == multiset(b)
    ensures a == b
  {
    assert |a| == |multiset(a)| == |multiset(b)| == |b|;
    if a != [] {
      LeastIsFirst(a, b);
      LeastIsFirst(b, a);
      assert a == [a[0]] + a[1..] && b == [b[0]] + b[1..];
      assert multiset(a[1..]) == multiset(a) - multiset{a[0]};
      assert multiset(b[1..]) == multiset(b) - multiset{b[0]};
      SortedIsUnique(a[1..], b[1..]);
    }
  }

  lemma LeastIsFirst(a: seq<nat>, b: seq<nat>)
    requires Sorted(a) && multiset(a) == multiset(b) && a != [] && b != []
    ensures a[0] <= b[0]
  {
    assert b[0] in multiset(a);
    var i :| 0 <= i < |a| && a[i] == b[0];
  }

  // ---------------------------------------------------------------- medians

  ghost predicate NeverIncreasing(h: seq<Sample>) {
    forall i, j :: 0 <= i < j < |h| ==> h[i].timestamp >= h[j].timestamp
  }

  ghost predicate StrictlyDecreasing(h: seq<Sample>) {
    forall i, j :: 0 <= i < j < |h| ==> h[i].timestamp > h[j].timestamp
  }

  function Times(h: seq<Sample>): (ts: seq<nat>)
    ensures |ts| == |h|
  {
    seq(|h|, i requires 0 <= i < |h| => h[i].timestamp)
  }

  /** The middle element once sorted. */
  function Median(ts: seq<nat>): nat
    requires |ts| > 0
  {
    Sort(ts)[|ts| / 2]
  }

  ghost function Reverse(s: seq<nat>): (r: seq<nat>)
    ensures |r| == |s| && forall i :: 0 <= i < |s| ==> r[i] == s[|s| - 1 - i]
    ensures multiset(r) == multiset(s)
  {
    if s == [] then [] else
      assert s == [s[0]] + s[1..];
      Reverse(s[1..]) + [s[0]]
  }

  lemma ReverseIsSorted(h: seq<Sample>)
    requires NeverIncreasing(h)
    ensures Sorted(Reverse(Times(h)))
  {
  }

  /** Over blocks in order, the median time is that of the block in the middle. */
  lemma MedianIsMiddle(h: seq<Sample>)
    requires NeverIncreasing(h) && |h| % 2 == 1
    ensures Median(Times(h)) == h[|h| / 2].timestamp
  {
    hide Sort, Reverse, Sorted;
    var ts := Times(h);
    ReverseIsSorted(h);
    SortedIsUnique(Sort(ts), Reverse(ts));
  }

  // ---------------------------------------------------------------- the rule

  function SumDifficulty(h: seq<Sample>): nat {
    if h == [] then 0 else SumDifficulty(h[..|h| - 1]) + h[|h| - 1].difficulty
  }

  function First(h: seq<Sample>, n: nat): seq<Sample> {
    if |h| < n then h else h[..n]
  }

  lemma SumStep(h: seq<Sample>, x: Sample)
    ensures SumDifficulty(First(h + [x], DIFFICULTY_ADJUST_WINDOW)) ==
            SumDifficulty(First(h, DIFFICULTY_ADJUST_WINDOW)) + if |h| < DIFFICULTY_ADJUST_WINDOW then x.difficulty else 0
  {
    var w := First(h + [x], DIFFICULTY_ADJUST_WINDOW);
    if |h| < DIFFICULTY_ADJUST_WINDOW {
      assert w == h + [x] && w[..|w| - 1] == h;
    } else {
      assert w == First(h, DIFFICULTY_ADJUST_WINDOW);
    }
  }

  /** The new difficulty, from the average difficulty and the time the window took. */
  function Retarget(average: nat, span: nat): nat {
    var difficulty := average * BLOCK_TIME_WINDOW / Adjusted(span);
    if difficulty > MINIMUM_DIFFICULTY then difficulty else MINIMUM_DIFFICULTY
  }

  /** The specification of `next_difficulty` on a history read without errors. */
  ghost function Required(h: seq<Sample>): Result<nat, DifficultyError> {
    if |h| < DIFFICULTY_ADJUST_WINDOW + MEDIAN_TIME_WINDOW then Ok(MINIMUM_DIFFICULTY)
    else
      var begin := Median(Times(h[..MEDIAN_TIME_WINDOW]));
      var end := Median(Times(h[DIFFICULTY_ADJUST_WINDOW..DIFFICULTY_ADJUST_WINDOW + MEDIAN_TIME_WINDOW]));
      if begin < end then Err(TimeUnderflow)
      else Ok(Retarget(SumDifficulty(h[..DIFFICULTY_ADJUST_WINDOW]) / DIFFICULTY_ADJUST_WINDOW, begin - end))
  }

  /** How many entries of the cursor are read: the loop stops at the one past both windows. */
  function Read(n: nat): nat {
    var last := DIFFICULTY_ADJUST_WINDOW + MEDIAN_TIME_WINDOW + 1;
    if n < last then n else last
  }

  /** Only the two windows matter. */
  lemma RequiredReadsWindows(h: seq<Sample>, read: seq<Sample>)
    requires read == First(h, DIFFICULTY_ADJUST_WINDOW + MEDIAN_TIME_WINDOW)
    ensures Required(h) == Required(read)
  {
    if |h| >= 34 {
      assert h[..11] == read[..11] && h[23..34] == read[23..34] && h[..23] == read[..23];
    }
  }

  /** Every entry that gets read is there. */
  ghost predicate Readable(cursor: seq<Result<Sample, DifficultyError>>) {
    forall i :: 0 <= i < Read(|cursor|) ==> cursor[i].Ok?
  }

  ghost function Values(cursor: seq<Result<Sample, DifficultyError>>, n: nat): (h: seq<Sample>)
    requires n <= |cursor| && forall i :: 0 <= i < n ==> cursor[i].Ok?
    ensures |h| == n
  {
    seq(n, i requires 0 <= i < n => cursor[i].value)
  }

  /** The times in the two median windows, and the sum of difficulties in the adjustment window. */
  datatype Windows = Windows(begin: seq<nat>, end: seq<nat>, diffSum: nat)

  ghost function WindowsOf(h: seq<Sample>): Windows {
    Windows(
      Times(First(h, MEDIAN_TIME_WINDOW)),
      if |h| < DIFFICULTY_ADJUST_WINDOW then []
      else Times(First(h, DIFFICULTY_ADJUST_WINDOW + MEDIAN_TIME_WINDOW)[DIFFICULTY_ADJUST_WINDOW..]),
      SumDifficulty(First(h, DIFFICULTY_ADJUST_WINDOW)))
  }

  /** The entry `x` as the loop adds it to the windows when `m` entries have been read. */
  function WithSample(w: Windows, m: nat, x: Sample): Windows {
    if m < DIFFICULTY_ADJUST_WINDOW then
      Windows(if m < MEDIAN_TIME_WINDOW then w.begin + [x.timestamp] else w.begin, w.end, w.diffSum + x.difficulty)
    else
      w.(end := w.end + [x.timestamp])
  }

  lemma WindowsGrow(h: seq<Sample>, x: Sample)
    requires |h| < DIFFICULTY_ADJUST_WINDOW + MEDIAN_TIME_WINDOW
    ensures WindowsOf(h + [x]) == WithSample(WindowsOf(h), |h|, x)
  {
    SumStep(h, x);
    hide SumDifficulty;
    var a, b := WindowsOf(h + [x]), WithSample(WindowsOf(h), |h|, x);
    assert a.begin == b.begin;
    assert a.end == b.end;
  }

  lemma NoWindows()
    ensures WindowsOf([]) == Windows([], [], 0)
  {
  }

  lemma WindowsAreFull(h: seq<Sample>, x: Sample)
    requires |h| == DIFFICULTY_ADJUST_WINDOW + MEDIAN_TIME_WINDOW
    ensures WindowsOf(h + [x]) == WindowsOf(h)
  {
    assert (h + [x])[..11] == h[..11] && (h + [x])[..23] == h[..23] && (h + [x])[..34] == h[..34];
  }

  /** Reads the cursor backward over the blocks, until both windows are full. */
  method CollectWindows(cursor: seq<Result<Sample, DifficultyError>>) returns (r: Result<Windows, DifficultyError>)
    ensures Readable(cursor) ==> r == Ok(WindowsOf(Values(cursor, Read(|cursor|))))
    ensures !Readable(cursor) ==> exists i :: 0 <= i < Read(|cursor|) && cursor[i].Err? && r == Err(cursor[i].error)
  {
    NoWindows();
    hide WindowsOf, WithSample, SumDifficulty;
    var w := Windows([], [], 0);
    var m: nat := 0;
    while m < |cursor|
      invariant m <= |cursor| && m <= DIFFICULTY_ADJUST_WINDOW + MEDIAN_TIME_WINDOW
      invariant forall i :: 0 <= i < m ==> cursor[i].Ok?
      invariant w == WindowsOf(Values(cursor, m))
    {
      if cursor[m].Err? {
        return Err(cursor[m].error);
      }
      var x := cursor[m].value;
      if m >= DIFFICULTY_ADJUST_WINDOW + MEDIAN_TIME_WINDOW {
        WindowsAreFull(Values(cursor, m), x);
        assert Values(cursor, m + 1) == Values(cursor, m) + [x];
        break;
      }
      WindowsGrow(Values(cursor, m), x);
      assert Values(cursor, m + 1) == Values(cursor, m) + [x];
      w := WithSample(w, m, x);
      m := m + 1;
    }
    return Ok(w);
  }

  /** The difficulty that full windows call for; the minimum, when there are too few blocks. */
  function FromWindows(w: Windows): (r: Result<nat, DifficultyError>)
    requires |w.end| > 0 ==> |w.begin| > 0
  {
    if |w.end| < MEDIAN_TIME_WINDOW then Ok(MINIMUM_DIFFICULTY)
    else
      var beginTs := Median(w.begin);
      var endTs := Median(w.end);
      if beginTs < endTs then Err(TimeUnderflow)
      else Ok(Retarget(w.diffSum / DIFFICULTY_ADJUST_WINDOW, beginTs - endTs))
  }

  lemma RequiredFromWindows(h: seq<Sample>)
    ensures |WindowsOf(h).end| > 0 ==> |WindowsOf(h).begin| > 0
    ensures Required(h) == FromWindows(WindowsOf(h))
  {
    hide Median, Retarget, SumDifficulty;
    if |h| >= 34 {
      assert First(h, 34)[23..] == h[23..34];
    }
  }

  method NextDifficulty(cursor: seq<Result<Sample, DifficultyError>>) returns (r: Result<nat, DifficultyError>)
    ensures Readable(cursor) ==> r == Required(Values(cursor, Read(|cursor|)))
    ensures !Readable(cursor) ==> exists i :: 0 <= i < Read(|cursor|) && cursor[i].Err? && r == Err(cursor[i].error)
    // one entry past both windows is read, although only an error there matters
    ensures |cursor| > 34 && cursor[34].Err? && (forall i :: 0 <= i < 34 ==> cursor[i].Ok?) ==> r == Err(cursor[34].error)
  {
    var collected := CollectWindows(cursor);
    match collected {
      case Err(e) =>
        r := Err(e);
      case Ok(w) =>
        RequiredFromWindows(Values(cursor, Read(|cursor|)));
        r := FromWindows(w);
    }
  }

  // ---------------------------------------------------------------- what the rule promises

  lemma ProductMonotone(a: nat, b: nat, c: nat)
    requires a <= b
    ensures a * c <= b * c
  {
  }

  lemma QuotientAntitone(a: nat, d: nat, e: nat)
    requires 0 < d <= e
    ensures a / e <= a / d
  {
    var q, r := a / d, a / e;
    assert a < (q + 1) * d && r * e <= a;
    ProductMonotone(d, e, r);
    if r > q {
      ProductMonotone(q + 1, r, d);
    }
  }

  function AtLeastMinimum(d: nat): nat {
    if d > MINIMUM_DIFFICULTY then d else MINIMUM_DIFFICULTY
  }

  /** The clamped time that a span of time between the medians counts for. */
  function Adjusted(span: nat): (t: nat)
    ensures LOWER_TIME_BOUND <= t <= UPPER_TIME_BOUND
    ensures span == BLOCK_TIME_WINDOW ==> t == BLOCK_TIME_WINDOW
  {
    var damped := (3 * BLOCK_TIME_WINDOW + span) / 4;
    if damped < LOWER_TIME_BOUND then LOWER_TIME_BOUND
    else if damped > UPPER_TIME_BOUND then UPPER_TIME_BOUND
    else damped
  }

  lemma BoundQuotients(average: nat)
    ensures average * BLOCK_TIME_WINDOW / UPPER_TIME_BOUND == 3 * average / 4
    ensures average * BLOCK_TIME_WINDOW / LOWER_TIME_BOUND == 6 * average / 5
  {
    assert BLOCK_TIME_WINDOW == 1380 && UPPER_TIME_BOUND == 1840 && LOWER_TIME_BOUND == 1150;
    assert 1380 * average == 460 * (3 * average) && 1380 * average == 230 * (6 * average);
  }

  /** The difficulty moves down by a quarter at most, and up by a fifth at most. */
  lemma RetargetBounds(average: nat, span: nat)
    ensures AtLeastMinimum(3 * average / 4) <= Retarget(average, span) <= AtLeastMinimum(6 * average / 5)
  {
    QuotientAntitone(average * BLOCK_TIME_WINDOW, Adjusted(span), UPPER_TIME_BOUND);
    QuotientAntitone(average * BLOCK_TIME_WINDOW, LOWER_TIME_BOUND, Adjusted(span));
    BoundQuotients(average);
  }

  /** Slower blocks never make the difficulty rise. */
  lemma RetargetAntitone(average: nat, fast: nat, slow: nat)
    requires fast <= slow
    ensures Retarget(average, slow) <= Retarget(average, fast)
  {
    QuotientAntitone(average * BLOCK_TIME_WINDOW, Adjusted(fast), Adjusted(slow));
  }

  /** Between its bounds, the time counts for the window and a quarter of what the span differs from it. */
  lemma AdjustedIsDamped(span: nat)
    ensures 4 * LOWER_TIME_BOUND <= 3 * BLOCK_TIME_WINDOW + span < 4 * UPPER_TIME_BOUND + 4 ==>
      0 <= 3 * BLOCK_TIME_WINDOW + span - 4 * Adjusted(span) < 4
    ensures 3 * BLOCK_TIME_WINDOW + span < 4 * LOWER_TIME_BOUND ==> Adjusted(span) == LOWER_TIME_BOUND
    ensures 3 * BLOCK_TIME_WINDOW + span >= 4 * UPPER_TIME_BOUND ==> Adjusted(span) == UPPER_TIME_BOUND
  {
    var x := 3 * BLOCK_TIME_WINDOW + span;
    assert x == 4 * (x / 4) + x % 4;
  }

  /** At a difficulty of 1000, intervals of 90, 120, 55, 45 and 20 seconds. */
  lemma KnownAdjustments()
    ensures Retarget(1000, 23 * 90) == 889 && Retarget(1000, 23 * 120) == 800
    ensures Retarget(1000, 23 * 55) == 1021 && Retarget(1000, 23 * 45) == 1067 && Retarget(1000, 23 * 20) == 1200
  {
    assert Adjusted(2070) == 1552 && Adjusted(2760) == 1725 && Adjusted(1265) == 1351;
    assert Adjusted(1035) == 1293 && Adjusted(460) == 1150;
  }

  /** From 160 seconds on, the difficulty goes down by a quarter. */
  lemma SlowestAdjustment(d: nat, interval: nat)
    requires interval >= 160
    ensures Retarget(d, 23 * interval) == AtLeastMinimum(3 * d / 4)
  {
    AdjustedIsDamped(23 * interval);
    BoundQuotients(d);
  }

  ghost function Average(h: seq<Sample>): nat
    requires |h| >= DIFFICULTY_ADJUST_WINDOW
  {
    SumDifficulty(h[..DIFFICULTY_ADJUST_WINDOW]) / DIFFICULTY_ADJUST_WINDOW
  }

  ghost predicate LongEnough(h: seq<Sample>) {
    |h| >= DIFFICULTY_ADJUST_WINDOW + MEDIAN_TIME_WINDOW
  }

  /** Over blocks whose times never run backwards, the span is that between the middle blocks. */
  lemma RequiredInOrder(h: seq<Sample>)
    requires LongEnough(h) && NeverIncreasing(h)
    ensures h[5].timestamp >= h[28].timestamp
    ensures Required(h) == Ok(Retarget(Average(h), h[5].timestamp - h[28].timestamp))
  {
    MedianIsMiddle(h[..11]);
    MedianIsMiddle(h[23..34]);
  }

  lemma {:induction false} SpreadGrows(h: seq<Sample>, i: nat, j: nat)
    requires StrictlyDecreasing(h) && i <= j < |h|
    ensures h[i].timestamp - h[j].timestamp >= j - i
    decreases j - i
  {
    if i < j {
      SpreadGrows(h, i, j - 1);
    }
  }

  /** With strictly increasing times the required difficulty exists and stays within its bounds. */
  lemma RequiredWithinBounds(h: seq<Sample>)
    requires LongEnough(h) && StrictlyDecreasing(h)
    ensures h[5].timestamp - h[28].timestamp >= 23
    ensures Required(h).Ok?
    ensures AtLeastMinimum(3 * Average(h) / 4) <= Required(h).value <= AtLeastMinimum(6 * Average(h) / 5)
  {
    SpreadGrows(h, 5, 28);
    RequiredInOrder(h);
    RetargetBounds(Average(h), h[5].timestamp - h[28].timestamp);
  }

  lemma {:induction false} ConstantSum(h: seq<Sample>, d: nat)
    requires forall i :: 0 <= i < |h| ==> h[i].difficulty == d
    ensures SumDifficulty(h) == |h| * d
  {
    if h != [] {
      ConstantSum(h[..|h| - 1], d);
      assert (|h| - 1) * d + d == |h| * d;
    }
  }

  /** Blocks at a constant difficulty and a constant interval. */
  ghost predicate Steady(h: seq<Sample>, d: nat, interval: nat) {
    && (forall i :: 0 <= i < |h| ==> h[i].difficulty == d)
    && (forall i :: 0 <= i < |h| - 1 ==> h[i].timestamp == h[i + 1].timestamp + interval)
  }

  /** Steady blocks are retargeted by 23 of their intervals; while they are too few, the minimum will do. */
  lemma SteadyRetarget(h: seq<Sample>, d: nat, interval: nat)
    requires Steady(h, d, interval)
    ensures LongEnough(h) ==> Required(h) == Ok(Retarget(d, 23 * interval))
    ensures |h| < 34 ==> Required(h) == Ok(MINIMUM_DIFFICULTY)
  {
    hide Retarget;
    if LongEnough(h) {
      forall i, j | 0 <= i < j < |h|
        ensures h[i].timestamp >= h[j].timestamp
      {
        ScheduleGap(h, d, interval, i, j);
      }
      RequiredInOrder(h);
      ScheduleGap(h, d, interval, 5, 28);
      ConstantSum(h[..23], d);
      assert 23 * d / 23 == d;
    }
  }

  /** Blocks on schedule, at a constant difficulty of at least the minimum, keep that difficulty. */
  lemma OnScheduleIsFixed(h: seq<Sample>, d: nat)
    requires LongEnough(h) && d >= MINIMUM_DIFFICULTY && Steady(h, d, BLOCK_TIME_SEC)
    ensures Required(h) == Ok(d)
  {
    SteadyRetarget(h, d, BLOCK_TIME_SEC);
    assert d * BLOCK_TIME_WINDOW / BLOCK_TIME_WINDOW == d;
  }

  lemma {:induction false} ScheduleGap(h: seq<Sample>, d: nat, interval: nat, i: nat, j: nat)
    requires Steady(h, d, interval) && i <= j < |h|
    ensures h[i].timestamp == h[j].timestamp + interval * (j - i)
    ensures h[i].timestamp >= h[j].timestamp
    decreases j - i
  {
    if i < j {
      ScheduleGap(h, d, interval, i, j - 1);
      assert interval * (j - i) == interval * (j - 1 - i) + interval;
    }
  }
}
