/** The persistent backend of the sum trees: an append-only file, a write buffer and a remove log. */
module SumTreeStore {
  import opened Wrappers

  /** A position to be removed, and the index of the block that removes it. */
  datatype LogEntry = LogEntry(position: nat, index: nat)

  predicate Less(a: LogEntry, b: LogEntry) {
    a.position < b.position || (a.position == b.position && a.index < b.index)
  }

  /** Strictly ordered: sorted, and without duplicates. */
  ghost predicate Ordered(v: seq<LogEntry>) {
    forall i, j :: 0 <= i < j < |v| ==> Less(v[i], v[j])
  }

  ghost predicate Logged(v: seq<LogEntry>, p: nat) {
    exists e :: e in v && e.position == p
  }

  ghost predicate NoZeroIndex(v: seq<LogEntry>) {
    forall e :: e in v ==> e.index > 0
  }

  /** Where `e` is in the log, or where it belongs. */
  method BinarySearch(v: seq<LogEntry>, e: LogEntry) returns (found: bool, at: nat)
    requires Ordered(v)
    ensures at <= |v|
    ensures found ==> at < |v| && v[at] == e
    ensures !found ==> (forall i :: 0 <= i < at ==> Less(v[i], e)) && (forall i :: at <= i < |v| ==> Less(e, v[i]))
  {
    var lo, hi := 0, |v|;
    while lo < hi
      invariant 0 <= lo <= hi <= |v|
      invariant forall i :: 0 <= i < lo ==> Less(v[i], e)
      invariant forall i :: hi <= i < |v| ==> Less(e, v[i])
    {
      var mid := (lo + hi) / 2;
      if v[mid] == e {
        return true, mid;
      } else if Less(v[mid], e) {
        lo := mid + 1;
      } else {
        hi := mid;
      }
    }
    return false, lo;
  }

  /** Adds one entry to an ordered log, unless it is there. */
  method InsertEntry(v: seq<LogEntry>, e: LogEntry) returns (r: seq<LogEntry>)
    requires Ordered(v)
    ensures Ordered(r) && forall x :: x in r <==> x in v || x == e
  {
    var found, at := BinarySearch(v, e);
    if found {
      return v;
    }
    r := v[..at] + [e] + v[at..];
    assert v == v[..at] + v[at..];
  }

  /** Looks for a position in the log, by where the entry `(p, 0)` would belong. */
  method IncludeTuple(v: seq<LogEntry>, p: nat) returns (b: bool)
    requires Ordered(v)
    ensures b <==> Logged(v, p) && LogEntry(p, 0) !in v
  {
    var found, at := BinarySearch(v, LogEntry(p, 0));
    if !found {
      if at < |v| && v[at].position == p {
        assert v[at] in v;
        assert forall i :: 0 <= i < |v| ==> v[i] != LogEntry(p, 0);
        return true;
      }
      forall x | x in v
        ensures x.position != p
      {
        var i :| 0 <= i < |v| && v[i] == x;
        assert at < |v| && i >= at ==> v[at] == v[i] || Less(v[at], v[i]);
      }
    }
    return false;
  }

  class RemoveLog {
    /** The entries on file, all cached in memory. */
    var removed: seq<LogEntry>
    var removedTmp: seq<LogEntry>
    var file: seq<LogEntry>

    constructor ()
      ensures Valid() && removed == removedTmp == file == []
    {
      removed, removedTmp, file := [], [], [];
    }

    ghost predicate Valid()
      reads this
    {
      Ordered(removed) && Ordered(removedTmp)
    }

    ghost predicate Has(p: nat)
      reads this
    {
      Logged(removed, p) || Logged(removedTmp, p)
    }

    method Append(elmts: seq<nat>, index: nat)
      requires Valid()
      modifies `removedTmp
      ensures Valid()
      ensures forall x :: x in removedTmp <==> x in old(removedTmp) || (x.position in elmts && x.index == index)
    {
      for i := 0 to |elmts|
        invariant Valid()
        invariant forall x :: x in removedTmp <==> x in old(removedTmp) || (x.position in elmts[..i] && x.index == index)
      {
        removedTmp := InsertEntry(removedTmp, LogEntry(elmts[i], index));
        assert elmts[..i + 1] == elmts[..i] + [elmts[i]];
      }
      assert elmts[..|elmts|] == elmts;
    }

    /** Merges the pending entries into the log and writes the whole of it to file. */
    method Flush()
      requires Valid()
      modifies this
      ensures Valid() && removedTmp == [] && file == removed
      ensures forall x :: x in removed <==> x in old(removed) || x in old(removedTmp)
    {
      for i := 0 to |removedTmp|
        invariant Valid() && removedTmp == old(removedTmp)
        invariant forall x :: x in removed <==> x in old(removed) || x in removedTmp[..i]
      {
        removed := InsertEntry(removed, removedTmp[i]);
        assert removedTmp[..i + 1] == removedTmp[..i] + [removedTmp[i]];
      }
      assert removedTmp[..|removedTmp|] == removedTmp;
      file := removed;
      removedTmp := [];
    }

    method Discard()
      requires Valid()
      modifies `removedTmp
      ensures Valid() && removedTmp == []
    {
      removedTmp := [];
    }

    /** Forgets pending entries and those of block `lastOffs` and later; all of them if it is 0. */
    method Truncate(lastOffs: nat)
      requires Valid()
      modifies `removed, `removedTmp
      ensures Valid() && removedTmp == []
      ensures forall x :: x in removed <==> x in old(removed) && x.index < lastOffs
    {
      removedTmp := [];
      if lastOffs == 0 {
        removed := [];
      } else {
        var kept: seq<LogEntry> := [];
        for i := 0 to |removed|
          invariant removed == old(removed) && Ordered(kept)
          invariant forall x :: x in kept <==> x in removed[..i] && x.index < lastOffs
        {
          assert removed[..i + 1] == removed[..i] + [removed[i]];
          assert forall x :: x in removed[..i] ==> Less(x, removed[i]);
          if removed[i].index < lastOffs {
            kept := kept + [removed[i]];
          }
        }
        assert removed[..|removed|] == removed;
        removed := kept;
      }
    }

    method Includes(p: nat) returns (b: bool)
      requires Valid()
      ensures NoZeroIndex(removed) && NoZeroIndex(removedTmp) ==> (b <==> Has(p))
      ensures b <==> (Logged(removed, p) && LogEntry(p, 0) !in removed) || (Logged(removedTmp, p) && LogEntry(p, 0) !in removedTmp)
    {
      b := IncludeTuple(removed, p);
      if !b {
        b := IncludeTuple(removedTmp, p);
      }
    }
  }

  /** How many buffered elements have not been removed. */
  function UsedSize<T>(buffer: seq<Option<T>>): (n: nat)
    ensures n == 0 <==> forall i :: 0 <= i < |buffer| ==> buffer[i].None?
  {
    if buffer == [] then 0
    else
      var rest := UsedSize(buffer[..|buffer| - 1]);
      if buffer[|buffer| - 1].None? then rest else rest + 1
  }

  /** What each position holds: buffered elements are taken as they are, those on file unless they are logged. */
  ghost function ContentOf<T>(file: seq<T>, buffer: seq<Option<T>>, removed: seq<LogEntry>, tmp: seq<LogEntry>): (c: seq<Option<T>>)
    ensures |c| == |file| + |buffer|
    ensures forall k :: 0 <= k < |file| ==> c[k] == if Logged(removed, k + 1) || Logged(tmp, k + 1) then None else Some(file[k])
    ensures forall i :: 0 <= i < |buffer| ==> c[|file| + i] == buffer[i]
  {
    seq(|file|, k requires 0 <= k < |file| => if Logged(removed, k + 1) || Logged(tmp, k + 1) then None else Some(file[k])) + buffer
  }

  /** Clearing positions in the buffer and logging them removes them. */
  lemma RemovedContent<T>(file: seq<T>, buffer: seq<Option<T>>, buffer': seq<Option<T>>,
                          removed: seq<LogEntry>, tmp: seq<LogEntry>, tmp': seq<LogEntry>, positions: seq<nat>)
    requires |buffer'| == |buffer|
    requires forall i :: 0 <= i < |buffer| ==> buffer'[i] == if |file| + i + 1 in positions then None else buffer[i]
    requires forall p: nat :: Logged(tmp', p) <==> Logged(tmp, p) || p in positions
    ensures var c, c' := ContentOf(file, buffer, removed, tmp), ContentOf(file, buffer', removed, tmp');
      forall k :: 0 <= k < |c| ==> c'[k] == if k + 1 in positions then None else c[k]
  {
    hide Logged;
    var c, c' := ContentOf(file, buffer, removed, tmp), ContentOf(file, buffer', removed, tmp');
    forall k | 0 <= k < |c|
      ensures c'[k] == if k + 1 in positions then None else c[k]
    {
      if k >= |file| {
        assert c'[|file| + (k - |file|)] == buffer'[k - |file|];
      }
    }
  }

  function Wrapped<T>(data: seq<T>): (w: seq<Option<T>>)
    ensures |w| == |data|
    ensures forall i :: 0 <= i < |w| ==> w[i] == Some(data[i])
  {
    seq(|data|, i requires 0 <= i < |data| => Some(data[i]))
  }

  /** The records that a flush writes: zeros keep the place of elements removed in the buffer already. */
  ghost function Written<T>(buffer: seq<Option<T>>, zero: T): (w: seq<T>)
    ensures |w| == |buffer|
    ensures forall i :: 0 <= i < |w| ==> w[i] == if buffer[i].Some? then buffer[i].value else zero
  {
    seq(|buffer|, i requires 0 <= i < |buffer| => if buffer[i].Some? then buffer[i].value else zero)
  }

  /** Writing the buffer to file and merging the logs changes no content. */
  lemma WrittenContent<T>(file: seq<T>, buffer: seq<Option<T>>, zero: T,
                          removed: seq<LogEntry>, tmp: seq<LogEntry>, merged: seq<LogEntry>)
    requires forall x :: x in removed ==> x.position <= |file|
    requires forall i :: 0 <= i < |buffer| ==> (buffer[i].None? <==> Logged(tmp, |file| + i + 1))
    requires forall x :: x in merged <==> x in removed || x in tmp
    ensures ContentOf(file + Written(buffer, zero), [], merged, []) == ContentOf(file, buffer, removed, tmp)
  {
    hide Logged, Written;
    var w := Written(buffer, zero);
    var c, c' := ContentOf(file, buffer, removed, tmp), ContentOf(file + w, [], merged, []);
    NoneLogged();
    NotLoggedAbove(removed, |file|);
    LogMerged(removed, tmp, merged);
    forall k | 0 <= k < |c|
      ensures c'[k] == c[k]
    {
      if k >= |file| {
        assert c[|file| + (k - |file|)] == buffer[k - |file|];
        assert (file + w)[k] == w[k - |file|];
      }
    }
  }

  lemma AppendedContent<T>(file: seq<T>, buffer: seq<Option<T>>, more: seq<Option<T>>, removed: seq<LogEntry>, tmp: seq<LogEntry>)
    ensures ContentOf(file, buffer + more, removed, tmp) == ContentOf(file, buffer, removed, tmp) + more
  {
    hide Logged;
    var head := seq(|file|, k requires 0 <= k < |file| => if Logged(removed, k + 1) || Logged(tmp, k + 1) then None else Some(file[k]));
    assert head + (buffer + more) == (head + buffer) + more;
  }

  lemma NotLoggedAbove(log: seq<LogEntry>, n: nat)
    requires forall x :: x in log ==> x.position <= n
    ensures forall p: nat :: p > n ==> !Logged(log, p)
  {
  }

  lemma LogMerged(a: seq<LogEntry>, b: seq<LogEntry>, merged: seq<LogEntry>)
    requires forall x :: x in merged <==> x in a || x in b
    ensures forall p :: Logged(merged, p) <==> Logged(a, p) || Logged(b, p)
  {
  }

  lemma NoneLogged()
    ensures forall p: nat :: !Logged([], p)
  {
  }

  /** File and buffer hold what was appended, but for the elements lost. */
  ghost predicate Records<T>(file: seq<T>, onFile: seq<T>, lost: set<nat>, buffer: seq<Option<T>>, appended: seq<T>, zero: T) {
    && |onFile| == |file| && |appended| == |buffer|
    && (forall k :: 0 <= k < |file| ==> file[k] == if k + 1 in lost then zero else onFile[k])
    && (forall i :: 0 <= i < |buffer| && buffer[i].Some? ==> buffer[i].value == appended[i])
  }

  lemma ClearedRecords<T>(file: seq<T>, onFile: seq<T>, lost: set<nat>, buffer: seq<Option<T>>, buffer': seq<Option<T>>, appended: seq<T>, zero: T)
    requires Records(file, onFile, lost, buffer, appended, zero) && |buffer'| == |buffer|
    requires forall i :: 0 <= i < |buffer| && buffer'[i].Some? ==> buffer'[i] == buffer[i]
    ensures Records(file, onFile, lost, buffer', appended, zero)
  {
  }

  /** Writing the buffer after the first `n` records: elements removed in the buffer are lost. */
  lemma WrittenRecords<T>(file: seq<T>, onFile: seq<T>, lost: set<nat>, n: nat, buffer: seq<Option<T>>, appended: seq<T>, zero: T, lost': set<nat>)
    requires n <= |file| && Records(file, onFile, lost, buffer, appended, zero)
    requires forall p: nat :: p in lost' <==>
      if p <= n then p in lost else p <= n + |buffer| && buffer[p - n - 1].None?
    ensures Records(file[..n] + Written(buffer, zero), onFile[..n] + appended, lost', [], [], zero)
  {
    hide Written;
    var f, h := file[..n] + Written(buffer, zero), onFile[..n] + appended;
    forall k | 0 <= k < |f|
      ensures f[k] == if k + 1 in lost' then zero else h[k]
    {
      if k >= n {
        assert f[k] == Written(buffer, zero)[k - n];
      }
    }
  }

  /** Pending entries still tell which buffered elements are gone. */
  lemma BufferedAreLogged<T>(was: seq<Option<T>>, buffer: seq<Option<T>>, tmp: seq<LogEntry>, tmp': seq<LogEntry>, n: nat, positions: seq<nat>)
    requires |buffer| == |was|
    requires forall i :: 0 <= i < |was| ==> (was[i].None? <==> Logged(tmp, n + i + 1))
    requires forall i :: 0 <= i < |buffer| ==> buffer[i] == if n + i + 1 in positions then None else was[i]
    requires forall p: nat :: Logged(tmp', p) <==> Logged(tmp, p) || p in positions
    ensures forall i :: 0 <= i < |buffer| ==> (buffer[i].None? <==> Logged(tmp', n + i + 1))
  {
    hide Logged;
  }

  lemma LogGrows(before: seq<LogEntry>, after: seq<LogEntry>, positions: seq<nat>, index: nat)
    requires forall x :: x in after <==> x in before || (x.position in positions && x.index == index)
    ensures forall p :: Logged(after, p) <==> Logged(before, p) || p in positions
  {
    forall p
      ensures Logged(after, p) <==> Logged(before, p) || p in positions
    {
      if p in positions { assert LogEntry(p, index) in after; }
      if Logged(before, p) {
        var e :| e in before && e.position == p;
        assert e in after;
      }
    }
  }

  class PMMRBackend<T> {
    /** What a record of zero bytes reads back as. */
    const zero: T
    /** The records on file; the prune list is empty, so position `p` is record `p - 1`. */
    var file: seq<T>
    const removeLog: RemoveLog
    /** Elements appended since the last flush; those removed meanwhile are none. */
    var buffer: seq<Option<T>>
    var bufferIndex: nat
    /** The position and index of a pending rewind, and the buffer index before it. */
    var rewound: Option<(nat, nat, nat)>
    /** What was appended at each position on file, and at each position of the buffer. */
    ghost var onFile: seq<T>
    ghost var appended: seq<T>
    /** Positions on file whose element was removed before it was written. */
    ghost var lost: set<nat>

    constructor (zero: T)
      ensures Valid() && Content() == Saved() == [] && rewound == None && fresh(removeLog)
      ensures this.zero == zero && Synced() && History() == [] && forall p: nat :: !IsLost(p)
    {
      onFile, appended, lost := [], [], {};
      this.zero := zero;
      file := [];
      removeLog := new RemoveLog();
      buffer := [];
      bufferIndex := 0;
      rewound := None;
    }

    ghost predicate Valid()
      reads this, removeLog
    {
      && removeLog.Valid() && NoZeroIndex(removeLog.removed) && NoZeroIndex(removeLog.removedTmp)
      && bufferIndex <= |file|
      && (match rewound
          case None => bufferIndex == |file|
          case Some((position, _, before)) => bufferIndex == position && before == |file|)
      // the log speaks of existing positions only; what is buffered is removed by pending entries
      && (forall x :: x in removeLog.removed ==> 0 < x.position <= bufferIndex)
      && (forall x :: x in removeLog.removedTmp ==> 0 < x.position <= bufferIndex + |buffer|)
      && (forall i :: 0 <= i < |buffer| ==> (buffer[i].None? <==> Logged(removeLog.removedTmp, bufferIndex + i + 1)))
      && Recorded()
    }

    /** File and buffer hold what was appended, but for the elements that were removed while buffered. */
    ghost predicate Recorded()
      reads this
    {
      Records(file, onFile, lost, buffer, appended, zero)
    }

    lemma RecordsAppended()
      requires Recorded()
      ensures |onFile| == |file| && |appended| == |buffer|
    {
    }

    lemma EndsAtBuffer()
      requires Valid() && Synced()
      ensures file[..bufferIndex] == file
    {
    }

    /** Nothing is pending. */
    ghost predicate Synced()
      reads this, removeLog
    {
      buffer == [] && rewound == None && removeLog.removedTmp == []
    }

    /** What was appended at each position there is now. */
    ghost function History(): (h: seq<T>)
      requires bufferIndex <= |file| == |onFile|
      reads this
      ensures |h| == bufferIndex + |appended|
    {
      onFile[..bufferIndex] + appended
    }

    /** The element at position `p` was removed before it was ever on file. */
    ghost predicate IsLost(p: nat)
      reads this
    {
      if p <= bufferIndex then p in lost else p <= bufferIndex + |buffer| && buffer[p - bufferIndex - 1].None?
    }

    /** A position that is not removed reads what was appended there, or zero if that was lost. */
    lemma ReadsHistory(k: nat)
      requires Valid() && k < bufferIndex + |buffer| && Content()[k].Some?
      ensures Content()[k].value == if IsLost(k + 1) then zero else History()[k]
    {
      hide Logged, Ordered, ContentOf;
      if k >= bufferIndex {
        assert Content()[bufferIndex + (k - bufferIndex)] == buffer[k - bufferIndex];
      }
    }

    /** What each position holds: the plain map that the backend stands for. */
    ghost function Content(): (c: seq<Option<T>>)
      requires bufferIndex <= |file|
      reads this, removeLog
      ensures |c| == bufferIndex + |buffer|
    {
      ContentOf(file[..bufferIndex], buffer, removeLog.removed, removeLog.removedTmp)
    }

    /** What the files hold, without anything pending. */
    ghost function Saved(): (c: seq<Option<T>>)
      reads this, removeLog
      ensures |c| == |file|
    {
      ContentOf(file, [], removeLog.removed, [])
    }

    method Append(position: nat, data: seq<T>)
      requires Valid() && bufferIndex <= position
      modifies `buffer, `appended
      ensures Valid() && Saved() == old(Saved())
      ensures History() == old(History()) + data && forall p: nat :: IsLost(p) <==> old(IsLost(p))
      ensures buffer == old(buffer) + Wrapped(data)
      ensures Content() == old(Content()) + Wrapped(data)
    {
      hide Logged, ContentOf, Ordered;
      AppendedContent(file[..bufferIndex], buffer, Wrapped(data), removeLog.removed, removeLog.removedTmp);
      NotLoggedAbove(removeLog.removedTmp, bufferIndex + |buffer|);
      buffer := buffer + Wrapped(data);
      appended := appended + data;
    }

    /** Reads a position: from the buffer if it is there, else from the file unless it was removed. After a rewind the
        file still answers for positions past the end. */
    method Get(position: nat) returns (r: Option<T>)
      requires Valid() && (0 < position <= bufferIndex + |buffer| || 0 < position <= |file|)
      ensures r == if position <= bufferIndex + |buffer| then Content()[position - 1] else Some(file[position - 1])
    {
      if position > bufferIndex && position - 1 < bufferIndex + |buffer| {
        return buffer[position - bufferIndex - 1];
      }
      var removed := removeLog.Includes(position);
      if removed {
        return None;
      }
      return Some(file[position - 1]);
    }

    /** Removes positions, noting the index (at least 1) of the block that does. */
    method Remove(positions: seq<nat>, index: nat)
      requires Valid() && index > 0
      requires forall p :: p in positions ==> 0 < p <= bufferIndex + |buffer|
      modifies `buffer, removeLog`removedTmp
      ensures Valid() && Saved() == old(Saved())
      ensures History() == old(History()) && |buffer| == |old(buffer)|
      ensures forall p: nat :: IsLost(p) <==> old(IsLost(p)) || (p in positions && p > bufferIndex)
      ensures forall x :: x in removeLog.removedTmp <==>
        x in old(removeLog.removedTmp) || (x.position in positions && x.index == index)
      ensures |Content()| == |old(Content())|
      ensures forall k :: 0 <= k < |Content()| ==> Content()[k] == if k + 1 in positions then None else old(Content())[k]
    {
      hide Ordered, Logged, ContentOf, Records;
      RecordsAppended();
      ghost var tmp, was := removeLog.removedTmp, buffer;
      ClearBuffered(positions);
      ClearedRecords(file, onFile, lost, was, buffer, appended, zero);
      removeLog.Append(positions, index);
      LogGrows(tmp, removeLog.removedTmp, positions, index);
      BufferedAreLogged(was, buffer, tmp, removeLog.removedTmp, bufferIndex, positions);
      RemovedContent(file[..bufferIndex], was, buffer, removeLog.removed, tmp, removeLog.removedTmp, positions);
    }

    /** Drops the elements at these positions from the buffer, if it holds any. */
    method ClearBuffered(positions: seq<nat>)
      modifies `buffer
      ensures |buffer| == |old(buffer)|
      ensures forall i :: 0 <= i < |buffer| ==>
        buffer[i] == if bufferIndex + i + 1 in positions then None else old(buffer)[i]
    {
      if UsedSize(buffer) == 0 {
        return;
      }
      for n := 0 to |positions|
        invariant |buffer| == |old(buffer)|
        invariant forall i :: 0 <= i < |buffer| ==>
          buffer[i] == if bufferIndex + i + 1 in positions[..n] then None else old(buffer)[i]
      {
        var p := positions[n];
        assert positions[..n + 1] == positions[..n] + [p];
        if p > bufferIndex && p - 1 < bufferIndex + |buffer| {
          buffer := buffer[p - bufferIndex - 1 := None];
        }
      }
      assert positions[..|positions|] == positions;
    }

    /** Writes everything to file. Nothing that a reader sees changes. */
    method Sync()
      requires Valid()
      modifies this, removeLog
      ensures Valid() && Synced()
      ensures Content() == Saved() == old(Content())
      ensures History() == old(History()) && forall p: nat :: IsLost(p) <==> old(IsLost(p))
      ensures forall x :: x in removeLog.removed <==> x in old(removeLog.removed) || x in old(removeLog.removedTmp)
      ensures file == old(file[..bufferIndex]) + Written(old(buffer), zero)
    {
      hide Ordered, Logged, ContentOf, Written, Records;
      RecordsAppended();
      ghost var removed, tmp, kept, held := removeLog.removed, removeLog.removedTmp, file[..bufferIndex], buffer;
      ghost var history := History();
      FlushBuffer();
      removeLog.Flush();
      rewound := None;
      WrittenContent(kept, held, zero, removed, tmp, removeLog.removed);
      assert file[..bufferIndex] == file && history == history + [];
    }

    /** Cuts the file back to a rewind and writes the buffer after that. */
    method FlushBuffer()
      requires bufferIndex <= |file| && (if rewound.Some? then bufferIndex == rewound.value.0 else bufferIndex == |file|)
      requires Recorded()
      modifies `file, `onFile, `appended, `lost, `buffer, `bufferIndex
      ensures file == old(file[..bufferIndex]) + Written(old(buffer), zero)
      ensures bufferIndex == |file| == old(bufferIndex) + |old(buffer)| && buffer == [] && appended == []
      ensures Recorded() && onFile == old(History()) && forall p: nat :: IsLost(p) <==> old(IsLost(p))
    {
      hide Written, Records;
      RecordsAppended();
      ghost var wasLost := set p: nat | p <= bufferIndex + |buffer| && IsLost(p);
      WrittenRecords(file, onFile, lost, bufferIndex, buffer, appended, zero, wasLost);
      onFile, lost := History(), wasLost;
      appended := [];
      if rewound.Some? {
        file := file[..rewound.value.0];
      }
      WriteBuffer();
      bufferIndex := bufferIndex + |buffer|;
      buffer := [];
    }

    method WriteBuffer()
      modifies `file
      ensures file == old(file) + Written(buffer, zero)
    {
      for i := 0 to |buffer|
        invariant file == old(file) + Written(buffer, zero)[..i]
      {
        if buffer[i].Some? {
          file := file + [buffer[i].value];
        } else {
          // the element has been pruned in the buffer already: zeros keep the offsets right
          file := file + [zero];
        }
      }
    }

    /** Drops everything pending. */
    method Discard()
      requires Valid()
      modifies this, removeLog
      ensures Valid() && Synced()
      ensures Content() == Saved() == old(Saved())
      ensures History() == old(onFile) && removeLog.removed == old(removeLog.removed) && file == old(file)
    {
      appended := [];
      if rewound.Some? {
        bufferIndex := rewound.value.2;
      }
      buffer := [];
      removeLog.Discard();
      rewound := None;
    }

    /** Goes back to `position`, taking back the removals of block `index` itself and of all later ones. */
    method Rewind(position: nat, index: nat)
      requires Valid() && buffer == [] && rewound == None && position <= bufferIndex
      requires forall x :: x in removeLog.removed && x.index < index ==> x.position <= position
      modifies this, removeLog
      ensures Valid() && file == old(file) && rewound == Some((position, index, old(bufferIndex))) && buffer == []
      ensures removeLog.removedTmp == [] && forall x :: x in removeLog.removed <==> x in old(removeLog.removed) && x.index < index
      ensures History() == old(History())[..position] && forall p: nat :: p <= position ==> (IsLost(p) <==> old(IsLost(p)))
      ensures |Content()| == position
      ensures forall k :: 0 <= k < position ==>
        Content()[k] == if RemovedBefore(old(removeLog.removed), k + 1, index) then None else Some(file[k])
      ensures forall k :: 0 <= k < |file| ==>
        Saved()[k] == if RemovedBefore(old(removeLog.removed), k + 1, index) then None else Some(file[k])
    {
      removeLog.Truncate(index);
      rewound := Some((position, index, bufferIndex));
      bufferIndex := position;
    }
  }

  ghost predicate RemovedBefore(log: seq<LogEntry>, p: nat, index: nat) {
    exists e :: e in log && e.position == p && e.index < index
  }

  /** A unit of work on a fork that is given up: whatever the blocks of the fork do after the rewind, discarding it
      leaves the content as it was exactly when no removal was taken back. */
  method RewindThenDiscard<T>(b: PMMRBackend<T>, fork: seq<Change<T>>, position: nat, index: nat)
    requires b.Valid() && b.buffer == [] && b.rewound == None && position <= b.bufferIndex
    requires forall x :: x in b.removeLog.removed && x.index < index ==> x.position <= position
    requires Applicable(position, fork)
    modifies b, b.removeLog
    ensures b.Valid() && b.Synced() && b.file == old(b.file)
    ensures b.Content() == old(b.Content()) <==>
      forall p :: old(b.removeLog.Has(p)) ==> RemovedBefore(old(b.removeLog.removed), p, index)
    ensures |b.Content()| == |old(b.Content())| && forall k :: 0 <= k < |b.Content()| ==>
      b.Content()[k] == if RemovedBefore(old(b.removeLog.removed), k + 1, index) then None else Some(b.file[k])
  {
    hide Ordered, Logged, ContentOf, Records, RemovedBefore;
    ghost var before, removed, tmp := b.Content(), b.removeLog.removed, b.removeLog.removedTmp;
    ghost var file := b.file;
    assert file[..|file|] == file;
    b.Rewind(position, index);
    ApplyPending(b, fork, index);
    b.Discard();
    SameContentIff(file, removed, tmp, b.removeLog.removed);
    LoggedBefore(removed, b.removeLog.removed, index);
  }

  /** The blocks above `height`, as part of one unit of work. */
  method ApplyPending<T>(b: PMMRBackend<T>, changes: seq<Change<T>>, height: nat)
    requires b.Valid() && Applicable(b.bufferIndex + |b.buffer|, changes)
    modifies b`buffer, b`appended, b.removeLog`removedTmp
    ensures b.Valid() && b.Saved() == old(b.Saved()) && b.onFile == old(b.onFile)
  {
    hide Ordered, Logged, ContentOf, Records, PMMRBackend.Valid;
    ghost var size := b.bufferIndex + |b.buffer|;
    for i := 0 to |changes|
      invariant b.Valid() && b.bufferIndex + |b.buffer| == SizeAfter(size, changes[..i])
      invariant b.Saved() == old(b.Saved())
    {
      assert changes[..i + 1][..i] == changes[..i];
      b.Remove(changes[i].removed, height + 1 + i);
      b.Append(b.bufferIndex + |b.buffer|, changes[i].data);
    }
  }

  /** Taking log entries back restores exactly the positions with no entry left. */
  lemma SameContentIff<T>(file: seq<T>, removed: seq<LogEntry>, tmp: seq<LogEntry>, kept: seq<LogEntry>)
    requires forall x :: x in removed || x in tmp ==> 0 < x.position <= |file|
    requires forall x :: x in kept ==> x in removed
    ensures ContentOf(file, [], kept, []) == ContentOf(file, [], removed, tmp) <==>
            forall p: nat :: Logged(removed, p) || Logged(tmp, p) ==> Logged(kept, p)
  {
    var c, c' := ContentOf(file, [], removed, tmp), ContentOf(file, [], kept, []);
    NoneLogged();
    if c' == c {
      forall p: nat | Logged(removed, p) || Logged(tmp, p)
        ensures Logged(kept, p)
      {
        assert c[p - 1] == None && c'[p - 1] == None;
      }
    } else {
      var k :| 0 <= k < |c| && c'[k] != c[k];
      assert Logged(removed, k + 1) || Logged(tmp, k + 1);
    }
  }

  lemma LoggedBefore(log: seq<LogEntry>, kept: seq<LogEntry>, index: nat)
    requires forall x :: x in kept <==> x in log && x.index < index
    ensures forall p: nat :: Logged(kept, p) <==> RemovedBefore(log, p, index)
  {
    forall p: nat
      ensures Logged(kept, p) <==> RemovedBefore(log, p, index)
    {
      if RemovedBefore(log, p, index) {
        var e :| e in log && e.position == p && e.index < index;
        assert e in kept;
      }
    }
  }

  // ---------------------------------------------------------------- what a rewind brings back

  /** Everything pending is written, and then the removals of block `index` and later are taken back. */
  method TakeBack<T>(b: PMMRBackend<T>, data: seq<T>, positions: seq<nat>, removeIndex: nat, position: nat, index: nat)
    requires b.Valid() && b.rewound == None && removeIndex > 0
    requires position <= b.bufferIndex + |b.buffer| + |data|
    requires forall p :: p in positions ==> 0 < p <= b.bufferIndex + |b.buffer| + |data|
    requires forall x :: (x in b.removeLog.removed || x in b.removeLog.removedTmp) && x.index < index ==> x.position <= position
    requires removeIndex < index ==> forall p :: p in positions ==> p <= position
    modifies b, b.removeLog
    ensures b.Valid() && |b.Content()| == position && b.History() == (old(b.History()) + data)[..position]
    ensures forall k :: 0 <= k < position ==> (b.Content()[k].None? <==>
      || RemovedBefore(old(b.removeLog.removed), k + 1, index)
      || RemovedBefore(old(b.removeLog.removedTmp), k + 1, index)
      || (k + 1 in positions && removeIndex < index))
    // an element comes back exactly if it was never removed before it was on file, or is zero anyway
    ensures forall k :: 0 <= k < position && b.Content()[k].Some? ==>
      (b.Content()[k].value == b.History()[k] <==>
       (!old(b.IsLost(k + 1)) && (k + 1 in positions ==> k + 1 <= old(b.bufferIndex))) || b.History()[k] == b.zero)
  {
    ghost var removed, tmp := b.removeLog.removed, b.removeLog.removedTmp;
    hide Ordered, Logged, ContentOf, Records, RemovedBefore;
    WriteAll(b, data, positions, removeIndex);
    ghost var log := b.removeLog.removed;
    b.Rewind(position, index);
    BeforeSum(removed, tmp, positions, removeIndex, log, index);
    forall k: nat | k < position && b.Content()[k].Some?
      ensures b.Content()[k].value == if b.IsLost(k + 1) then b.zero else b.History()[k]
    {
      b.ReadsHistory(k);
    }
  }

  /** Elements come, positions go, and all is written. */
  method WriteAll<T>(b: PMMRBackend<T>, data: seq<T>, positions: seq<nat>, removeIndex: nat)
    requires b.Valid() && b.rewound == None && removeIndex > 0
    requires forall p :: p in positions ==> 0 < p <= b.bufferIndex + |b.buffer| + |data|
    modifies b, b.removeLog
    ensures b.Valid() && b.Synced() && b.History() == old(b.History()) + data
    ensures b.bufferIndex == old(b.bufferIndex) + |old(b.buffer)| + |data|
    ensures b.file[..old(b.bufferIndex)] == old(b.file[..b.bufferIndex])
    ensures forall p: nat :: b.IsLost(p) <==> old(b.IsLost(p)) || (p in positions && p > old(b.bufferIndex))
    ensures forall x :: x in b.removeLog.removed <==>
      x in old(b.removeLog.removed) || x in old(b.removeLog.removedTmp) || (x.position in positions && x.index == removeIndex)
  {
    hide Ordered, Logged, ContentOf, Records, Written;
    b.Append(b.bufferIndex, data);
    b.Remove(positions, removeIndex);
    b.Sync();
  }

  lemma BeforeSum(a: seq<LogEntry>, b: seq<LogEntry>, positions: seq<nat>, removeIndex: nat, log: seq<LogEntry>, index: nat)
    requires forall x :: x in log <==> x in a || x in b || (x.position in positions && x.index == removeIndex)
    ensures forall p: nat :: RemovedBefore(log, p, index) <==>
      RemovedBefore(a, p, index) || RemovedBefore(b, p, index) || (p in positions && removeIndex < index)
  {
    forall p: nat
      ensures RemovedBefore(log, p, index) <==>
        RemovedBefore(a, p, index) || RemovedBefore(b, p, index) || (p in positions && removeIndex < index)
    {
      if p in positions && removeIndex < index { assert LogEntry(p, removeIndex) in log; }
      if RemovedBefore(a, p, index) {
        var e :| e in a && e.position == p && e.index < index;
        assert e in log;
      }
      if RemovedBefore(b, p, index) {
        var e :| e in b && e.position == p && e.index < index;
        assert e in log;
      }
    }
  }

  /** Rewinding past a removal does not bring back an element that was pruned while still buffered. */
  method PrunedElementIsLost<T>(zero: T, x: T) returns (r: Option<T>)
    ensures r == Some(zero)
  {
    hide Ordered, ContentOf;
    var b := new PMMRBackend<T>(zero);
    b.Append(0, [x]);
    TakeBack(b, [], [1], 2, 1, 1);
    r := b.Get(1);
    assert b.History()[0] == x;
  }

  // ---------------------------------------------------------------- rewinding to a block

  /** What a block does to the tree: it removes elements that are there, then appends its own. */
  datatype Change<T> = Change(removed: seq<nat>, data: seq<T>)

  function SizeAfter<T>(size: nat, changes: seq<Change<T>>): (n: nat)
    ensures n >= size
  {
    if changes == [] then size
    else SizeAfter(size, changes[..|changes| - 1]) + |changes[|changes| - 1].data|
  }

  /** Each block removes only elements of the blocks before it. */
  ghost predicate Applicable<T>(size: nat, changes: seq<Change<T>>) {
    forall i, p :: 0 <= i < |changes| && p in changes[i].removed ==> 0 < p <= SizeAfter(size, changes[..i])
  }

  /** One block as a unit of work. */
  method ApplyChange<T>(b: PMMRBackend<T>, change: Change<T>, height: nat)
    requires b.Valid() && b.Synced() && height > 0
    requires forall p :: p in change.removed ==> 0 < p <= b.bufferIndex
    modifies b, b.removeLog
    ensures b.Valid() && b.Synced() && b.file == old(b.file) + change.data
    ensures forall x :: x in b.removeLog.removed <==>
      x in old(b.removeLog.removed) || (x.position in change.removed && x.index == height)
  {
    hide Ordered, Logged, ContentOf, Records, PMMRBackend.Valid;
    b.EndsAtBuffer();
    b.Remove(change.removed, height);
    b.Append(b.bufferIndex, change.data);
    assert b.buffer == Wrapped(change.data);
    b.Sync();
    assert Written(Wrapped(change.data), b.zero) == change.data;
  }

  /** The blocks above `height`, one after the other. */
  method ApplyChanges<T>(b: PMMRBackend<T>, changes: seq<Change<T>>, height: nat)
    requires b.Valid() && b.Synced() && Applicable(b.bufferIndex, changes)
    modifies b, b.removeLog
    ensures b.Valid() && b.Synced() && old(b.file) <= b.file
    ensures forall x :: x in old(b.removeLog.removed) ==> x in b.removeLog.removed
    ensures forall x :: x in b.removeLog.removed ==> x in old(b.removeLog.removed) || x.index > height
  {
    hide Ordered, Logged, ContentOf, Records;
    ghost var size := b.bufferIndex;
    for i := 0 to |changes|
      invariant b.Valid() && b.Synced() && old(b.file) <= b.file && |b.file| == SizeAfter(size, changes[..i])
      invariant forall x :: x in old(b.removeLog.removed) ==> x in b.removeLog.removed
      invariant forall x :: x in b.removeLog.removed ==> x in old(b.removeLog.removed) || x.index > height
    {
      assert changes[..i + 1][..i] == changes[..i];
      ApplyChange(b, changes[i], height + 1 + i);
    }
  }

  /** Rewinding past any later blocks with index `height` restores the content exactly if that block removed nothing. */
  method RewindToBlock<T>(b: PMMRBackend<T>, changes: seq<Change<T>>, height: nat, index: nat)
    requires b.Valid() && b.Synced() && Applicable(b.bufferIndex, changes)
    requires forall x :: x in b.removeLog.removed ==> x.index <= height
    requires index <= height + 1
    modifies b, b.removeLog
    ensures b.Valid()
    ensures b.Content() == old(b.Content()) <==>
      forall x :: x in old(b.removeLog.removed) && x.index >= index ==> RemovedBefore(old(b.removeLog.removed), x.position, index)
    ensures |b.Content()| == |old(b.file)| && forall k :: 0 <= k < |b.Content()| ==>
      b.Content()[k] == if RemovedBefore(old(b.removeLog.removed), k + 1, index) then None else Some(old(b.file[k]))
    ensures index == height + 1 ==> b.Content() == old(b.Content())
    ensures index == height ==>
      (b.Content() == old(b.Content()) <==>
       forall x :: x in old(b.removeLog.removed) && x.index == height ==> RemovedBefore(old(b.removeLog.removed), x.position, height))
  {
    hide Ordered, Logged, ContentOf, Records, RemovedBefore;
    var size := b.bufferIndex;
    ghost var file, log := b.file, b.removeLog.removed;
    assert file[..size] == file;
    ApplyChanges(b, changes, height);
    ghost var later := b.removeLog.removed;
    b.Rewind(size, index);
    assert b.file[..size] == file;
    SameContentIff(file, log, [], b.removeLog.removed);
    LaterIsNotBefore(log, later, height, index);
    RestoredIff(log, later, b.removeLog.removed, height, index);
  }

  lemma LaterIsNotBefore(log: seq<LogEntry>, later: seq<LogEntry>, height: nat, index: nat)
    requires forall x :: x in log ==> x in later
    requires forall x :: x in later ==> x in log || x.index > height
    requires index <= height + 1
    ensures forall p: nat :: RemovedBefore(later, p, index) <==> RemovedBefore(log, p, index)
  {
    forall p: nat
      ensures RemovedBefore(later, p, index) <==> RemovedBefore(log, p, index)
    {
      if RemovedBefore(log, p, index) {
        var e :| e in log && e.position == p && e.index < index;
        assert e in later;
      }
    }
  }

  /** What is left in the log covers the old removals exactly if those of the last blocks were no news. */
  lemma RestoredIff(log: seq<LogEntry>, later: seq<LogEntry>, kept: seq<LogEntry>, height: nat, index: nat)
    requires forall x :: x in log ==> x in later && x.index <= height
    requires forall x :: x in later ==> x in log || x.index > height
    requires forall x :: x in kept <==> x in later && x.index < index
    requires index <= height + 1
    ensures (forall p: nat :: Logged(log, p) || Logged([], p) ==> Logged(kept, p)) <==>
            (forall x :: x in log && x.index >= index ==> RemovedBefore(log, x.position, index))
    ensures forall x :: x in kept ==> x in log
  {
    NoneLogged();
    assert forall x :: x in kept <==> x in log && x.index < index;
    LoggedBefore(log, kept, index);
    if forall x :: x in log && x.index >= index ==> RemovedBefore(log, x.position, index) {
      forall p: nat | Logged(log, p)
        ensures RemovedBefore(log, p, index)
      {
        var e :| e in log && e.position == p;
      }
    }
    if forall p: nat :: Logged(log, p) ==> Logged(kept, p) {
      forall x | x in log && x.index >= index
        ensures RemovedBefore(log, x.position, index)
      {
        assert Logged(log, x.position);
      }
    }
  }

  // ---------------------------------------------------------------- runs that lose removals

  /** A position logged with index 0 is not found. */
  method ZeroIndexIsMissed(p: nat) returns (log: RemoveLog, found: bool)
    ensures log.Valid() && log.Has(p) && !found
  {
    log := new RemoveLog();
    log.Append([p], 0);
    assert p in [p] && LogEntry(p, 0) in log.removedTmp;
    found := log.Includes(p);
  }

  /** An element that a block at height 1 appends, and the block after it removes. */
  method RemovedOnFile<T>(zero: T, x: T) returns (b: PMMRBackend<T>)
    ensures fresh(b) && fresh(b.removeLog) && b.Valid() && b.Synced() && b.file == [x] && b.Content() == [None]
    ensures forall e :: e in b.removeLog.removed <==> e == LogEntry(1, 2)
  {
    hide Ordered, Logged, ContentOf, Records;
    b := new PMMRBackend<T>(zero);
    b.Append(0, [x]);
    b.Sync();
    assert b.file == [x] by { WrittenOne(x, zero); }
    b.Remove([1], 2);
    b.Sync();
  }

  lemma WrittenOne<T>(x: T, zero: T)
    ensures Written([Some(x)], zero) == [x]
  {
  }

  /** A fork that starts at the block which removed the element, and is given up, brings the element back. */
  method DiscardLosesRemoval<T>(zero: T, x: T) returns (was: Option<T>, r: Option<T>)
    ensures was == None && r == Some(x)
  {
    hide Ordered, ContentOf, Records;
    var b := RemovedOnFile(zero, x);
    was := b.Get(1);
    RewindThenDiscard(b, [], 1, 2);
    r := b.Get(1);
  }

  /** Rewinding to the block which removed the element brings it back as well. */
  method RewindLosesRemoval<T>(zero: T, x: T) returns (was: Option<T>, r: Option<T>)
    ensures was == None && r == Some(x)
  {
    hide Ordered, ContentOf, Records;
    var b := RemovedOnFile(zero, x);
    was := b.Get(1);
    RewindToBlock(b, [], 2, 2);
    r := b.Get(1);
  }
}
