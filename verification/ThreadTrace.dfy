/** The writes a thread of the distribution makes, in program order, each lane of a scatter on its own:
    test-sort/benchmarks/bench_samplesort_streams.cpp, distribute. */
module ThreadTrace {
  import opened Words
  import opened Distribute
  import opened CountingSort
  import opened Interleaving

  // --- the writes as the code makes them ---

  /** One scatter, lane by lane. */
  function ScatterWrites<T>(toKeys: bool, vals: seq<T>, addr: seq<nat>, i: nat, n: nat): (w: seq<Write<T>>)
    requires n <= |addr| && i + n <= |vals|
    ensures |w| == n && forall l {:trigger w[l]} :: 0 <= l < n ==> w[l] == Write(toKeys, addr[l], vals[i + l])
  {
    if n == 0 then [] else ScatterWrites(toKeys, vals, addr, i, n - 1) + [Write(toKeys, addr[n - 1], vals[i + n - 1])]
  }

  /** The rows from row i on, as many as there are addresses: all keys, then all indices. */
  function BlockWrites<T>(rows: Rows<T>, addr: seq<nat>, i: nat, withIndex: bool): seq<Write<T>>
    requires rows.Covers(i, i + |addr|)
  {
    ScatterWrites(true, rows.keys, addr, i, |addr|)
    + if withIndex then ScatterWrites(false, rows.idx, addr, i, |addr|) else []
  }

  /** distribute from row i on, with the thread's cursors as they stand there: the vector loop takes its addresses
      from conflict ranks and gathered cursors and scatters the moved cursors back, the tail increments them. */
  function Trace<T>(rows: Rows<T>, cursors: seq<nat>, width: nat, modulus: nat, i: nat, hi: nat, lanes: nat,
                    withIndex: bool): seq<Write<T>>
    requires rows.Covers(i, hi) && modulus > 0 && lanes > 0 && NameBuckets(rows.ids, i, hi, |cursors|)
    decreases hi - i
  {
    if i + lanes <= hi then
      var id := rows.ids[i..i + lanes];
      BlockWrites(rows, LaneAddresses(cursors, id, width, modulus), i, withIndex)
      + Trace(rows, VectorCursors(cursors, id, width, modulus), width, modulus, i + lanes, hi, lanes, withIndex)
    else if i < hi then
      var bucket := rows.ids[i];
      var at := cursors[bucket];
      BlockWrites(rows, [at], i, withIndex)
      + Trace(rows, cursors[bucket := Wrap(at + 1, modulus)], width, modulus, i + 1, hi, lanes, withIndex)
    else []
  }

  // --- the same writes with the rows' slots as addresses ---

  function SlotWrites<T>(toKeys: bool, vals: seq<T>, cursors: seq<nat>, ids: seq<nat>, modulus: nat, lo: nat, i: nat,
      n: nat): (w: seq<Write<T>>)
    requires lo <= i && i + n <= |ids| && i + n <= |vals| && modulus > 0
    requires NameBuckets(ids, lo, i + n, |cursors|)
    ensures |w| == n
    ensures forall l {:trigger w[l]} :: 0 <= l < n ==>
              w[l] == Write(toKeys, Slot(cursors, ids, modulus, lo, i + l), vals[i + l])
    decreases n
  {
    if n == 0 then []
    else SlotWrites(toKeys, vals, cursors, ids, modulus, lo, i, n - 1)
         + [Write(toKeys, Slot(cursors, ids, modulus, lo, i + n - 1), vals[i + n - 1])]
  }

  /** n rows from row i: all their keys, then all their indices. */
  function SlotBlock<T>(rows: Rows<T>, cursors: seq<nat>, modulus: nat, lo: nat, i: nat, n: nat,
      withIndex: bool): seq<Write<T>>
    requires lo <= i && rows.Covers(i, i + n) && modulus > 0 && NameBuckets(rows.ids, lo, i + n, |cursors|)
  {
    SlotWrites(true, rows.keys, cursors, rows.ids, modulus, lo, i, n)
    + if withIndex then SlotWrites(false, rows.idx, cursors, rows.ids, modulus, lo, i, n) else []
  }

  /** From row i on: whole blocks write all keys and then all indices, the tail goes row by row. */
  function SlotTrace<T>(rows: Rows<T>, cursors: seq<nat>, modulus: nat, lo: nat, i: nat, hi: nat, lanes: nat,
      withIndex: bool): (w: seq<Write<T>>)
    requires lo <= i && rows.Covers(i, hi) && modulus > 0 && lanes > 0
    requires NameBuckets(rows.ids, lo, hi, |cursors|)
    decreases hi - i
  {
    if i == hi then []
    else
      var n := if i + lanes <= hi then lanes else 1;
      SlotBlock(rows, cursors, modulus, lo, i, n, withIndex)
      + SlotTrace(rows, cursors, modulus, lo, i + n, hi, lanes, withIndex)
  }

  lemma {:induction false} FitsConcat<T>(a: seq<Write<T>>, b: seq<Write<T>>, lo: nat, hi: nat)
    requires Fits(a, lo, hi) && Fits(b, lo, hi)
    ensures Fits(a + b, lo, hi)
  {
  }

  lemma {:induction false} SlotWritesFit<T>(toKeys: bool, vals: seq<T>, ids: seq<nat>, lo: nat, i: nat, n: nat,
      hi: nat, buckets: nat, modulus: nat)
    requires lo <= i && i + n <= hi <= |ids| && hi <= |vals| && 0 < modulus && hi <= modulus
    requires NameBuckets(ids, lo, hi, buckets)
    ensures Fits(SlotWrites(toKeys, vals, StartCursors(ids, lo, hi, buckets, modulus), ids, modulus, lo, i, n), lo, hi)
    decreases n
  {
    hide Slot;
    hide StartCursors;
    if n > 0 {
      SlotWritesFit(toKeys, vals, ids, lo, i, n - 1, hi, buckets, modulus);
      SlotIsTarget(ids, lo, hi, buckets, modulus, i + n - 1);
      TargetIsInItsBucket(ids, lo, hi, buckets, i + n - 1);
    }
  }

  lemma {:induction false} SlotBlockFit<T>(rows: Rows<T>, lo: nat, i: nat, n: nat, hi: nat, buckets: nat,
      modulus: nat, withIndex: bool)
    requires lo <= i && i + n <= hi && rows.Covers(i, hi) && 0 < modulus && hi <= modulus
    requires NameBuckets(rows.ids, lo, hi, buckets)
    ensures Fits(SlotBlock(rows, StartCursors(rows.ids, lo, hi, buckets, modulus), modulus, lo, i, n, withIndex),
                 lo, hi)
  {
    SlotWritesFit(true, rows.keys, rows.ids, lo, i, n, hi, buckets, modulus);
    SlotWritesFit(false, rows.idx, rows.ids, lo, i, n, hi, buckets, modulus);
  }

  /** Every write of a thread lands in its chunk. */
  lemma {:induction false} SlotTraceFits<T>(rows: Rows<T>, lo: nat, i: nat, hi: nat, buckets: nat, modulus: nat,
      lanes: nat, withIndex: bool)
    requires lo <= i && rows.Covers(i, hi) && 0 < modulus && hi <= modulus && lanes > 0
    requires NameBuckets(rows.ids, lo, hi, buckets)
    ensures Fits(SlotTrace(rows, StartCursors(rows.ids, lo, hi, buckets, modulus), modulus, lo, i, hi, lanes,
                           withIndex), lo, hi)
    decreases hi - i
  {
    if i < hi {
      var cursors := StartCursors(rows.ids, lo, hi, buckets, modulus);
      var n := if i + lanes <= hi then lanes else 1;
      SlotTraceFits(rows, lo, i + n, hi, buckets, modulus, lanes, withIndex);
      SlotBlockFit(rows, lo, i, n, hi, buckets, modulus, withIndex);
      FitsConcat(SlotBlock(rows, cursors, modulus, lo, i, n, withIndex),
                 SlotTrace(rows, cursors, modulus, lo, i + n, hi, lanes, withIndex), lo, hi);
    }
  }

  lemma {:induction false} KeyLanesApply<T>(m: Memory<T>, out: seq<T>, vals: seq<T>, cursors: seq<nat>, ids: seq<nat>,
      modulus: nat, lo: nat, i: nat, n: nat, k: nat)
    requires lo <= i && i + n <= |ids| && i + n <= |vals| && modulus > 0 && k <= n
    requires m.Sized(|out|) && InBounds(|out|, cursors, ids, modulus, lo, i + n)
    requires m.keys == Written(out, vals, cursors, ids, modulus, lo, i)
    requires Fits(SlotWrites(true, vals, cursors, ids, modulus, lo, i, n), 0, |out|)
    ensures ApplyFirst(m, SlotWrites(true, vals, cursors, ids, modulus, lo, i, n), k)
         == m.(keys := Written(out, vals, cursors, ids, modulus, lo, i + k))
    decreases k
  {
    if k > 0 {
      KeyLanesApply(m, out, vals, cursors, ids, modulus, lo, i, n, k - 1);
    }
  }

  lemma {:induction false} IdxLanesApply<T>(m: Memory<T>, out: seq<T>, vals: seq<T>, cursors: seq<nat>, ids: seq<nat>,
      modulus: nat, lo: nat, i: nat, n: nat, k: nat)
    requires lo <= i && i + n <= |ids| && i + n <= |vals| && modulus > 0 && k <= n
    requires m.Sized(|out|) && InBounds(|out|, cursors, ids, modulus, lo, i + n)
    requires m.idx == Written(out, vals, cursors, ids, modulus, lo, i)
    requires Fits(SlotWrites(false, vals, cursors, ids, modulus, lo, i, n), 0, |out|)
    ensures ApplyFirst(m, SlotWrites(false, vals, cursors, ids, modulus, lo, i, n), k)
         == m.(idx := Written(out, vals, cursors, ids, modulus, lo, i + k))
    decreases k
  {
    if k > 0 {
      IdxLanesApply(m, out, vals, cursors, ids, modulus, lo, i, n, k - 1);
    }
  }

  function WrittenMemory<T>(m: Memory<T>, rows: Rows<T>, cursors: seq<nat>, modulus: nat, lo: nat, i: nat,
      withIndex: bool): (r: Memory<T>)
    requires m.Sized(|m.keys|) && lo <= i && rows.Covers(lo, i) && modulus > 0
    requires InBounds(|m.keys|, cursors, rows.ids, modulus, lo, i)
    ensures r.Sized(|m.keys|)
  {
    Memory(Written(m.keys, rows.keys, cursors, rows.ids, modulus, lo, i),
           if withIndex then Written(m.idx, rows.idx, cursors, rows.ids, modulus, lo, i) else m.idx)
  }

  lemma {:induction false} InBoundsPrefix(size: nat, cursors: seq<nat>, ids: seq<nat>, modulus: nat, lo: nat, i: nat,
      hi: nat)
    requires lo <= i <= hi <= |ids| && modulus > 0 && InBounds(size, cursors, ids, modulus, lo, hi)
    ensures InBounds(size, cursors, ids, modulus, lo, i)
  {
  }

  lemma {:induction false} ApplyBoth<T>(before: Memory<T>, a: seq<Write<T>>, mid: Memory<T>, b: seq<Write<T>>)
    requires before.Sized(|before.keys|) && mid.Sized(|before.keys|)
    requires Fits(a, 0, |before.keys|) && Fits(b, 0, |before.keys|)
    requires ApplyFirst(before, a, |a|) == mid
    ensures Fits(a + b, 0, |before.keys|)
    ensures ApplyFirst(before, a + b, |a + b|) == ApplyFirst(mid, b, |b|)
  {
    ApplyConcat(before, a, b, |b|);
  }

  lemma {:induction false} BlockApplies<T>(m: Memory<T>, rows: Rows<T>, cursors: seq<nat>, modulus: nat, lo: nat,
      i: nat, n: nat, withIndex: bool)
    requires m.Sized(|m.keys|) && lo <= i && rows.Covers(lo, i + n) && modulus > 0
    requires InBounds(|m.keys|, cursors, rows.ids, modulus, lo, i + n)
    ensures var w := SlotBlock(rows, cursors, modulus, lo, i, n, withIndex);
            && Fits(w, 0, |m.keys|)
            && ApplyFirst(WrittenMemory(m, rows, cursors, modulus, lo, i, withIndex), w, |w|)
               == WrittenMemory(m, rows, cursors, modulus, lo, i + n, withIndex)
  {
    var before := WrittenMemory(m, rows, cursors, modulus, lo, i, withIndex);
    InBoundsPrefix(|m.keys|, cursors, rows.ids, modulus, lo, i, i + n);
    var a := SlotWrites(true, rows.keys, cursors, rows.ids, modulus, lo, i, n);
    assert Fits(a, 0, |m.keys|);
    KeyLanesApply(before, m.keys, rows.keys, cursors, rows.ids, modulus, lo, i, n, n);
    var mid := before.(keys := Written(m.keys, rows.keys, cursors, rows.ids, modulus, lo, i + n));
    if withIndex {
      var b := SlotWrites(false, rows.idx, cursors, rows.ids, modulus, lo, i, n);
      assert Fits(b, 0, |m.keys|);
      IdxLanesApply(mid, m.idx, rows.idx, cursors, rows.ids, modulus, lo, i, n, n);
      ApplyBoth(before, a, mid, b);
    } else {
      assert a + [] == a;
    }
  }

  /** Performing a thread's writes in program order leaves what the chunk's distribution leaves. */
  lemma {:induction false} SlotTraceApplies<T>(m: Memory<T>, rows: Rows<T>, cursors: seq<nat>, modulus: nat, lo: nat,
      i: nat, hi: nat, lanes: nat, withIndex: bool, after: Memory<T>)
    requires m.Sized(|m.keys|) && lo <= i && rows.Covers(lo, hi) && i <= hi && modulus > 0 && lanes > 0
    requires InBounds(|m.keys|, cursors, rows.ids, modulus, lo, hi)
    requires after == WrittenMemory(m, rows, cursors, modulus, lo, hi, withIndex)
    ensures var w := SlotTrace(rows, cursors, modulus, lo, i, hi, lanes, withIndex);
            && Fits(w, 0, |m.keys|)
            && ApplyFirst(WrittenMemory(m, rows, cursors, modulus, lo, i, withIndex), w, |w|) == after
    decreases hi - i
  {
    if i < hi {
      var n := if i + lanes <= hi then lanes else 1;
      SlotTraceApplies(m, rows, cursors, modulus, lo, i + n, hi, lanes, withIndex, after);
      SlotTraceUnfolds(m, rows, cursors, modulus, lo, i, n, hi, lanes, withIndex);
    }
  }

  lemma {:induction false} SlotTraceUnfolds<T>(m: Memory<T>, rows: Rows<T>, cursors: seq<nat>, modulus: nat, lo: nat,
      i: nat, n: nat, hi: nat, lanes: nat, withIndex: bool)
    requires m.Sized(|m.keys|) && lo <= i < hi && rows.Covers(lo, hi) && modulus > 0 && lanes > 0
    requires n == (if i + lanes <= hi then lanes else 1)
    requires InBounds(|m.keys|, cursors, rows.ids, modulus, lo, hi)
    requires Fits(SlotTrace(rows, cursors, modulus, lo, i + n, hi, lanes, withIndex), 0, |m.keys|)
    ensures var w := SlotTrace(rows, cursors, modulus, lo, i, hi, lanes, withIndex);
            var rest := SlotTrace(rows, cursors, modulus, lo, i + n, hi, lanes, withIndex);
            && Fits(w, 0, |m.keys|)
            && ApplyFirst(WrittenMemory(m, rows, cursors, modulus, lo, i, withIndex), w, |w|)
               == ApplyFirst(WrittenMemory(m, rows, cursors, modulus, lo, i + n, withIndex), rest, |rest|)
  {
    InBoundsPrefix(|m.keys|, cursors, rows.ids, modulus, lo, i + n, hi);
    BlockApplies(m, rows, cursors, modulus, lo, i, n, withIndex);
    ApplyBoth(WrittenMemory(m, rows, cursors, modulus, lo, i, withIndex),
              SlotBlock(rows, cursors, modulus, lo, i, n, withIndex),
              WrittenMemory(m, rows, cursors, modulus, lo, i + n, withIndex),
              SlotTrace(rows, cursors, modulus, lo, i + n, hi, lanes, withIndex));
  }

  // --- the code's writes are those ---

  lemma {:induction false} ScatterHitsSlots<T>(toKeys: bool, vals: seq<T>, addr: seq<nat>, cursors: seq<nat>,
                                               ids: seq<nat>, modulus: nat, lo: nat, i: nat, n: nat)
    requires lo <= i && i + n <= |ids| && i + n <= |vals| && modulus > 0
    requires NameBuckets(ids, lo, i + n, |cursors|) && AreSlots(addr, cursors, ids, modulus, lo, i, n)
    ensures ScatterWrites(toKeys, vals, addr, i, n) == SlotWrites(toKeys, vals, cursors, ids, modulus, lo, i, n)
  {
    hide Slot;
  }

  lemma {:induction false} BlockHitsSlots<T>(rows: Rows<T>, addr: seq<nat>, cursors: seq<nat>, modulus: nat, lo: nat,
                                             i: nat, n: nat, withIndex: bool)
    requires lo <= i && rows.Covers(i, i + n) && modulus > 0 && NameBuckets(rows.ids, lo, i + n, |cursors|)
    requires AreSlots(addr, cursors, rows.ids, modulus, lo, i, n)
    ensures BlockWrites(rows, addr, i, withIndex) == SlotBlock(rows, cursors, modulus, lo, i, n, withIndex)
  {
    hide AreSlots;
    assert |addr| == n by { AreSlotsLength(addr, cursors, rows.ids, modulus, lo, i, n); }
    ScatterHitsSlots(true, rows.keys, addr, cursors, rows.ids, modulus, lo, i, n);
    ScatterHitsSlots(false, rows.idx, addr, cursors, rows.ids, modulus, lo, i, n);
  }

  lemma {:induction false} AreSlotsLength(addr: seq<nat>, cursors: seq<nat>, ids: seq<nat>, modulus: nat, lo: nat,
                                          i: nat, n: nat)
    requires lo <= i && i + n <= |ids| && modulus > 0 && forall l :: i <= l < i + n ==> ids[l] < |cursors|
    requires AreSlots(addr, cursors, ids, modulus, lo, i, n)
    ensures |addr| == n
  {
  }

  // One unfolding of each trace, with the remaining writes given.

  lemma {:induction false} TraceOfBlock<T>(rows: Rows<T>, cursors: seq<nat>, width: nat, modulus: nat, i: nat, hi: nat,
                                           lanes: nat, withIndex: bool, next: seq<nat>, rest: seq<Write<T>>)
    requires rows.Covers(i, hi) && modulus > 0 && 0 < lanes && i + lanes <= hi
    requires NameBuckets(rows.ids, i, hi,
              |cursors|)
    requires next == VectorCursors(cursors, rows.ids[i..i + lanes], width, modulus)
    requires rest == Trace(rows, next, width, modulus, i + lanes, hi, lanes, withIndex)
    ensures Trace(rows, cursors, width, modulus, i, hi, lanes, withIndex)
         == BlockWrites(rows, LaneAddresses(cursors, rows.ids[i..i + lanes], width, modulus), i, withIndex) + rest
  {
    hide BlockWrites;
    hide LaneAddresses;
    hide VectorCursors;
  }

  lemma {:induction false} SlotTraceOf<T>(rows: Rows<T>, start: seq<nat>, modulus: nat, lo: nat, i: nat, n: nat,
                                          hi: nat, lanes: nat, withIndex: bool, rest: seq<Write<T>>)
    requires lo <= i < hi && rows.Covers(i, hi) && modulus > 0 && lanes > 0 && NameBuckets(rows.ids, lo, hi, |start|)
    requires n == if i + lanes <= hi then lanes else 1
    requires rest == SlotTrace(rows, start, modulus, lo, i + n, hi, lanes, withIndex)
    ensures SlotTrace(rows, start, modulus, lo, i, hi, lanes, withIndex)
         == SlotBlock(rows, start, modulus, lo, i, n, withIndex) + rest
  {
    hide SlotBlock;
  }

  lemma {:induction false} BlockThenRest<T>(rows: Rows<T>, start: seq<nat>, width: nat, modulus: nat, lo: nat,
                                            i: nat, hi: nat, lanes: nat, withIndex: bool, rest: seq<Write<T>>)
    requires lo <= i && rows.Covers(lo, hi) && i + lanes <= hi && modulus > 0 && 1 <= lanes <= width + 1
    requires NameBuckets(rows.ids, lo, hi, |start|)
    requires rest == Trace(rows, Advanced(start, rows.ids, modulus, lo, i + lanes), width, modulus, i + lanes, hi,
              lanes,
                           withIndex)
    requires rest == SlotTrace(rows, start, modulus, lo, i + lanes, hi, lanes, withIndex)
    ensures Trace(rows, Advanced(start, rows.ids, modulus, lo, i), width, modulus, i, hi, lanes, withIndex)
         == SlotTrace(rows, start, modulus, lo, i, hi, lanes, withIndex)
  {
    hide Trace;
    hide SlotTrace;
    hide SlotBlock;
    hide BlockWrites;
    hide LaneAddresses;
    hide VectorCursors;
    hide Advanced;
    hide AreSlots;
    var now, id := Advanced(start, rows.ids, modulus, lo, i), rows.ids[i..i + lanes];
    VectorStepHitsSlots(start, rows.ids, width, modulus, lo, i, lanes);
    BlockHitsSlots(rows, LaneAddresses(now, id, width, modulus), start, modulus, lo, i, lanes, withIndex);
    TraceOfBlock(rows, now, width, modulus, i, hi, lanes, withIndex,
                 Advanced(start, rows.ids, modulus, lo, i + lanes), rest);
    SlotTraceOf(rows, start, modulus, lo, i, lanes, hi, lanes, withIndex, rest);
  }

  lemma {:induction false} RowThenRest<T>(rows: Rows<T>, start: seq<nat>, width: nat, modulus: nat, lo: nat,
                                          i: nat, hi: nat, lanes: nat, withIndex: bool, rest: seq<Write<T>>)
    requires lo <= i && rows.Covers(lo, hi) && i < hi < i + lanes && modulus > 0
    requires NameBuckets(rows.ids, lo, hi, |start|)
    requires rest == Trace(rows, Advanced(start, rows.ids, modulus, lo, i + 1), width, modulus, i + 1, hi, lanes,
                           withIndex)
    requires rest == SlotTrace(rows, start, modulus, lo, i + 1, hi, lanes, withIndex)
    ensures Trace(rows, Advanced(start, rows.ids, modulus, lo, i), width, modulus, i, hi, lanes, withIndex)
         == SlotTrace(rows, start, modulus, lo, i, hi, lanes, withIndex)
  {
    hide SlotTrace;
    hide SlotBlock;
    hide BlockWrites;
    hide Slot;
    hide Advanced;
    var now := Advanced(start, rows.ids, modulus, lo, i);
    var at := now[rows.ids[i]];
    AdvancedByOne(start, rows.ids, modulus, lo, i);
    BlockHitsSlots(rows, [at], start, modulus, lo, i, 1, withIndex);
    assert Trace(rows, now, width, modulus, i, hi, lanes, withIndex) == BlockWrites(rows, [at], i, withIndex) + rest;
    SlotTraceOf(rows, start, modulus, lo, i, 1, hi, lanes, withIndex, rest);
  }

  /** For registers with an exact rank, a thread whose cursors stand where the rows before i have brought them
      writes the rest of its chunk to the rows' slots, in program order. */
  lemma {:induction false} TraceIsSlotTrace<T>(rows: Rows<T>, start: seq<nat>, width: nat, modulus: nat, lo: nat,
                                               i: nat, hi: nat, lanes: nat, withIndex: bool)
    requires lo <= i && rows.Covers(lo, hi) && i <= hi && modulus > 0 && 1 <= lanes <= width + 1
    requires NameBuckets(rows.ids, lo, hi, |start|)
    ensures Trace(rows, Advanced(start, rows.ids, modulus, lo, i), width, modulus, i, hi, lanes, withIndex)
         == SlotTrace(rows, start, modulus, lo, i, hi, lanes, withIndex)
    decreases hi - i
  {
    hide BlockWrites;
    hide SlotBlock;
    hide LaneAddresses;
    hide VectorCursors;
    if i < hi {
      hide Advanced;
      hide NameBuckets;
      hide Trace;
      hide SlotTrace;
      var n := if i + lanes <= hi then lanes else 1;
      TraceIsSlotTrace(rows, start, width, modulus, lo, i + n, hi, lanes, withIndex);
      var rest := SlotTrace(rows, start, modulus, lo, i + n, hi, lanes, withIndex);
      if i + lanes <= hi {
        BlockThenRest(rows, start, width, modulus, lo, i, hi, lanes, withIndex, rest);
      } else {
        RowThenRest(rows, start, width, modulus, lo, i, hi, lanes, withIndex, rest);
      }
    }
  }

  /** Every write of a thread lands in its chunk. */
  lemma {:induction false} TraceFits<T>(rows: Rows<T>, width: nat, modulus: nat, lo: nat, hi: nat, buckets: nat,
                                        lanes: nat, withIndex: bool)
    requires rows.Covers(lo, hi) && 0 < modulus && hi <= modulus && 1 <= lanes <= width + 1
    requires NameBuckets(rows.ids, lo, hi, buckets)
    ensures Fits(Trace(rows, StartCursors(rows.ids, lo, hi, buckets, modulus), width, modulus, lo, hi, lanes,
                       withIndex), lo, hi)
  {
    hide Trace;
    hide SlotTrace;
    var start := StartCursors(rows.ids, lo, hi, buckets, modulus);
    AdvancedByNothing(start, rows.ids, modulus, lo);
    TraceIsSlotTrace(rows, start, width, modulus, lo, lo, hi, lanes, withIndex);
    SlotTraceFits(rows, lo, lo, hi, buckets, modulus, lanes, withIndex);
  }

  /** Performing a thread's writes in program order leaves what the chunk's distribution leaves. */
  lemma {:induction false} TraceApplies<T>(m: Memory<T>, rows: Rows<T>, start: seq<nat>, width: nat, modulus: nat,
                                           lo: nat, hi: nat, lanes: nat, withIndex: bool, after: Memory<T>)
    requires m.Sized(|m.keys|) && rows.Covers(lo, hi) && modulus > 0 && 1 <= lanes <= width + 1
    requires InBounds(|m.keys|, start, rows.ids, modulus, lo, hi)
    requires after == WrittenMemory(m, rows, start, modulus, lo, hi, withIndex)
    ensures var w := Trace(rows, start, width, modulus, lo, hi, lanes, withIndex);
            Fits(w, 0, |m.keys|) && ApplyFirst(m, w, |w|) == after
  {
    hide Trace;
    hide SlotTrace;
    hide ApplyFirst;
    AdvancedByNothing(start, rows.ids, modulus, lo);
    TraceIsSlotTrace(rows, start, width, modulus, lo, lo, hi, lanes, withIndex);
    SlotTraceApplies(m, rows, start, modulus, lo, lo, hi, lanes, withIndex, after);
    assert WrittenMemory(m, rows, start, modulus, lo, lo, withIndex) == m;
  }
}
