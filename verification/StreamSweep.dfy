/** T threads each distributing their own chunk: test-sort/benchmarks/bench_samplesort_streams.cpp,
    stream_sweep. Single lane writes are the atomic steps. */
module StreamSweep {
  import opened Words
  import opened Distribute
  import opened CountingSort
  import opened Interleaving
  import opened ThreadTrace

  // --- the chunks ---

  /** t * span */
  function ChunkStart(span: nat, t: nat): nat {
    if t == 0 then 0 else ChunkStart(span, t - 1) + span
  }

  lemma {:induction false} ChunkStartIsProduct(span: nat, t: nat)
    ensures ChunkStart(span, t) == t * span
  {
    if t > 0 { ChunkStartIsProduct(span, t - 1); }
  }

  lemma {:induction false} ChunksAreOrdered(span: nat, t: nat, u: nat)
    requires t <= u
    ensures ChunkStart(span, t) <= ChunkStart(span, u)
    decreases u
  {
    if t < u { ChunksAreOrdered(span, t, u - 1); }
  }

  /** The span chosen by the code, n / threads, keeps all chunks inside the columns. */
  lemma {:induction false} ChunksFit(n: nat, threads: nat)
    requires threads > 0
    ensures ChunkStart(n / threads, threads) <= n
  {
    ChunkStartIsProduct(n / threads, threads);
  }

  /** One benchmark setting: the input rows, T threads, K buckets. */
  datatype Sweep<T> = Sweep(rows: Rows<T>, threads: nat, buckets: nat, width: nat, lanes: nat, withIndex: bool) {
    /** The rows of one chunk; the last n % threads rows belong to none. */
    function Span(): nat {
      if threads == 0 then 0 else |rows.keys| / threads
    }

    function Lo(t: nat): nat { ChunkStart(Span(), t) }

    function Hi(t: nat): nat { ChunkStart(Span(), t + 1) }

    /** The values of a cursor's word. */
    function Modulus(): (m: nat)
      ensures m > 0
    {
      Pow2(width)
    }

    /** All columns have the same number of rows, which a cursor can count, and the ranks are exact. */
    ghost predicate Valid(size: nat) {
      && threads > 0 && |rows.keys| == |rows.idx| == |rows.ids| == size <= Modulus()
      && 1 <= lanes <= width + 1
      && NameBuckets(rows.ids, 0, size, buckets)
    }

    lemma {:induction false} ChunkIsInside(size: nat, t: nat)
      requires Valid(size) && t < threads
      ensures Lo(t) <= Hi(t) <= size && rows.Covers(Lo(t), Hi(t))
      ensures NameBuckets(rows.ids, Lo(t), Hi(t), buckets)
      ensures InBounds(size, StartCursors(rows.ids, Lo(t), Hi(t), buckets, Modulus()), rows.ids, Modulus(),
                       Lo(t), Hi(t))
    {
      hide Pow2;
      ChunksFit(size, threads);
      ChunksAreOrdered(Span(), t + 1, threads);
      CursorsAreInBounds(rows.ids, Lo(t), Hi(t), buckets, Modulus(), size);
    }

    function Cursors(size: nat, t: nat): seq<nat>
      requires Valid(size) && t < threads
    {
      ChunkIsInside(size, t);
      StartCursors(rows.ids, Lo(t), Hi(t), buckets, Modulus())
    }

    function WritesOf(size: nat, t: nat): seq<Write<T>>
      requires Valid(size) && t < threads
    {
      ChunkIsInside(size, t);
      Trace(rows, Cursors(size, t), width, Modulus(), Lo(t), Hi(t), lanes, withIndex)
    }

    function Traces(size: nat, n: nat): (r: seq<seq<Write<T>>>)
      requires Valid(size) && n <= threads
      ensures |r| == n && forall t {:trigger r[t]} :: 0 <= t < n ==> r[t] == WritesOf(size, t)
    {
      seq(n, t requires 0 <= t < n => WritesOf(size, t))
    }

    function Regions(n: nat): (r: seq<(nat, nat)>)
      ensures |r| == n && forall t {:trigger r[t]} :: 0 <= t < n ==> r[t] == (Lo(t), Hi(t))
    {
      if n == 0 then [] else Regions(n - 1) + [(Lo(n - 1), Hi(n - 1))]
    }

    function Threaded(start: Memory<T>): Program<T>
      requires Valid(|start.keys|)
    {
      Program(start, Traces(|start.keys|, threads), Regions(threads))
    }

    /** Chunk t distributed by the scalar loop. */
    function ChunkRun(m: Memory<T>, t: nat): (r: Memory<T>)
      requires m.Sized(|m.keys|) && Valid(|m.keys|) && t < threads
      ensures r.Sized(|m.keys|)
    {
      ChunkIsInside(|m.keys|, t);
      var r := ScalarRun(Store(m.keys, m.idx, Cursors(|m.keys|, t)), rows, withIndex, Modulus(), Lo(t), Hi(t));
      Memory(r.keys, r.idx)
    }

    /** The reference: thread 0's chunk distributed by the scalar loop, then thread 1's, and so on. */
    function OneAfterAnother(start: Memory<T>, n: nat): (m: Memory<T>)
      requires start.Sized(|start.keys|) && Valid(|start.keys|) && n <= threads
      ensures m.Sized(|start.keys|)
      decreases n
    {
      if n == 0 then start else ChunkRun(OneAfterAnother(start, n - 1), n - 1)
    }
  }

  /** The chunks are equally long and follow one another from row 0 on, and fewer rows than threads are left over. */
  ghost predicate ChunksCover<T>(w: Sweep<T>, n: nat)
    requires w.threads > 0
  {
    && w.Lo(0) == 0
    && (forall t {:trigger w.Hi(t)} :: 0 <= t < w.threads ==> w.Hi(t) == w.Lo(t + 1) && w.Hi(t) - w.Lo(t) == w.Hi(0))
    && w.Hi(w.threads - 1) <= n < w.Hi(w.threads - 1) + w.threads
  }

  lemma {:induction false} SpanCovers<T>(w: Sweep<T>)
    requires w.threads > 0
    ensures ChunksCover(w, |w.rows.keys|)
  {
    var n, span := |w.rows.keys|, w.Span();
    ChunkStartIsProduct(span, w.threads);
    assert w.Hi(w.threads - 1) == w.threads * span == n - n % w.threads;
  }

  /** Row i belongs to the chunk of thread i / (n / threads). */
  lemma {:induction false} EveryRowHasItsThread<T>(w: Sweep<T>, i: nat) returns (t: nat)
    requires w.threads > 0 && i < |w.rows.keys| - |w.rows.keys| % w.threads
    ensures t < w.threads && w.Lo(t) <= i < w.Hi(t)
    ensures t == i / (|w.rows.keys| / w.threads)
  {
    var n, span := |w.rows.keys|, w.Span();
    assert n - n % w.threads == w.threads * span;
    assert span > 0;
    t := i / span;
    assert t * span <= i < t * span + span;
    ChunkStartIsProduct(span, t);
    if t >= w.threads {
      MultiplesGrow(w.threads, t, span);
    }
  }

  lemma {:induction false} MultiplesGrow(a: nat, b: nat, span: nat)
    requires a <= b
    ensures a * span <= b * span
  {
    assert (b - a) * span >= 0;
  }

  /** Threads write disjoint regions, which cover all rows but the last n % threads. */
  lemma {:induction false} ThreadsAreConfined<T>(w: Sweep<T>, start: Memory<T>)
    requires start.Sized(|start.keys|) && w.Valid(|start.keys|)
    ensures w.Threaded(start).Confined()
    ensures w.Threaded(start).regions == w.Regions(w.threads) && ChunksCover(w, |start.keys|)
  {
    SpanCovers(w);
    hide ChunksCover;
    hide Fits;
    hide Sweep.Lo;
    hide Sweep.Hi;
    hide Sweep.WritesOf;
    var p := w.Threaded(start);
    var size := |start.keys|;
    forall t | 0 <= t < w.threads
      ensures Fits(p.traces[t], p.regions[t].0, p.regions[t].1)
      ensures p.regions[t].1 <= size
    {
      ThreadStaysInside(w, size, t);
    }
    forall t, u, a | 0 <= t < w.threads && 0 <= u < w.threads && p.OwnsAddress(t, a) && p.OwnsAddress(u, a)
      ensures t == u
    {
      if t != u { OnlyOneOwner(w, t, u, a); }
    }
  }

  lemma {:induction false} ThreadStaysInside<T>(w: Sweep<T>, size: nat, t: nat)
    requires w.Valid(size) && t < w.threads
    ensures Fits(w.WritesOf(size, t), w.Lo(t), w.Hi(t)) && w.Hi(t) <= size
  {
    hide Trace;
    hide StartCursors;
    hide Fits;
    w.ChunkIsInside(size, t);
    TraceFits(w.rows, w.width, w.Modulus(), w.Lo(t), w.Hi(t), w.buckets, w.lanes, w.withIndex);
  }

  /** What thread t's chunk would leave if no other chunk ran. */
  function Alone<T>(w: Sweep<T>, start: Memory<T>, t: nat): (m: Memory<T>)
    requires start.Sized(|start.keys|) && w.Valid(|start.keys|) && t < w.threads
    ensures m.Sized(|start.keys|)
  {
    w.ChunkIsInside(|start.keys|, t);
    WrittenMemory(start, w.rows, w.Cursors(|start.keys|, t), w.Modulus(), w.Lo(t), w.Hi(t), w.withIndex)
  }

  lemma {:induction false} SoloIsDistribution<T>(w: Sweep<T>, start: Memory<T>, t: nat)
    requires start.Sized(|start.keys|) && w.Valid(|start.keys|) && t < w.threads && w.Threaded(start).Confined()
    ensures w.Threaded(start).Solo(t, |w.Threaded(start).traces[t]|) == Alone(w, start, t)
  {
    w.ChunkIsInside(|start.keys|, t);
    TraceApplies(start, w.rows, w.Cursors(|start.keys|, t), w.width, w.Modulus(), w.Lo(t), w.Hi(t), w.lanes,
                 w.withIndex, Alone(w, start, t));
  }

  /** What is written at an address does not depend on the other addresses. */
  lemma {:induction false} WrittenIsLocal<T>(out1: seq<T>, out2: seq<T>, vals: seq<T>, cursors: seq<nat>,
      ids: seq<nat>, modulus: nat, lo: nat, hi: nat, a: nat)
    requires lo <= hi <= |ids| && hi <= |vals| && modulus > 0 && |out1| == |out2| && a < |out1|
    requires InBounds(|out1|, cursors, ids, modulus, lo, hi) && out1[a] == out2[a]
    ensures Written(out1, vals, cursors, ids, modulus, lo, hi)[a]
         == Written(out2, vals, cursors, ids, modulus, lo, hi)[a]
    decreases hi
  {
    if lo < hi { WrittenIsLocal(out1, out2, vals, cursors, ids, modulus, lo, hi - 1, a); }
  }

  /** Running a chunk leaves the other regions alone. */
  lemma {:induction false} ChunkRunOutside<T>(w: Sweep<T>, m: Memory<T>, t: nat, a: nat)
    requires m.Sized(|m.keys|) && w.Valid(|m.keys|) && t < w.threads && a < |m.keys|
    requires !(w.Lo(t) <= a < w.Hi(t))
    ensures w.ChunkRun(m, t).keys[a] == m.keys[a] && w.ChunkRun(m, t).idx[a] == m.idx[a]
  {
    w.ChunkIsInside(|m.keys|, t);
    ScalarRunWrites(Store(m.keys, m.idx, w.Cursors(|m.keys|, t)), w.rows, w.withIndex, w.Modulus(), w.Lo(t), w.Hi(t));
    OutsideUnchanged(m.keys, w.rows.keys, w.rows.ids, w.Lo(t), w.Hi(t), w.Hi(t), w.buckets, w.Modulus(), a);
    OutsideUnchanged(m.idx, w.rows.idx, w.rows.ids, w.Lo(t), w.Hi(t), w.Hi(t), w.buckets, w.Modulus(), a);
  }

  /** Its own region ends up as if it had run alone, wherever memory was still in its first state. */
  lemma {:induction false} ChunkRunInside<T>(w: Sweep<T>, start: Memory<T>, m: Memory<T>, t: nat, a: nat)
    requires start.Sized(|start.keys|) && w.Valid(|start.keys|) && t < w.threads && a < |start.keys|
             && m.Sized(|start.keys|)
    requires m.keys[a] == start.keys[a] && m.idx[a] == start.idx[a]
    ensures w.ChunkRun(m, t).keys[a] == Alone(w, start, t).keys[a]
    ensures w.ChunkRun(m, t).idx[a] == Alone(w, start, t).idx[a]
  {
    var size := |start.keys|;
    w.ChunkIsInside(size, t);
    var cursors := w.Cursors(size, t);
    ScalarRunWrites(Store(m.keys, m.idx, cursors), w.rows, w.withIndex, w.Modulus(), w.Lo(t), w.Hi(t));
    WrittenIsLocal(m.keys, start.keys, w.rows.keys, cursors, w.rows.ids, w.Modulus(), w.Lo(t), w.Hi(t), a);
    WrittenIsLocal(m.idx, start.idx, w.rows.idx, cursors, w.rows.ids, w.Modulus(), w.Lo(t), w.Hi(t), a);
  }

  /** Chunks k to n in sequence do not touch an address none of them owns. */
  lemma {:induction false} SequenceKeeps<T>(w: Sweep<T>, start: Memory<T>, k: nat, n: nat, a: nat)
    requires start.Sized(|start.keys|) && w.Valid(|start.keys|) && k <= n <= w.threads && a < |start.keys|
    requires forall t :: k <= t < n ==> !(w.Lo(t) <= a < w.Hi(t))
    ensures w.OneAfterAnother(start, n).keys[a] == w.OneAfterAnother(start, k).keys[a]
    ensures w.OneAfterAnother(start, n).idx[a] == w.OneAfterAnother(start, k).idx[a]
    decreases n
  {
    hide Sweep.ChunkRun;
    hide Sweep.Lo;
    hide Sweep.Hi;
    hide Sweep.Valid;
    if k < n {
      SequenceKeeps(w, start, k, n - 1, a);
      ChunkRunOutside(w, w.OneAfterAnother(start, n - 1), n - 1, a);
    }
  }

  lemma {:induction false} OnlyOneOwner<T>(w: Sweep<T>, t: nat, u: nat, a: nat)
    requires w.Lo(t) <= a < w.Hi(t) && u != t
    ensures !(w.Lo(u) <= a < w.Hi(u))
  {
    if u < t { ChunksAreOrdered(w.Span(), u + 1, t); } else { ChunksAreOrdered(w.Span(), t + 1, u); }
  }

  /** An address of chunk t changes only while chunk t runs: the two sides of its turn. */
  lemma {:induction false} UnchangedUpToItsTurn<T>(w: Sweep<T>, start: Memory<T>, t: nat, a: nat)
    requires start.Sized(|start.keys|) && w.Valid(|start.keys|)
    requires t < w.threads && w.Lo(t) <= a < w.Hi(t) && a < |start.keys|
    ensures w.OneAfterAnother(start, t).keys[a] == start.keys[a]
    ensures w.OneAfterAnother(start, t).idx[a] == start.idx[a]
  {
    forall u | 0 <= u < t
      ensures !(w.Lo(u) <= a < w.Hi(u))
    {
      OnlyOneOwner(w, t, u, a);
    }
    SequenceKeeps(w, start, 0, t, a);
  }

  lemma {:induction false} UnchangedAfterItsTurn<T>(w: Sweep<T>, start: Memory<T>, t: nat, n: nat, a: nat)
    requires start.Sized(|start.keys|) && w.Valid(|start.keys|)
    requires t < n <= w.threads && w.Lo(t) <= a < w.Hi(t) && a < |start.keys|
    ensures w.OneAfterAnother(start, n).keys[a] == w.OneAfterAnother(start, t + 1).keys[a]
    ensures w.OneAfterAnother(start, n).idx[a] == w.OneAfterAnother(start, t + 1).idx[a]
  {
    hide Sweep.OneAfterAnother;
    forall u | t < u < n
      ensures !(w.Lo(u) <= a < w.Hi(u))
    {
      OnlyOneOwner(w, t, u, a);
    }
    SequenceKeeps(w, start, t + 1, n, a);
  }

  /** After all chunks, an address of chunk t holds what that chunk leaves when run alone. */
  lemma {:induction false} SequenceAtAddress<T>(w: Sweep<T>, start: Memory<T>, t: nat, a: nat, alone: Memory<T>)
    requires start.Sized(|start.keys|) && w.Valid(|start.keys|)
    requires t < w.threads && w.Lo(t) <= a < w.Hi(t) && a < |start.keys|
    requires alone == Alone(w, start, t)
    ensures w.OneAfterAnother(start, w.threads).keys[a] == alone.keys[a]
    ensures w.OneAfterAnother(start, w.threads).idx[a] == alone.idx[a]
  {
    UnchangedUpToItsTurn(w, start, t, a);
    UnchangedAfterItsTurn(w, start, t, w.threads, a);
    ChunkRunInside(w, start, w.OneAfterAnother(start, t), t, a);
  }

  /** Main result: whatever the interleaving of the threads' single writes, when all have finished
      memory is what running the chunks one after another with the scalar loop leaves. */
  lemma {:induction false} EveryInterleavingIsSequential<T>(w: Sweep<T>, start: Memory<T>, schedule: seq<nat>)
    requires start.Sized(|start.keys|) && w.Valid(|start.keys|)
    requires w.Threaded(start).NamesThreads(schedule)
    ensures w.Threaded(start).Confined() && ChunksCover(w, |start.keys|)
    ensures var p := w.Threaded(start);
            Complete(p, p.After(schedule, |schedule|)) ==>
              p.After(schedule, |schedule|).memory == w.OneAfterAnother(start, w.threads)
  {
    hide ChunksCover;
    ThreadsAreConfined(w, start);
    var p := w.Threaded(start);
    var s := p.After(schedule, |schedule|);
    var m := w.OneAfterAnother(start, w.threads);
    if Complete(p, s) {
      forall a | 0 <= a < |start.keys|
        ensures s.memory.keys[a] == m.keys[a] && s.memory.idx[a] == m.idx[a]
      {
        if t :| 0 <= t < w.threads && p.OwnsAddress(t, a) {
          RegionsEvolveAlone(p, schedule, |schedule|, t, a);
          SoloIsDistribution(w, start, t);
          SequenceAtAddress(w, start, t, a, Alone(w, start, t));
        } else {
          OutsideIsUntouched(p, schedule, |schedule|, a);
          forall t | 0 <= t < w.threads
            ensures !(w.Lo(t) <= a < w.Hi(t))
          {
            assert !p.OwnsAddress(t, a);
          }
          SequenceKeeps(w, start, 0, w.threads, a);
        }
      }
    }
  }

  lemma {:induction false} BucketHoldsTransfers<T>(col: seq<T>, col': seq<T>, vals: seq<T>, ids: seq<nat>, lo: nat,
      hi: nat, buckets: nat, b: nat)
    requires lo <= hi <= |ids| && hi <= |vals| && NameBuckets(ids, lo, hi, buckets) && b < buckets
    requires |col| == |col'| && forall a :: lo <= a < hi && a < |col| ==> col[a] == col'[a]
    requires BucketHolds(col, vals, ids, lo, hi, b)
    ensures BucketHolds(col', vals, ids, lo, hi, b)
  {
    BucketSpan(ids, lo, hi, buckets, b);
    var from, to := Start(ids, lo, hi, b), Start(ids, lo, hi, b + 1);
    assert col[from..to] == col'[from..to];
  }

  /** What a caller sees: after any complete interleaving, every chunk is grouped by bucket, in input
      order within a bucket, each key still beside its index. */
  lemma {:induction false} EveryInterleavingGroupsRows<T>(w: Sweep<T>, start: Memory<T>, schedule: seq<nat>, t: nat,
      b: nat)
    requires start.Sized(|start.keys|) && w.Valid(|start.keys|) && w.withIndex
    requires w.Threaded(start).Confined() && w.Threaded(start).NamesThreads(schedule)
    requires Complete(w.Threaded(start), w.Threaded(start).After(schedule, |schedule|))
    requires t < w.threads && b < w.buckets
    ensures w.rows.Covers(w.Lo(t), w.Hi(t)) && ChunksCover(w, |start.keys|)
    ensures var m := w.Threaded(start).After(schedule, |schedule|).memory;
            && BucketHolds(m.keys, w.rows.keys, w.rows.ids, w.Lo(t), w.Hi(t), b)
            && BucketHolds(m.idx, w.rows.idx, w.rows.ids, w.Lo(t), w.Hi(t), b)
  {
    SpanCovers(w);
    hide ChunksCover;
    var p := w.Threaded(start);
    var m, alone := p.After(schedule, |schedule|).memory, Alone(w, start, t);
    var lo, hi := w.Lo(t), w.Hi(t);
    w.ChunkIsInside(|start.keys|, t);
    SoloIsDistribution(w, start, t);
    forall a | lo <= a < hi
      ensures m.keys[a] == alone.keys[a] && m.idx[a] == alone.idx[a]
    {
      RegionsEvolveAlone(p, schedule, |schedule|, t, a);
    }
    FilledBucket(start.keys, w.rows.keys, w.rows.ids, lo, hi, w.buckets, w.Modulus(), b);
    FilledBucket(start.idx, w.rows.idx, w.rows.ids, lo, hi, w.buckets, w.Modulus(), b);
    BucketHoldsTransfers(alone.keys, m.keys, w.rows.keys, w.rows.ids, lo, hi, w.buckets, b);
    BucketHoldsTransfers(alone.idx, m.idx, w.rows.idx, w.rows.ids, lo, hi, w.buckets, b);
  }
}
