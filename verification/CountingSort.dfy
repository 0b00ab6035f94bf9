/** Cursor construction and what distribution makes of it: a stable counting permutation of the
    chunk. test-sort/benchmarks/bench_samplesort_streams.cpp, stream_sweep. */
module CountingSort {
  import opened Words
  import opened Lanes
  import opened Distribute

  // --- histogram and exclusive prefix sums ---

  /** First address of bucket b: the chunk's start plus all rows of smaller buckets. */
  function Start(ids: seq<nat>, lo: nat, hi: nat, b: nat): (s: nat)
    requires lo <= hi <= |ids|
    ensures s >= lo
    decreases b
  {
    if b == 0 then lo else Start(ids, lo, hi, b - 1) + Occurrences(ids, b - 1, lo, hi)
  }

  function StartCursors(ids: seq<nat>, lo: nat, hi: nat, buckets: nat, modulus: nat): (r: seq<nat>)
    requires lo <= hi <= |ids| && modulus > 0
    ensures |r| == buckets
    ensures forall b {:trigger r[b]} :: 0 <= b < buckets ==> r[b] == Wrap(Start(ids, lo, hi, b), modulus)
    decreases buckets
  {
    if buckets == 0 then []
    else StartCursors(ids, lo, hi, buckets - 1, modulus) + [Wrap(Start(ids, lo, hi, buckets - 1), modulus)]
  }

  lemma {:induction false} StartStep(ids: seq<nat>, lo: nat, hi: nat, b: nat)
    requires lo <= hi <= |ids|
    ensures Start(ids, lo, hi, b + 1) == Start(ids, lo, hi, b) + Occurrences(ids, b, lo, hi)
  {
  }

  lemma {:induction false} RunningStep(ids: seq<nat>, lo: nat, hi: nat, modulus: nat, b: nat)
    requires lo <= hi <= |ids| && modulus > 0
    ensures Wrap(Wrap(Start(ids, lo, hi, b), modulus) + Occurrences(ids, b, lo, hi), modulus)
         == Wrap(Start(ids, lo, hi, b + 1), modulus)
  {
    StartStep(ids, lo, hi, b);
    WrapAdds(Start(ids, lo, hi, b), Occurrences(ids, b, lo, hi), modulus);
  }

  ghost predicate NameBuckets(ids: seq<nat>, lo: nat, hi: nat, buckets: nat)
    requires lo <= hi <= |ids|
  {
    forall i :: lo <= i < hi ==> ids[i] < buckets
  }

  method BuildHistogram(ids: seq<nat>, begin: nat, end: nat, buckets: nat) returns (histogram: array<nat>)
    requires begin <= end <= |ids| && NameBuckets(ids, begin, end, buckets)
    ensures fresh(histogram) && histogram.Length == buckets
    ensures forall b :: 0 <= b < buckets ==> histogram[b] == Occurrences(ids, b, begin, end)
  {
    histogram := new nat[buckets](_ => 0);
    for i := begin to end
      invariant forall b :: 0 <= b < buckets ==> histogram[b] == Occurrences(ids, b, begin, i)
    {
      histogram[ids[i]] := histogram[ids[i]] + 1;
    }
  }

  /** The histogram loop, then the running sum in a word of `modulus` values. */
  method BuildCursors(ids: seq<nat>, begin: nat, end: nat, buckets: nat, modulus: nat) returns (cursors: array<nat>)
    requires begin <= end <= |ids| && NameBuckets(ids, begin, end, buckets) && modulus > 0
    ensures fresh(cursors)
    ensures cursors[..] == StartCursors(ids, begin, end, buckets, modulus)
  {
    var histogram := BuildHistogram(ids, begin, end, buckets);
    cursors := new nat[buckets](_ => 0);
    var running := Wrap(begin, modulus);
    for b := 0 to buckets
      invariant forall c :: 0 <= c < buckets ==> histogram[c] == Occurrences(ids, c, begin, end)
      invariant cursors[..b] == StartCursors(ids, begin, end, b, modulus)
      invariant running == Wrap(Start(ids, begin, end, b), modulus)
    {
      cursors[b] := running;
      RunningStep(ids, begin, end, modulus, b);
      running := Wrap(running + histogram[b], modulus);
      assert cursors[..b + 1] == cursors[..b] + [cursors[b]];
    }
    assert cursors[..] == cursors[..buckets];
  }

  // --- the starts partition the chunk ---

  lemma {:induction false} StartOverNothing(ids: seq<nat>, lo: nat, b: nat)
    requires lo <= |ids|
    ensures Start(ids, lo, lo, b) == lo
  {
    if b > 0 { StartOverNothing(ids, lo, b - 1); }
  }

  lemma {:induction false} StartGrowsByRow(ids: seq<nat>, lo: nat, hi: nat, b: nat)
    requires lo <= hi < |ids|
    ensures Start(ids, lo, hi + 1, b) == Start(ids, lo, hi, b) + if ids[hi] < b then 1 else 0
    decreases b
  {
    if b > 0 { StartGrowsByRow(ids, lo, hi, b - 1); }
  }

  lemma {:induction false} LastStartIsEnd(ids: seq<nat>, lo: nat, hi: nat, buckets: nat)
    requires lo <= hi <= |ids| && NameBuckets(ids, lo, hi, buckets)
    ensures Start(ids, lo, hi, buckets) == hi
    decreases hi
  {
    if lo == hi {
      StartOverNothing(ids, lo, buckets);
    } else {
      LastStartIsEnd(ids, lo, hi - 1, buckets);
      StartGrowsByRow(ids, lo, hi - 1, buckets);
    }
  }

  lemma {:induction false} StartIsMonotone(ids: seq<nat>, lo: nat, hi: nat, b: nat, c: nat)
    requires lo <= hi <= |ids| && b <= c
    ensures Start(ids, lo, hi, b) <= Start(ids, lo, hi, c)
    decreases c
  {
    if b < c { StartIsMonotone(ids, lo, hi, b, c - 1); }
  }

  /** The address of row i in unbounded arithmetic. */
  function Target(ids: seq<nat>, lo: nat, hi: nat, i: nat): nat
    requires lo <= i < hi <= |ids|
  {
    Start(ids, lo, hi, ids[i]) + Occurrences(ids, ids[i], lo, i)
  }

  lemma {:induction false} TargetIsInItsBucket(ids: seq<nat>, lo: nat, hi: nat, buckets: nat, i: nat)
    requires lo <= i < hi <= |ids| && NameBuckets(ids, lo, hi, buckets)
    ensures Start(ids, lo, hi, ids[i]) <= Target(ids, lo, hi, i) < Start(ids, lo, hi, ids[i] + 1) <= hi
  {
    OccurrencesSplit(ids, ids[i], lo, i, hi);
    OccurrencesSplit(ids, ids[i], i, i + 1, hi);
    StartIsMonotone(ids, lo, hi, ids[i] + 1, buckets);
    LastStartIsEnd(ids, lo, hi, buckets);
  }

  /** Rows are laid out by bucket, and within a bucket in input order. */
  lemma {:induction false} TargetsAreOrdered(ids: seq<nat>, lo: nat, hi: nat, buckets: nat, i: nat, j: nat)
    requires lo <= i < hi <= |ids| && lo <= j < hi && NameBuckets(ids, lo, hi, buckets)
    ensures Target(ids, lo, hi, i) < Target(ids, lo, hi, j)
       <==> ids[i] < ids[j] || (ids[i] == ids[j] && i < j)
  {
    TargetIsInItsBucket(ids, lo, hi, buckets, i);
    TargetIsInItsBucket(ids, lo, hi, buckets, j);
    if ids[i] < ids[j] {
      StartIsMonotone(ids, lo, hi, ids[i] + 1, ids[j]);
    } else if ids[j] < ids[i] {
      StartIsMonotone(ids, lo, hi, ids[j] + 1, ids[i]);
    } else if i < j {
      OccurrencesSplit(ids, ids[i], lo, i, j);
      OccurrencesSplit(ids, ids[i], i, i + 1, j);
    } else {
      OccurrencesSplit(ids, ids[i], lo, j, i);
    }
  }

  lemma {:induction false} SlotIsWrappedTarget(ids: seq<nat>, lo: nat, hi: nat, buckets: nat, modulus: nat, i: nat)
    requires lo <= i < hi <= |ids| && NameBuckets(ids, lo, hi, buckets) && modulus > 0
    ensures Slot(StartCursors(ids, lo, hi, buckets, modulus), ids, modulus, lo, i)
         == Wrap(Target(ids, lo, hi, i), modulus)
  {
    var cursors := StartCursors(ids, lo, hi, buckets, modulus);
    var start, rank := Start(ids, lo, hi, ids[i]), Occurrences(ids, ids[i], lo, i);
    assert cursors[ids[i]] == Wrap(start, modulus);
    WrapAdds(start, rank, modulus);
  }

  lemma {:induction false} SlotIsTarget(ids: seq<nat>, lo: nat, hi: nat, buckets: nat, modulus: nat, i: nat)
    requires lo <= i < hi <= |ids| && NameBuckets(ids, lo, hi, buckets) && hi <= modulus
    ensures Slot(StartCursors(ids, lo, hi, buckets, modulus), ids, modulus, lo, i) == Target(ids, lo, hi, i)
  {
    SlotIsWrappedTarget(ids, lo, hi, buckets, modulus, i);
    TargetIsInItsBucket(ids, lo, hi, buckets, i);
    WrapOfSmall(Target(ids, lo, hi, i), modulus);
  }

  lemma {:induction false} CursorsAreInBounds(ids: seq<nat>, lo: nat, hi: nat, buckets: nat, modulus: nat, size: nat)
    requires lo <= hi <= |ids| && NameBuckets(ids, lo, hi, buckets) && 0 < modulus && hi <= modulus && hi <= size
    ensures InBounds(size, StartCursors(ids, lo, hi, buckets, modulus), ids, modulus, lo, hi)
  {
    forall i | lo <= i < hi
      ensures Slot(StartCursors(ids, lo, hi, buckets, modulus), ids, modulus, lo, i) < size
    {
      SlotIsTarget(ids, lo, hi, buckets, modulus, i);
      TargetIsInItsBucket(ids, lo, hi, buckets, i);
    }
  }

  // --- the k-th row of a bucket, and the bucket as a filter of the input ---

  /** The entries of vals[lo..hi] whose row is in bucket b, in row order. */
  function Select<T>(vals: seq<T>, ids: seq<nat>, b: nat, lo: nat, hi: nat): (r: seq<T>)
    requires lo <= hi <= |ids| && hi <= |vals|
    ensures |r| == Occurrences(ids, b, lo, hi)
    decreases hi
  {
    if lo == hi then []
    else Select(vals, ids, b, lo, hi - 1) + if ids[hi - 1] == b then [vals[hi - 1]] else []
  }

  /** Every address of the chunk belongs to some bucket. */
  lemma {:induction false} BucketOf(ids: seq<nat>, lo: nat, hi: nat, a: nat, buckets: nat) returns (b: nat)
    requires lo <= hi <= |ids| && lo <= a < Start(ids, lo, hi, buckets)
    ensures b < buckets && Start(ids, lo, hi, b) <= a < Start(ids, lo, hi, b + 1)
    decreases buckets
  {
    if Start(ids, lo, hi, buckets - 1) <= a {
      b := buckets - 1;
    } else {
      b := BucketOf(ids, lo, hi, a, buckets - 1);
    }
  }

  /** Every position within a bucket belongs to some row. */
  lemma {:induction false} RowOf(ids: seq<nat>, b: nat, lo: nat, hi: nat, k: nat) returns (i: nat)
    requires lo <= hi <= |ids| && k < Occurrences(ids, b, lo, hi)
    ensures lo <= i < hi && ids[i] == b && Occurrences(ids, b, lo, i) == k
    decreases hi
  {
    if k < Occurrences(ids, b, lo, hi - 1) {
      i := RowOf(ids, b, lo, hi - 1, k);
    } else {
      i := hi - 1;
    }
  }

  lemma {:induction false} RowAt(ids: seq<nat>, lo: nat, hi: nat, buckets: nat, a: nat) returns (i: nat)
    requires lo <= a < hi <= |ids| && NameBuckets(ids, lo, hi, buckets)
    ensures lo <= i < hi && Target(ids, lo, hi, i) == a
  {
    LastStartIsEnd(ids, lo, hi, buckets);
    var b := BucketOf(ids, lo, hi, a, buckets);
    i := RowOf(ids, b, lo, hi, a - Start(ids, lo, hi, b));
  }

  // --- main results ---

  /** Address a is written by exactly one row of the chunk. */
  ghost predicate WrittenOnce(cursors: seq<nat>, ids: seq<nat>, modulus: nat, lo: nat, hi: nat, a: nat)
    requires lo <= hi <= |ids| && modulus > 0 && NameBuckets(ids, lo, hi, |cursors|)
  {
    exists i :: lo <= i < hi && Slot(cursors, ids, modulus, lo, i) == a
                && forall j :: lo <= j < hi && Slot(cursors, ids, modulus, lo, j) == a ==> j == i
  }

  ghost predicate PermutesRegion(cursors: seq<nat>, ids: seq<nat>, modulus: nat, lo: nat, hi: nat)
    requires lo <= hi <= |ids| && modulus > 0 && NameBuckets(ids, lo, hi, |cursors|)
  {
    && (forall i :: lo <= i < hi ==> lo <= Slot(cursors, ids, modulus, lo, i) < hi)
    && (forall a :: lo <= a < hi ==> WrittenOnce(cursors, ids, modulus, lo, hi, a))
  }

  /** The rows go to the chunk's own region, each of its addresses written exactly once,
      exactly when the region's addresses fit the cursor's word. Addresses are unsigned here, as the primitives'
      semantics have them; a scatter instruction that takes 32-bit indices as signed reaches only half of them. */
  lemma {:induction false} SlotsPermuteRegionIff(ids: seq<nat>, lo: nat, hi: nat, buckets: nat, modulus: nat)
    requires lo <= hi <= |ids| && NameBuckets(ids, lo, hi, buckets) && modulus > 0
    ensures PermutesRegion(StartCursors(ids, lo, hi, buckets, modulus), ids, modulus, lo, hi)
       <==> lo == hi || hi <= modulus
  {
    var cursors := StartCursors(ids, lo, hi, buckets, modulus);
    if lo < hi && hi > modulus {
      assert !WrittenOnce(cursors, ids, modulus, lo, hi, hi - 1);
      assert !PermutesRegion(cursors, ids, modulus, lo, hi);
    }
    if lo < hi <= modulus {
      forall i | lo <= i < hi
        ensures lo <= Slot(cursors, ids, modulus, lo, i) < hi
      {
        SlotIsTarget(ids, lo, hi, buckets, modulus, i);
        TargetIsInItsBucket(ids, lo, hi, buckets, i);
      }
      forall a | lo <= a < hi
        ensures WrittenOnce(cursors, ids, modulus, lo, hi, a)
      {
        var i := RowAt(ids, lo, hi, buckets, a);
        SlotIsTarget(ids, lo, hi, buckets, modulus, i);
        forall j | lo <= j < hi && Slot(cursors, ids, modulus, lo, j) == a
          ensures j == i
        {
          SlotIsTarget(ids, lo, hi, buckets, modulus, j);
          TargetsAreOrdered(ids, lo, hi, buckets, i, j);
          TargetsAreOrdered(ids, lo, hi, buckets, j, i);
        }
      }
    }
  }

  /** After rows lo..i, position k of bucket b holds the k-th of the bucket's rows so far. */
  lemma {:induction false} FilledAt<T>(out: seq<T>, vals: seq<T>, ids: seq<nat>, lo: nat, i: nat, hi: nat,
      buckets: nat, modulus: nat, b: nat, k: nat)
    requires lo <= i <= hi <= |ids| && hi <= |vals| && hi <= |out| && 0 < modulus && hi <= modulus
    requires NameBuckets(ids, lo, hi, buckets)
    requires InBounds(|out|, StartCursors(ids, lo, hi, buckets, modulus), ids, modulus, lo, i)
    requires b < buckets && k < Occurrences(ids, b, lo, i)
    ensures Start(ids, lo, hi, b) + k < hi
    ensures var a := Start(ids, lo, hi, b) + k;
            Written(out, vals, StartCursors(ids, lo, hi, buckets, modulus), ids, modulus, lo, i)[a]
            == Select(vals, ids, b, lo, i)[k]
    decreases i
  {
    FilledPosition(ids, lo, i, hi, buckets, b, k);
    SlotIsTarget(ids, lo, hi, buckets, modulus, i - 1);
    TargetIsInItsBucket(ids, lo, hi, buckets, i - 1);
    if k < Occurrences(ids, b, lo, i - 1) {
      FilledAt(out, vals, ids, lo, i - 1, hi, buckets, modulus, b, k);
    }
  }

  lemma {:induction false} OutsideUnchanged<T>(out: seq<T>, vals: seq<T>, ids: seq<nat>, lo: nat, i: nat, hi: nat,
      buckets: nat, modulus: nat, a: nat)
    requires lo <= i <= hi <= |ids| && hi <= |vals| && hi <= |out| && 0 < modulus && hi <= modulus
    requires NameBuckets(ids, lo, hi, buckets)
    requires InBounds(|out|, StartCursors(ids, lo, hi, buckets, modulus), ids, modulus, lo, i)
    requires a < |out| && !(lo <= a < hi)
    ensures Written(out, vals, StartCursors(ids, lo, hi, buckets, modulus), ids, modulus, lo, i)[a] == out[a]
    decreases i
  {
    if lo < i {
      OutsideUnchanged(out, vals, ids, lo, i - 1, hi, buckets, modulus, a);
      SlotIsTarget(ids, lo, hi, buckets, modulus, i - 1);
      TargetIsInItsBucket(ids, lo, hi, buckets, i - 1);
    }
  }

  /** Position k of bucket b is row i - 1's target exactly when it is the newest of its bucket. */
  lemma {:induction false} FilledPosition(ids: seq<nat>, lo: nat, i: nat, hi: nat, buckets: nat, b: nat, k: nat)
    requires lo < i <= hi <= |ids| && NameBuckets(ids, lo, hi, buckets)
    requires b < buckets && k < Occurrences(ids, b, lo, i)
    ensures Start(ids, lo, hi, b) + k < hi
    ensures Start(ids, lo, hi, b) + k == Target(ids, lo, hi, i - 1)
       <==> b == ids[i - 1] && k == Occurrences(ids, b, lo, i - 1)
  {
    var row := RowOf(ids, b, lo, i, k);
    TargetIsInItsBucket(ids, lo, hi, buckets, row);
    TargetsAreOrdered(ids, lo, hi, buckets, row, i - 1);
    TargetsAreOrdered(ids, lo, hi, buckets, i - 1, row);
  }

  /** Bucket b's addresses hold the entries of `vals` whose row is in bucket b, in row order. */
  ghost predicate BucketHolds<T>(col: seq<T>, vals: seq<T>, ids: seq<nat>, lo: nat, hi: nat, b: nat)
    requires lo <= hi <= |ids| && hi <= |vals|
  {
    var from, to := Start(ids, lo, hi, b), Start(ids, lo, hi, b + 1);
    from <= to <= |col| && col[from..to] == Select(vals, ids, b, lo, hi)
  }

  lemma {:induction false} FilledBucket<T>(out: seq<T>, vals: seq<T>, ids: seq<nat>, lo: nat, hi: nat, buckets: nat,
      modulus: nat, b: nat)
    requires lo <= hi <= |ids| && hi <= |vals| && hi <= |out| && 0 < modulus && hi <= modulus
    requires NameBuckets(ids, lo, hi, buckets) && b < buckets
    requires InBounds(|out|, StartCursors(ids, lo, hi, buckets, modulus), ids, modulus, lo, hi)
    ensures BucketHolds(Written(out, vals, StartCursors(ids, lo, hi, buckets, modulus), ids, modulus, lo, hi),
                        vals, ids, lo, hi, b)
  {
    var col := Written(out, vals, StartCursors(ids, lo, hi, buckets, modulus), ids, modulus, lo, hi);
    var from, to := Start(ids, lo, hi, b), Start(ids, lo, hi, b + 1);
    var sel := Select(vals, ids, b, lo, hi);
    BucketSpan(ids, lo, hi, buckets, b);
    forall k | 0 <= k < |sel|
      ensures col[from + k] == sel[k]
    {
      FilledAt(out, vals, ids, lo, hi, hi, buckets, modulus, b, k);
    }
    SliceEquals(col, from, to, sel);
  }

  lemma {:induction false} BucketSpan(ids: seq<nat>, lo: nat, hi: nat, buckets: nat, b: nat)
    requires lo <= hi <= |ids| && NameBuckets(ids, lo, hi, buckets) && b < buckets
    ensures lo <= Start(ids, lo, hi, b) <= Start(ids, lo, hi, b + 1) <= hi
    ensures Start(ids, lo, hi, b + 1) - Start(ids, lo, hi, b) == Occurrences(ids, b, lo, hi)
  {
    StartStep(ids, lo, hi, b);
    StartIsMonotone(ids, lo, hi, b + 1, buckets);
    LastStartIsEnd(ids, lo, hi, buckets);
  }

  lemma {:induction false} SliceEquals<T>(col: seq<T>, from: nat, to: nat, sel: seq<T>)
    requires from <= to <= |col| && |sel| == to - from
    requires forall k {:trigger sel[k]} :: 0 <= k < |sel| ==> col[from + k] == sel[k]
    ensures col[from..to] == sel
  {
  }

  lemma {:induction false} FinalCursor(ids: seq<nat>, lo: nat, hi: nat, buckets: nat, modulus: nat, b: nat)
    requires lo <= hi <= |ids| && 0 < modulus && b < buckets
    ensures Advanced(StartCursors(ids, lo, hi, buckets, modulus), ids, modulus, lo, hi)[b]
         == Wrap(Start(ids, lo, hi, b + 1), modulus)
  {
    RunningStep(ids, lo, hi, modulus, b);
  }

  /** The distribution of a chunk with its own prefix-sum cursors: bucket b's addresses hold
      exactly the rows of bucket b in input order, key and index alike; nothing else changes;
      and every cursor ends at the next bucket's start. */
  lemma {:induction false} DistributionIsStable<T>(keys: seq<T>, idx: seq<T>, rows: Rows<T>, lo: nat, hi: nat,
      buckets: nat, modulus: nat)
    requires rows.Covers(lo, hi) && NameBuckets(rows.ids, lo, hi, buckets)
    requires 0 < modulus && hi <= modulus && hi <= |keys| == |idx|
    ensures Start(rows.ids, lo, hi, 0) == lo && Start(rows.ids, lo, hi, buckets) == hi
    ensures var s := Store(keys, idx, StartCursors(rows.ids, lo, hi, buckets, modulus));
            && InBounds(|keys|, s.cursors, rows.ids, modulus, lo, hi)
            && var r := ScalarRun(s, rows, true, modulus, lo, hi);
            && |r.keys| == |keys| && |r.idx| == |idx| && |r.cursors| == buckets
            && (forall b :: 0 <= b < buckets ==> BucketHolds(r.keys, rows.keys, rows.ids, lo, hi, b))
            && (forall b :: 0 <= b < buckets ==> BucketHolds(r.idx, rows.idx, rows.ids, lo, hi, b))
            && (forall b :: 0 <= b < buckets ==> r.cursors[b] == Wrap(Start(rows.ids, lo, hi, b + 1), modulus))
            && (forall a :: 0 <= a < |keys| && !(lo <= a < hi) ==> r.keys[a] == keys[a] && r.idx[a] == idx[a])
  {
    var ids := rows.ids;
    var cursors := StartCursors(ids, lo, hi, buckets, modulus);
    CursorsAreInBounds(ids, lo, hi, buckets, modulus, |keys|);
    LastStartIsEnd(ids, lo, hi, buckets);
    ScalarRunWrites(Store(keys, idx, cursors), rows, true, modulus, lo, hi);
    var r := ScalarRun(Store(keys, idx, cursors), rows, true, modulus, lo, hi);
    forall b | 0 <= b < buckets
      ensures BucketHolds(r.keys, rows.keys, ids, lo, hi, b)
      ensures BucketHolds(r.idx, rows.idx, ids, lo, hi, b)
      ensures r.cursors[b] == Wrap(Start(ids, lo, hi, b + 1), modulus)
    {
      FilledBucket(keys, rows.keys, ids, lo, hi, buckets, modulus, b);
      FilledBucket(idx, rows.idx, ids, lo, hi, buckets, modulus, b);
      FinalCursor(ids, lo, hi, buckets, modulus, b);
    }
    forall a | 0 <= a < |keys| && !(lo <= a < hi)
      ensures r.keys[a] == keys[a] && r.idx[a] == idx[a]
    {
      OutsideUnchanged(keys, rows.keys, ids, lo, hi, hi, buckets, modulus, a);
      OutsideUnchanged(idx, rows.idx, ids, lo, hi, hi, buckets, modulus, a);
    }
  }
}
