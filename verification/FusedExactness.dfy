/** When the fused pipeline's sum is the scan's. The accumulators are 32-bit lanes, so in general it
    is right only modulo 2^32; research/intermediate-repr-src/src/references.cpp, run_fused_pipeline. */
module FusedExactness {
  import opened Aggregates
  import opened FusedPipeline

  // --- the difference is exactly the wraps ---

  lemma {:induction false} BatchIsCarried(t: Columns, q: Query, lo: nat, mid: nat, hi: nat, n: nat)
    requires t.HasRows(|t.a|) && n <= 8 && lo <= mid <= hi <= |t.a|
    ensures BatchSum(t, q, lo, mid, hi, n)
         == SelectedSum(t, q, lo, hi, n) - BatchCarry(t, q, lo, mid, n) * 0x1_0000_0000
    decreases n
  {
    if n > 0 {
      BatchIsCarried(t, q, lo, mid, hi, n - 1);
      SelectedSplits(t, q, n - 1, lo, mid, hi);
      var k := Carry(Selected(t, q, n - 1, lo, mid));
    }
  }

  lemma {:induction false} FusedIsCarried(t: Columns, q: Query, batchRows: nat, lanes: nat, offset: nat)
    requires t.HasRows(|t.a|) && q.count <= 8 && batchRows > 0 && lanes > 0 && offset <= |t.a|
    ensures FusedSum(t, q, batchRows, lanes, offset)
         == Scan(t, q, offset, |t.a|).sum - FusedCarry(t, q, batchRows, lanes, offset) * 0x1_0000_0000
    decreases |t.a| - offset
  {
    if offset < |t.a| {
      var hi := BatchEnd(t, offset, batchRows);
      var mid := BatchMid(t, offset, batchRows, lanes);
      FusedIsCarried(t, q, batchRows, lanes, hi);
      BatchIsCarried(t, q, offset, mid, hi, q.count);
      ScanSumByAggregate(t, q, offset, hi);
      ScanSplits(t, q, offset, hi, |t.a|);
    }
  }

  /** The fused sum is the scan's modulo 2^32 always, and equal to it exactly when the accumulators'
      wraps cancel. */
  lemma {:induction false} FusedEqualsScanIff(t: Columns, q: Query, batchRows: nat, lanes: nat)
    requires t.HasRows(|t.a|) && q.count <= 8 && batchRows > 0 && lanes > 0
    ensures ToWord(FusedSum(t, q, batchRows, lanes, 0)) == ToWord(Scan(t, q, 0, |t.a|).sum)
    ensures FusedSum(t, q, batchRows, lanes, 0) == Scan(t, q, 0, |t.a|).sum
       <==> FusedCarry(t, q, batchRows, lanes, 0) == 0
  {
    FusedIsCarried(t, q, batchRows, lanes, 0);
  }

  // --- bounded values ---

  /** What the dataset generator promises of column c. */
  ghost predicate IsGenerated(t: Columns) {
    forall r :: 0 <= r < |t.c| ==> -1000 <= t.c[r] <= 1000
  }

  lemma {:induction false} NoCarryInBatch(t: Columns, q: Query, lo: nat, mid: nat, n: nat)
    requires t.HasRows(|t.a|) && n <= 8 && lo <= mid <= |t.a|
    requires forall k :: 0 <= k < n ==> IsInt32(Selected(t, q, k, lo, mid))
    ensures BatchCarry(t, q, lo, mid, n) == 0
    decreases n
  {
    if n > 0 { NoCarryInBatch(t, q, lo, mid, n - 1); }
  }

  // --- arbitrary 32-bit values ---

  lemma {:induction false} ShortVectorsNeverCarry(t: Columns, q: Query, batchRows: nat, lanes: nat, offset: nat)
    requires t.HasRows(|t.a|) && q.count <= 8 && batchRows > 0 && lanes > 0 && offset <= |t.a|
    requires batchRows < lanes || |t.a| < lanes || batchRows <= 1 || |t.a| <= 1
    ensures FusedCarry(t, q, batchRows, lanes, offset) == 0
    decreases |t.a| - offset
  {
    if offset < |t.a| {
      var hi, mid := BatchEnd(t, offset, batchRows), BatchMid(t, offset, batchRows, lanes);
      assert mid <= offset + 1;
      forall k | 0 <= k < q.count
        ensures IsInt32(Selected(t, q, k, offset, mid))
      {
        assert Selected(t, q, k, offset, offset) == 0;
        if mid == offset + 1 {
          assert Selected(t, q, k, offset, mid)
              == Selected(t, q, k, offset, offset) + if q.Passes(t, offset) then AggregateValue(t.c[offset], k) else 0;
        }
      }
      NoCarryInBatch(t, q, offset, mid, q.count);
      ShortVectorsNeverCarry(t, q, batchRows, lanes, hi);
    }
  }

  /** Two passing rows of the largest value, then rows that do not pass. */
  function Overflowing(q: Query, rows: nat): (t: Columns)
    requires rows >= 2 && INT32_MIN < q.p1 <= INT32_MAX && INT32_MIN < q.p2 <= INT32_MAX
    ensures t.HasRows(rows) && t.AreInt32(rows)
    ensures forall r :: 0 <= r < rows ==> t.c[r] == INT32_MAX && (q.Passes(t, r) <==> r < 2)
  {
    Columns(seq(rows, r => if r < 2 then q.p1 - 1 else q.p1), seq(rows, _ => q.p2 - 1), seq(rows, _ => INT32_MAX))
  }

  lemma {:induction false} OverflowingPart(q: Query, rows: nat, k: nat, lo: nat, hi: nat)
    requires rows >= 2 && INT32_MIN < q.p1 <= INT32_MAX && INT32_MIN < q.p2 <= INT32_MAX
    requires lo <= hi <= rows && k < 8 && (lo == 0 || 2 <= lo)
    ensures Selected(Overflowing(q, rows), q, k, lo, hi)
         == (var v := AggregateValue(INT32_MAX, k); if lo >= 2 || hi == 0 then 0 else if hi == 1 then v else v + v)
    decreases hi
  {
    if lo < hi {
      var t := Overflowing(q, rows);
      OverflowingPart(q, rows, k, lo, hi - 1);
      assert t.c[hi - 1] == INT32_MAX && (q.Passes(t, hi - 1) <==> hi - 1 < 2);
    }
  }

  lemma {:induction false} TwiceTheLargestCarries(k: nat)
    requires k < 8
    ensures Carry(AggregateValue(INT32_MAX, k) + AggregateValue(INT32_MAX, k)) == 1
  {
    AggregateValueStaysClose(INT32_MAX, k);
    var v := AggregateValue(INT32_MAX, k);
    assert INT32_MAX / 128 == 0xff_ffff;
    assert 0x7fff_ff80 <= v <= 0x7fff_ffff;
  }

  lemma {:induction false} OverflowingBatchCarry(q: Query, rows: nat, lo: nat, mid: nat, n: nat)
    requires rows >= 2 && INT32_MIN < q.p1 <= INT32_MAX && INT32_MIN < q.p2 <= INT32_MAX
    requires n <= 8 && lo <= mid <= rows && ((lo == 0 && 2 <= mid) || 2 <= lo)
    ensures BatchCarry(Overflowing(q, rows), q, lo, mid, n) == if lo == 0 then n else 0
    decreases n
  {
    if n > 0 {
      OverflowingBatchCarry(q, rows, lo, mid, n - 1);
      OverflowingPart(q, rows, n - 1, lo, mid);
      TwiceTheLargestCarries(n - 1);
    }
  }

  lemma {:induction false} OverflowingCarry(q: Query, rows: nat, batchRows: nat, lanes: nat, offset: nat)
    requires rows >= 2 && INT32_MIN < q.p1 <= INT32_MAX && INT32_MIN < q.p2 <= INT32_MAX
    requires q.count <= 8 && batchRows >= 2 && batchRows >= lanes && rows >= lanes && lanes > 0
    requires offset <= rows && (offset == 0 || 2 <= offset)
    ensures FusedCarry(Overflowing(q, rows), q, batchRows, lanes, offset) == if offset == 0 then q.count else 0
    decreases rows - offset
  {
    if offset < rows {
      var t := Overflowing(q, rows);
      var hi, mid := BatchEnd(t, offset, batchRows), BatchMid(t, offset, batchRows, lanes);
      OverflowingCarry(q, rows, batchRows, lanes, hi);
      if offset == 0 { VectorEndAtLeast(hi, lanes); }
      OverflowingBatchCarry(q, rows, offset, mid, q.count);
    }
  }

  lemma {:induction false} VectorEndAtLeast(rows: nat, lanes: nat)
    requires 0 < lanes <= rows
    ensures VectorEnd(0, rows, lanes) >= lanes
    ensures rows >= 2 ==> VectorEnd(0, rows, lanes) >= 2
  {
    assert VectorEnd(0, rows, lanes) == VectorEnd(lanes, rows, lanes);
  }

  /** The fused sum agrees with the scan on every 32-bit table of the given size.  */
  ghost predicate ExactForAll(q: Query, rows: nat, batchRows: nat, lanes: nat)
    requires q.count <= 8 && batchRows > 0 && lanes > 0
  {
    forall t: Columns :: t.HasRows(rows) && t.AreInt32(rows) ==>
      FusedSum(t, q, batchRows, lanes, 0) == Scan(t, q, 0, rows).sum
  }

  /** For a query that some row can pass, that is so exactly when no batch puts two rows through the
      vector accumulators. */
  lemma {:induction false} ExactForAllIff(q: Query, rows: nat, batchRows: nat, lanes: nat)
    requires q.Supported() && batchRows > 0 && lanes > 0
    requires INT32_MIN < q.p1 <= INT32_MAX && INT32_MIN < q.p2 <= INT32_MAX
    ensures ExactForAll(q, rows, batchRows, lanes)
       <==> batchRows < lanes || rows < lanes || batchRows <= 1 || rows <= 1
  {
    if batchRows < lanes || rows < lanes || batchRows <= 1 || rows <= 1 {
      forall t: Columns | t.HasRows(rows) && t.AreInt32(rows)
        ensures FusedSum(t, q, batchRows, lanes, 0) == Scan(t, q, 0, rows).sum
      {
        ShortVectorsNeverCarry(t, q, batchRows, lanes, 0);
        FusedIsCarried(t, q, batchRows, lanes, 0);
      }
    } else {
      var t := Overflowing(q, rows);
      OverflowingCarry(q, rows, batchRows, lanes, 0);
      FusedIsCarried(t, q, batchRows, lanes, 0);
      assert FusedSum(t, q, batchRows, lanes, 0) != Scan(t, q, 0, rows).sum;
    }
  }
}
