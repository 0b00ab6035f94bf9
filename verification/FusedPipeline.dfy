/** The fused SIMD pipeline: batches, a vector loop with 32-bit lane accumulators, a scalar tail.
    research/intermediate-repr-src: src/references.cpp, include/intermediate_repr/kernel_templates.hpp. */
module FusedPipeline {
  import opened Words
  import opened Aggregates

  // --- lanes ---

  function SumOf(v: seq<int>, n: nat): int
    requires n <= |v|
  {
    if n == 0 then 0 else SumOf(v, n - 1) + v[n - 1]
  }

  /** Lane-wise addition of 32-bit lanes. */
  function AddLanes(u: seq<int>, v: seq<int>): (r: seq<int>)
    requires |u| == |v|
    ensures |r| == |u| && forall l {:trigger r[l]} :: 0 <= l < |u| ==> r[l] == Wrap32(u[l] + v[l])
  {
    seq(|u|, l requires 0 <= l < |u| => Wrap32(u[l] + v[l]))
  }

  /** Horizontal addition: a 32-bit result, whatever order the lanes are added in. */
  function Hadd(v: seq<int>): int {
    Wrap32(SumOf(v, |v|))
  }

  lemma {:induction false} AddLanesSum(u: seq<int>, v: seq<int>, n: nat) returns (k: int)
    requires |u| == |v| && n <= |u|
    ensures SumOf(AddLanes(u, v), n) == SumOf(u, n) + SumOf(v, n) - k * 0x1_0000_0000
    decreases n
  {
    if n == 0 {
      k := 0;
    } else {
      var before := AddLanesSum(u, v, n - 1);
      k := before + Carry(u[n - 1] + v[n - 1]);
    }
  }

  /** An accumulator that is right modulo 2^32 stays so when a vector is added lane-wise. */
  lemma {:induction false} AccumulatorStaysCongruent(u: seq<int>, v: seq<int>, exact: int)
    requires |u| == |v| && Wrap32(SumOf(u, |u|)) == Wrap32(exact)
    ensures Hadd(AddLanes(u, v)) == Wrap32(exact + SumOf(v, |v|))
  {
    var k := AddLanesSum(u, v, |u|);
    var s, x := SumOf(u, |u|), SumOf(v, |v|);
    SameWordSameWrap(s + x - k * 0x1_0000_0000, exact + x, Carry(s) - Carry(exact) - k);
  }

  /** select(active, c ^ salt, 0) */
  function SelectLanes(active: seq<bool>, c: seq<int>, k: nat): (r: seq<int>)
    requires |active| == |c| && k < 8
    ensures |r| == |c|
    ensures forall l {:trigger r[l]} :: 0 <= l < |c| ==> r[l] == if active[l] then AggregateValue(c[l], k) else 0
  {
    seq(|c|, l requires 0 <= l < |c| => if active[l] then AggregateValue(c[l], k) else 0)
  }

  function LessThan(v: seq<int>, threshold: int): (m: seq<bool>)
    ensures |m| == |v| && forall l {:trigger m[l]} :: 0 <= l < |v| ==> m[l] == (v[l] < threshold)
  {
    seq(|v|, l requires 0 <= l < |v| => v[l] < threshold)
  }

  function And(m: seq<bool>, n: seq<bool>): (r: seq<bool>)
    requires |m| == |n|
    ensures |r| == |m| && forall l {:trigger r[l]} :: 0 <= l < |m| ==> r[l] == (m[l] && n[l])
  {
    seq(|m|, l requires 0 <= l < |m| => m[l] && n[l])
  }

  /** mask_population_count of the first n lanes */
  function ActiveLanes(m: seq<bool>, n: nat): nat
    requires n <= |m|
  {
    if n == 0 then 0 else ActiveLanes(m, n - 1) + if m[n - 1] then 1 else 0
  }

  // --- the accumulator object ---

  class FilterAggregate {
    const threshold: int
    const lanes: nat
    const count: nat
    var vectorSums: seq<seq<int>>
    var scalarSums: seq<int>
    var afterA: nat
    var afterB: nat
    /** What each vector accumulator would hold in unbounded arithmetic. */
    ghost var exact: seq<int>

    ghost predicate Valid()
      reads this
    {
      && count <= 8
      && |vectorSums| == |scalarSums| == |exact| == count
      && (forall k :: 0 <= k < count ==> |vectorSums[k]| == lanes)
      && (forall k :: 0 <= k < count ==> Hadd(vectorSums[k]) == Wrap32(exact[k]))
    }

    constructor (threshold: int, lanes: nat, count: nat)
      requires count <= 8
      ensures Valid() && this.threshold == threshold && this.lanes == lanes && this.count == count
      ensures afterA == 0 && afterB == 0
      ensures forall k :: 0 <= k < count ==> exact[k] == 0 && scalarSums[k] == 0
    {
      this.threshold, this.lanes, this.count := threshold, lanes, count;
      vectorSums := seq(count, _ => seq(lanes, _ => 0));
      scalarSums := seq(count, _ => 0);
      afterA, afterB := 0, 0;
      exact := seq(count, _ => 0);
      SumOfZeros(seq(lanes, _ => 0), lanes);
    }

    /** One vector of rows. */
    method ApplyVector(activeA: seq<bool>, b: seq<int>, c: seq<int>)
      requires Valid() && |activeA| == |b| == |c| == lanes
      modifies this
      ensures Valid() && scalarSums == old(scalarSums)
      ensures afterA == old(afterA) + ActiveLanes(activeA, lanes)
      ensures afterB == old(afterB) + ActiveLanes(And(activeA, LessThan(b, threshold)), lanes)
      ensures forall k :: 0 <= k < count ==>
                exact[k] == old(exact[k]) + SumOf(SelectLanes(And(activeA, LessThan(b, threshold)), c, k), lanes)
    {
      afterA := afterA + ActiveLanes(activeA, lanes);
      var activeB := LessThan(b, threshold);
      var active := And(activeA, activeB);
      afterB := afterB + ActiveLanes(active, lanes);
      ghost var start := exact;
      for aggregate := 0 to count
        invariant Valid() && scalarSums == old(scalarSums)
        invariant afterA == old(afterA) + ActiveLanes(activeA, lanes)
        invariant afterB == old(afterB) + ActiveLanes(active, lanes)
        invariant forall k :: 0 <= k < count ==>
                    exact[k] == start[k] + if k < aggregate then SumOf(SelectLanes(active, c, k), lanes) else 0
      {
        var selected := SelectLanes(active, c, aggregate);
        Accumulate(aggregate, selected);
      }
    }

    /** vector_sums[k] = add(vector_sums[k], selected) */
    method Accumulate(k: nat, selected: seq<int>)
      requires Valid() && k < count && |selected| == lanes
      modifies `vectorSums, `exact
      ensures Valid() && exact == old(exact)[k := old(exact[k]) + SumOf(selected, lanes)]
    {
      AccumulatorStaysCongruent(vectorSums[k], selected, exact[k]);
      vectorSums := vectorSums[k := AddLanes(vectorSums[k], selected)];
      exact := exact[k := exact[k] + SumOf(selected, lanes)];
    }

    /** One row of the tail; a single lane's sum cannot wrap. */
    method ApplyScalar(activeA: bool, b: int, c: int)
      requires Valid()
      modifies this
      ensures Valid() && exact == old(exact)
      ensures afterA == old(afterA) + if activeA then 1 else 0
      ensures afterB == old(afterB) + if activeA && b < threshold then 1 else 0
      ensures forall k :: 0 <= k < count ==>
                scalarSums[k] == old(scalarSums[k]) + if activeA && b < threshold then AggregateValue(c, k) else 0
    {
      var active := activeA && b < threshold;
      afterA := afterA + if activeA then 1 else 0;
      afterB := afterB + if active then 1 else 0;
      ghost var start := scalarSums;
      for aggregate := 0 to count
        invariant Valid() && exact == old(exact)
        invariant afterA == old(afterA) + if activeA then 1 else 0
        invariant afterB == old(afterB) + if active then 1 else 0
        invariant forall k :: 0 <= k < count ==>
                    scalarSums[k] == start[k] + if k < aggregate && active then AggregateValue(c, k) else 0
      {
        var selected := if active then AggregateValue(c, aggregate) else 0;
        assert SumOf([selected], 1) == SumOf([selected], 0) + selected;
        scalarSums := scalarSums[aggregate := scalarSums[aggregate] + Hadd([selected])];
      }
    }

    method Finalize() returns (r: Totals)
      requires Valid()
      ensures r == Totals(FinalSum(exact, scalarSums, count), afterA, afterB)
    {
      var sum := 0;
      for aggregate := 0 to count
        invariant sum == FinalSum(exact, scalarSums, aggregate)
      {
        sum := sum + Hadd(vectorSums[aggregate]);
        sum := sum + scalarSums[aggregate];
      }
      return Totals(sum, afterA, afterB);
    }
  }

  lemma {:induction false} SumOfZeros(v: seq<int>, n: nat)
    requires n <= |v| && forall l :: 0 <= l < |v| ==> v[l] == 0
    ensures SumOf(v, n) == 0
  {
    if n > 0 { SumOfZeros(v, n - 1); }
  }

  function FinalSum(exact: seq<int>, scalar: seq<int>, n: nat): int
    requires n <= |exact| && n <= |scalar|
  {
    if n == 0 then 0 else FinalSum(exact, scalar, n - 1) + Wrap32(exact[n - 1]) + scalar[n - 1]
  }

  // --- what the pipeline computes, in closed form ---

  /** Where the vector loop of a batch stops. */
  function VectorEnd(i: nat, rows: nat, lanes: nat): (end: nat)
    requires i <= rows && lanes > 0
    ensures i <= end <= rows < end + lanes
    decreases rows - i
  {
    if i + lanes <= rows then VectorEnd(i + lanes, rows, lanes) else i
  }

  /** The vector loop takes all whole vectors of the batch and leaves the rest to the tail. */
  lemma {:induction false} VectorEndIs(i: nat, rows: nat, lanes: nat)
    requires i <= rows && lanes > 0
    ensures VectorEnd(i, rows, lanes) == rows - (rows - i) % lanes
    decreases rows - i
  {
    if i + lanes <= rows {
      VectorEndIs(i + lanes, rows, lanes);
      DivisionIsUnique(rows - i, lanes, (rows - i - lanes) / lanes + 1, (rows - i - lanes) % lanes);
    } else {
      DivisionIsUnique(rows - i, lanes, 0, rows - i);
    }
  }

  /** One batch: each aggregate's vector part wraps to 32 bits, its tail does not. */
  function BatchSum(t: Columns, q: Query, lo: nat, mid: nat, hi: nat, n: nat): int
    requires t.HasRows(|t.a|) && n <= 8 && lo <= mid <= hi <= |t.a|
    decreases n
  {
    if n == 0 then 0
    else BatchSum(t, q, lo, mid, hi, n - 1) + Wrap32(Selected(t, q, n - 1, lo, mid)) + Selected(t, q, n - 1, mid, hi)
  }

  function BatchEnd(t: Columns, offset: nat, batchRows: nat): (hi: nat)
    requires offset <= |t.a|
    ensures offset <= hi <= |t.a| && (batchRows > 0 && offset < |t.a| ==> hi > offset)
  {
    if batchRows < |t.a| - offset then offset + batchRows else |t.a|
  }

  function BatchMid(t: Columns, offset: nat, batchRows: nat, lanes: nat): (mid: nat)
    requires offset <= |t.a| && lanes > 0
    ensures offset <= mid <= BatchEnd(t, offset, batchRows)
  {
    offset + VectorEnd(0, BatchEnd(t, offset, batchRows) - offset, lanes)
  }

  /** A batch ends after `batchRows` rows or with the relation, and its vector part after the last whole vector. */
  lemma {:induction false} BatchIs(t: Columns, offset: nat, batchRows: nat, lanes: nat)
    requires offset <= |t.a| && lanes > 0
    ensures var rows := if batchRows < |t.a| - offset then batchRows else |t.a| - offset;
            && BatchEnd(t, offset, batchRows) == offset + rows
            && BatchMid(t, offset, batchRows, lanes) == offset + rows - rows % lanes
  {
    VectorEndIs(0, BatchEnd(t, offset, batchRows) - offset, lanes);
  }

  /** The fused sum of all batches from `offset` on. */
  function FusedSum(t: Columns, q: Query, batchRows: nat, lanes: nat, offset: nat): int
    requires t.HasRows(|t.a|) && q.count <= 8 && batchRows > 0 && lanes > 0 && offset <= |t.a|
    decreases |t.a| - offset
  {
    if offset == |t.a| then 0
    else
      var hi := BatchEnd(t, offset, batchRows);
      BatchSum(t, q, offset, BatchMid(t, offset, batchRows, lanes), hi, q.count)
      + FusedSum(t, q, batchRows, lanes, hi)
  }

  /** How often the vector accumulators of a batch wrapped, counted with sign. */
  function BatchCarry(t: Columns, q: Query, lo: nat, mid: nat, n: nat): int
    requires t.HasRows(|t.a|) && n <= 8 && lo <= mid <= |t.a|
    decreases n
  {
    if n == 0 then 0 else BatchCarry(t, q, lo, mid, n - 1) + Carry(Selected(t, q, n - 1, lo, mid))
  }

  function FusedCarry(t: Columns, q: Query, batchRows: nat, lanes: nat, offset: nat): int
    requires t.HasRows(|t.a|) && q.count <= 8 && batchRows > 0 && lanes > 0 && offset <= |t.a|
    decreases |t.a| - offset
  {
    if offset == |t.a| then 0
    else BatchCarry(t, q, offset, BatchMid(t, offset, batchRows, lanes), q.count)
         + FusedCarry(t, q, batchRows, lanes, BatchEnd(t, offset, batchRows))
  }

  // --- the lanes of a block against its rows ---

  lemma {:induction false} BlockIsRows(t: Columns, q: Query, k: nat, i: nat, lanes: nat, n: nat)
    requires t.HasRows(|t.a|) && k < 8 && i + lanes <= |t.a| && n <= lanes
    ensures var active := And(LessThan(t.a[i..i + lanes], q.p1), LessThan(t.b[i..i + lanes], q.p2));
            SumOf(SelectLanes(active, t.c[i..i + lanes], k), n) == Selected(t, q, k, i, i + n)
    decreases n
  {
    if n > 0 { BlockIsRows(t, q, k, i, lanes, n - 1); }
  }

  lemma {:induction false} BlockCounts(t: Columns, q: Query, i: nat, lanes: nat, n: nat)
    requires t.HasRows(|t.a|) && q.count <= 8 && i + lanes <= |t.a| && n <= lanes
    ensures var activeA := LessThan(t.a[i..i + lanes], q.p1);
            && ActiveLanes(activeA, n) == Scan(t, q, i, i + n).afterA
            && ActiveLanes(And(activeA, LessThan(t.b[i..i + lanes], q.p2)), n) == Scan(t, q, i, i + n).afterB
    decreases n
  {
    if n > 0 { BlockCounts(t, q, i, lanes, n - 1); }
  }

  lemma {:induction false} SelectedSplits(t: Columns, q: Query, k: nat, lo: nat, mid: nat, hi: nat)
    requires t.HasRows(|t.a|) && k < 8 && lo <= mid <= hi <= |t.a|
    ensures Selected(t, q, k, lo, hi) == Selected(t, q, k, lo, mid) + Selected(t, q, k, mid, hi)
    decreases hi
  {
    if mid < hi { SelectedSplits(t, q, k, lo, mid, hi - 1); }
  }

  // --- the code ---

  /** Rows lo..i have gone through the vector loop. */
  ghost predicate VectorPhase(aggregate: FilterAggregate, t: Columns, q: Query, lo: nat, i: nat)
    requires t.HasRows(|t.a|) && q.count <= 8 && lo <= i <= |t.a|
    reads aggregate
  {
    TailPhase(aggregate, t, q, lo, i, i)
  }

  /** Rows lo..mid have gone through the vector loop and mid..i through the tail. */
  ghost predicate TailPhase(aggregate: FilterAggregate, t: Columns, q: Query, lo: nat, mid: nat, i: nat)
    requires t.HasRows(|t.a|) && q.count <= 8 && lo <= mid <= i <= |t.a|
    reads aggregate
  {
    && aggregate.Valid() && aggregate.threshold == q.p2 && aggregate.count == q.count
    && aggregate.afterA == Scan(t, q, lo, i).afterA && aggregate.afterB == Scan(t, q, lo, i).afterB
    && (forall k :: 0 <= k < q.count ==> aggregate.exact[k] == Selected(t, q, k, lo, mid))
    && (forall k :: 0 <= k < q.count ==> aggregate.scalarSums[k] == Selected(t, q, k, mid, i))
  }

  lemma {:induction false} NothingScanned(t: Columns, q: Query, lo: nat)
    requires t.HasRows(|t.a|) && q.count <= 8 && lo <= |t.a|
    ensures Scan(t, q, lo, lo) == Totals(0, 0, 0)
    ensures forall k :: 0 <= k < 8 ==> Selected(t, q, k, lo, lo) == 0
  {
  }

  /** One vector of the batch that started at lo. */
  method VectorStep(aggregate: FilterAggregate, t: Columns, q: Query, ghost lo: nat, i: nat)
    requires t.HasRows(|t.a|) && q.count <= 8 && lo <= i && i + aggregate.lanes <= |t.a|
    requires VectorPhase(aggregate, t, q, lo, i)
    modifies aggregate
    ensures VectorPhase(aggregate, t, q, lo, i + aggregate.lanes)
  {
    hide Scan;
    hide Selected;
    hide SumOf;
    hide SelectLanes;
    hide ActiveLanes;
    NothingScanned(t, q, i);
    NothingScanned(t, q, i + aggregate.lanes);
    var lanes := aggregate.lanes;
    var a := t.a[i..i + lanes];
    var b := t.b[i..i + lanes];
    var c := t.c[i..i + lanes];
    var activeA := LessThan(a, q.p1);
    aggregate.ApplyVector(activeA, b, c);
    ScanSplits(t, q, lo, i, i + lanes);
    BlockCounts(t, q, i, lanes, lanes);
    forall k | 0 <= k < q.count
      ensures aggregate.exact[k] == Selected(t, q, k, lo, i + lanes)
    {
      SelectedSplits(t, q, k, lo, i, i + lanes);
      BlockIsRows(t, q, k, i, lanes, lanes);
    }
  }

  /** One row of the tail. */
  method TailStep(aggregate: FilterAggregate, t: Columns, q: Query, ghost lo: nat, ghost mid: nat, row: nat)
    requires t.HasRows(|t.a|) && q.count <= 8 && lo <= mid <= row < |t.a|
    requires TailPhase(aggregate, t, q, lo, mid, row)
    modifies aggregate
    ensures TailPhase(aggregate, t, q, lo, mid, row + 1)
  {
    aggregate.ApplyScalar(t.a[row] < q.p1, t.b[row], t.c[row]);
  }

  /** The vector loop of one batch. */
  method RunVectors(aggregate: FilterAggregate, t: Columns, q: Query, lo: nat, hi: nat) returns (i: nat)
    requires t.HasRows(|t.a|) && q.count <= 8 && lo <= hi <= |t.a| && aggregate.lanes > 0
    requires VectorPhase(aggregate, t, q, lo, lo)
    modifies aggregate
    ensures i == VectorEnd(0, hi - lo, aggregate.lanes) && VectorPhase(aggregate, t, q, lo, lo + i)
  {
    var rows := hi - lo;
    i := 0;
    while i + aggregate.lanes <= rows
      invariant i <= rows && VectorEnd(i, rows, aggregate.lanes) == VectorEnd(0, rows, aggregate.lanes)
      invariant VectorPhase(aggregate, t, q, lo, lo + i)
    {
      VectorStep(aggregate, t, q, lo, lo + i);
      i := i + aggregate.lanes;
    }
  }

  /** One batch. */
  method RunBatch(t: Columns, q: Query, lo: nat, hi: nat, lanes: nat) returns (r: Totals)
    requires t.HasRows(|t.a|) && q.count <= 8 && lo <= hi <= |t.a| && lanes > 0
    ensures r == Totals(BatchSum(t, q, lo, lo + VectorEnd(0, hi - lo, lanes), hi, q.count),
                        Scan(t, q, lo, hi).afterA, Scan(t, q, lo, hi).afterB)
  {
    hide Scan;
    hide Selected;
    NothingScanned(t, q, lo);
    var aggregate := new FilterAggregate(q.p2, lanes, q.count);
    var i := RunVectors(aggregate, t, q, lo, hi);
    ghost var mid := lo + i;
    while i < hi - lo
      invariant mid <= lo + i <= hi && TailPhase(aggregate, t, q, lo, mid, lo + i)
    {
      TailStep(aggregate, t, q, lo, mid, lo + i);
      i := i + 1;
    }
    FinalSumIsBatchSum(t, q, lo, mid, hi, aggregate.exact, aggregate.scalarSums, q.count);
    r := aggregate.Finalize();
  }

  lemma {:induction false} FinalSumIsBatchSum(t: Columns, q: Query, lo: nat, mid: nat, hi: nat, exact: seq<int>,
      scalar: seq<int>, n: nat)
    requires t.HasRows(|t.a|) && lo <= mid <= hi <= |t.a| && n <= 8 && n <= |exact| && n <= |scalar|
    requires forall k :: 0 <= k < n ==> exact[k] == Selected(t, q, k, lo, mid)
    requires forall k :: 0 <= k < n ==> scalar[k] == Selected(t, q, k, mid, hi)
    ensures FinalSum(exact, scalar, n) == BatchSum(t, q, lo, mid, hi, n)
    decreases n
  {
    if n > 0 { FinalSumIsBatchSum(t, q, lo, mid, hi, exact, scalar, n - 1); }
  }

  lemma {:induction false} FusedUnfolds(t: Columns, q: Query, batchRows: nat, lanes: nat, offset: nat, hi: nat,
      batch: int) returns (rest: int)
    requires t.HasRows(|t.a|) && q.count <= 8 && batchRows > 0 && lanes > 0 && offset < |t.a|
    requires hi == BatchEnd(t, offset, batchRows)
    requires batch == BatchSum(t, q, offset, offset + VectorEnd(0, hi - offset, lanes), hi, q.count)
    ensures rest == FusedSum(t, q, batchRows, lanes, hi)
    ensures FusedSum(t, q, batchRows, lanes, offset) == batch + rest
  {
    hide BatchSum;
    rest := FusedSum(t, q, batchRows, lanes, hi);
  }

  /** One round of the batch loop. `rest` is what the batches from here on still add. */
  method AddBatch(total: Totals, t: Columns, q: Query, batchRows: nat, lanes: nat, offset: nat, ghost rest: int)
    returns (r: Totals, ghost rest': int)
    requires t.HasRows(|t.a|) && q.count <= 8 && batchRows > 0 && lanes > 0 && offset < |t.a|
    requires rest == FusedSum(t, q, batchRows, lanes, offset)
    requires total.afterA == Scan(t, q, 0, offset).afterA && total.afterB == Scan(t, q, 0, offset).afterB
    ensures var hi := BatchEnd(t, offset, batchRows);
            && rest' == FusedSum(t, q, batchRows, lanes, hi)
            && r.sum + rest' == total.sum + rest
            && r.afterA == Scan(t, q, 0, hi).afterA && r.afterB == Scan(t, q, 0, hi).afterB
  {
    hide BatchSum;
    hide FusedSum;
    hide Scan;
    var rows := if batchRows < |t.a| - offset then batchRows else |t.a| - offset;
    var consumed := RunBatch(t, q, offset, offset + rows, lanes);
    rest' := FusedUnfolds(t, q, batchRows, lanes, offset, offset + rows, consumed.sum);
    ScanSplits(t, q, 0, offset, offset + rows);
    r := Totals(total.sum + consumed.sum, total.afterA + consumed.afterA, total.afterB + consumed.afterB);
  }

  /** run_fused_pipeline: both survivor counts are exactly the scan's; the sum is the batched one. */
  method RunFused(t: Columns, q: Query, batchRows: nat, lanes: nat) returns (r: Outcome<Totals>)
    requires t.HasRows(|t.a|) && q.Supported() && lanes > 0
    ensures r == if batchRows == 0 then Invalid
                 else Ok(Totals(FusedSum(t, q, batchRows, lanes, 0),
                                Scan(t, q, 0, |t.a|).afterA, Scan(t, q, 0, |t.a|).afterB))
  {
    if batchRows == 0 {
      return Invalid;
    }
    var total := Totals(0, 0, 0);
    var offset := 0;
    ghost var done := 0;
    ghost var rest := FusedSum(t, q, batchRows, lanes, 0);
    ghost var all := rest;
    while offset < |t.a|
      invariant done == if offset <= |t.a| then offset else |t.a|
      invariant rest == FusedSum(t, q, batchRows, lanes, done) && total.sum + rest == all
      invariant total.afterA == Scan(t, q, 0, done).afterA && total.afterB == Scan(t, q, 0, done).afterB
    {
      total, rest := AddBatch(total, t, q, batchRows, lanes, offset, rest);
      done := BatchEnd(t, offset, batchRows);
      offset := offset + batchRows;
    }
    return Ok(total);
  }
}
