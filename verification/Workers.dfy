/** Splitting a relation over workers: research/intermediate-repr-src/src/benchmark_main.cpp,
    partition_rows, total_relation_rows. */
module Workers {
  import opened Words
  import opened Aggregates
  import opened FusedPipeline
  import opened FusedExactness

  datatype Partition = Partition(offset: nat, rows: nat)

  function PartitionRows(total: nat, workers: nat, index: nat): Partition
    requires workers > 0
  {
    var base := total / workers;
    var remainder := total % workers;
    Partition(index * base + (if index < remainder then index else remainder),
              base + if index < remainder then 1 else 0)
  }

  /** The partitions tile the rows contiguously, in worker order, and differ by at most one row. */
  lemma {:induction false} PartitionsTile(total: nat, workers: nat, index: nat)
    requires workers > 0
    ensures PartitionRows(total, workers, 0).offset == 0
    ensures PartitionRows(total, workers, workers).offset == total
    ensures PartitionRows(total, workers, index + 1).offset
         == PartitionRows(total, workers, index).offset + PartitionRows(total, workers, index).rows
    ensures PartitionRows(total, workers, index).rows
         == total / workers + if index < total % workers then 1 else 0
  {
    var base := total / workers;
    assert (index + 1) * base == index * base + base;
    assert workers * base + total % workers == total;
  }

  lemma {:induction false} PartitionsAreOrdered(total: nat, workers: nat, i: nat, j: nat)
    requires workers > 0 && i <= j
    ensures PartitionRows(total, workers, i).offset <= PartitionRows(total, workers, j).offset
    decreases j
  {
    if i < j {
      PartitionsAreOrdered(total, workers, i, j - 1);
      PartitionsTile(total, workers, j - 1);
    }
  }

  // --- scaling ---

  datatype Scaling = Strong | Weak

  const SIZE_MAX := 0xffff_ffff_ffff_ffff

  /** None is the overflow error. */
  datatype Rows = Rows(count: nat) | Overflow

  function TotalRelationRows(relationRows: nat, scaling: Scaling, workers: nat): Rows
    requires workers > 0
  {
    if scaling.Strong? then Rows(relationRows)
    else if relationRows > SIZE_MAX / workers then Overflow
    else Rows(relationRows * workers)
  }

  lemma {:induction false} FitsIff(relationRows: nat, workers: nat, limit: nat)
    requires workers > 0
    ensures relationRows <= limit / workers <==> relationRows * workers <= limit
  {
    var q := limit / workers;
    var p := q * workers;
    assert p <= limit < p + workers;
    if relationRows <= q {
      ProductsAreOrdered(relationRows, q, workers);
    } else {
      ProductsAreOrdered(q + 1, relationRows, workers);
      assert (q + 1) * workers == p + workers;
    }
  }

  lemma {:induction false} ProductsAreOrdered(x: nat, y: nat, z: nat)
    requires x <= y
    ensures x * z <= y * z
  {
    assert (y - x) * z >= 0;
  }

  /** Weak scaling is refused exactly when the product overflows; otherwise every worker gets exactly
      `relationRows` rows of its own. */
  lemma {:induction false} WeakScalingIsExact(relationRows: nat, workers: nat, index: nat)
    requires index < workers
    ensures TotalRelationRows(relationRows, Weak, workers) == Overflow
       <==> relationRows * workers >= 0x1_0000_0000_0000_0000
    ensures TotalRelationRows(relationRows, Weak, workers).Rows? ==>
              var total := TotalRelationRows(relationRows, Weak, workers).count;
              PartitionRows(total, workers, index) == Partition(index * relationRows, relationRows)
  {
    FitsIff(relationRows, workers, SIZE_MAX);
    DivisionIsUnique(relationRows * workers, workers, relationRows, 0);
  }

  /** The rows of the first n workers together. */
  function RowsOfFirst(total: nat, workers: nat, n: nat): nat
    requires workers > 0
  {
    if n == 0 then 0 else RowsOfFirst(total, workers, n - 1) + PartitionRows(total, workers, n - 1).rows
  }

  lemma {:induction false} RowsAddUp(total: nat, workers: nat, n: nat)
    requires workers > 0
    ensures RowsOfFirst(total, workers, n) == PartitionRows(total, workers, n).offset
  {
    hide PartitionRows;
    if n == 0 {
      PartitionsTile(total, workers, 0);
    } else {
      RowsAddUp(total, workers, n - 1);
      PartitionsTile(total, workers, n - 1);
    }
  }

  /** Strong scaling never overflows: whatever their number, the workers together have the relation's rows,
      and no two of them differ by more than one row. */
  lemma {:induction false} StrongScalingIsExact(relationRows: nat, workers: nat, i: nat, j: nat)
    requires i < workers && j < workers
    ensures TotalRelationRows(relationRows, Strong, workers).Rows?
    ensures var total := TotalRelationRows(relationRows, Strong, workers).count;
            && RowsOfFirst(total, workers, workers) == relationRows
            && PartitionRows(total, workers, i).rows <= PartitionRows(total, workers, j).rows + 1
  {
    RowsAddUp(relationRows, workers, workers);
    PartitionsTile(relationRows, workers, i);
    PartitionsTile(relationRows, workers, j);
  }

  // --- any contiguous split ---

  /** cuts[i]..cuts[i + 1] is the i-th part. */
  ghost predicate Tiles(cuts: seq<nat>, total: nat) {
    && |cuts| > 0 && cuts[0] == 0 && cuts[|cuts| - 1] == total
    && (forall i :: 0 <= i < |cuts| ==> cuts[i] <= total)
    && (forall i :: 0 < i < |cuts| ==> cuts[i - 1] <= cuts[i])
  }

  function Part(t: Columns, cuts: seq<nat>, i: nat): (v: Columns)
    requires t.HasRows(|t.a|) && Tiles(cuts, |t.a|) && i + 1 < |cuts|
    ensures v.HasRows(|v.a|) && |v.a| == cuts[i + 1] - cuts[i]
  {
    assert cuts[i + 1 - 1] <= cuts[i + 1];
    t.View(cuts[i], cuts[i + 1] - cuts[i])
  }

  /** What one worker's fused run reports. */
  function FusedTotals(t: Columns, q: Query, batchRows: nat, lanes: nat): Totals
    requires t.HasRows(|t.a|) && q.count <= 8 && batchRows > 0 && lanes > 0
  {
    Totals(FusedSum(t, q, batchRows, lanes, 0), Scan(t, q, 0, |t.a|).afterA, Scan(t, q, 0, |t.a|).afterB)
  }

  /** The first n parts' fused results added up. */
  function FirstParts(t: Columns, q: Query, batchRows: nat, lanes: nat, cuts: seq<nat>, n: nat): Totals
    requires t.HasRows(|t.a|) && q.count <= 8 && batchRows > 0 && lanes > 0 && Tiles(cuts, |t.a|) && n < |cuts|
    decreases n
  {
    if n == 0 then Totals(0, 0, 0)
    else FirstParts(t, q, batchRows, lanes, cuts, n - 1).Plus(FusedTotals(Part(t, cuts, n - 1), q, batchRows, lanes))
  }

  /** The wraps of the first n parts' accumulators. */
  function FirstCarries(t: Columns, q: Query, batchRows: nat, lanes: nat, cuts: seq<nat>, n: nat): int
    requires t.HasRows(|t.a|) && q.count <= 8 && batchRows > 0 && lanes > 0 && Tiles(cuts, |t.a|) && n < |cuts|
    decreases n
  {
    if n == 0 then 0
    else FirstCarries(t, q, batchRows, lanes, cuts, n - 1) + FusedCarry(Part(t, cuts, n - 1), q, batchRows, lanes, 0)
  }

  lemma {:induction false} PartsRefineScan(t: Columns, q: Query, batchRows: nat, lanes: nat, cuts: seq<nat>, n: nat)
    requires t.HasRows(|t.a|) && q.count <= 8 && batchRows > 0 && lanes > 0 && Tiles(cuts, |t.a|) && n < |cuts|
    ensures var scan, first := Scan(t, q, 0, cuts[n]), FirstParts(t, q, batchRows, lanes, cuts, n);
            && first.afterA == scan.afterA && first.afterB == scan.afterB
            && first.sum == scan.sum - FirstCarries(t, q, batchRows, lanes, cuts, n) * 0x1_0000_0000
    decreases n
  {
    hide FusedSum;
    hide FusedCarry;
    if n > 0 {
      PartsRefineScan(t, q, batchRows, lanes, cuts, n - 1);
      var lo, hi := cuts[n - 1], cuts[n];
      assert lo <= hi;
      ScanOfView(t, q, lo, hi - lo, hi - lo);
      ScanSplits(t, q, 0, lo, hi);
      FusedIsCarried(Part(t, cuts, n - 1), q, batchRows, lanes, 0);
    }
  }

  // --- all workers together ---

  /** Where the first n workers' partitions begin, and where the last of them ends. */
  function WorkerCuts(total: nat, workers: nat, n: nat): (cuts: seq<nat>)
    requires workers > 0
    ensures |cuts| == n + 1
    ensures forall i {:trigger cuts[i]} :: 0 <= i <= n ==> cuts[i] == PartitionRows(total, workers, i).offset
    decreases n
  {
    if n == 0 then [PartitionRows(total, workers, 0).offset]
    else WorkerCuts(total, workers, n - 1) + [PartitionRows(total, workers, n).offset]
  }

  lemma {:induction false} WorkerCutsTile(total: nat, workers: nat)
    requires workers > 0
    ensures Tiles(WorkerCuts(total, workers, workers), total)
  {
    var cuts := WorkerCuts(total, workers, workers);
    PartitionsTile(total, workers, 0);
    forall i | 0 <= i <= workers
      ensures cuts[i] <= total
      ensures i > 0 ==> cuts[i - 1] <= cuts[i]
    {
      PartitionsTile(total, workers, 0);
      PartitionsAreOrdered(total, workers, i, workers);
      if i > 0 { PartitionsAreOrdered(total, workers, i - 1, i); }
    }
  }

  /** The workers' fused results added up. */
  function AllWorkers(t: Columns, q: Query, batchRows: nat, lanes: nat, workers: nat): Totals
    requires t.HasRows(|t.a|) && q.count <= 8 && batchRows > 0 && lanes > 0 && workers > 0
  {
    WorkerCutsTile(|t.a|, workers);
    FirstParts(t, q, batchRows, lanes, WorkerCuts(|t.a|, workers, workers), workers)
  }

  function AllCarries(t: Columns, q: Query, batchRows: nat, lanes: nat, workers: nat): int
    requires t.HasRows(|t.a|) && q.count <= 8 && batchRows > 0 && lanes > 0 && workers > 0
  {
    WorkerCutsTile(|t.a|, workers);
    FirstCarries(t, q, batchRows, lanes, WorkerCuts(|t.a|, workers, workers), workers)
  }

  /** For every worker count, batch size and lane count, the workers' survivor counts add up to one
      scalar scan's, and so does the sum, up to the accumulators' wraps. */
  lemma {:induction false} WorkersRefineScan(t: Columns, q: Query, batchRows: nat, lanes: nat, workers: nat)
    requires t.HasRows(|t.a|) && q.count <= 8 && batchRows > 0 && lanes > 0 && workers > 0
    ensures var all, scan := AllWorkers(t, q, batchRows, lanes, workers), Scan(t, q, 0, |t.a|);
            && all.afterA == scan.afterA && all.afterB == scan.afterB
            && all.sum == scan.sum - AllCarries(t, q, batchRows, lanes, workers) * 0x1_0000_0000
  {
    WorkerCutsTile(|t.a|, workers);
    PartsRefineScan(t, q, batchRows, lanes, WorkerCuts(|t.a|, workers, workers), workers);
  }
}
