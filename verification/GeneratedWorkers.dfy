/** When all workers together compute the scan of every table with generated values.
    research/intermediate-repr-src/src/benchmark_main.cpp, partition_rows, run_benchmark. */
module GeneratedWorkers {
  import opened Aggregates
  import opened FusedPipeline
  import opened FusedExactness
  import opened GeneratedExactness
  import opened Workers

  lemma {:induction false} LongestVectorGrows(rows: nat, more: nat, batchRows: nat, lanes: nat)
    requires rows <= more && lanes > 0
    ensures LongestVector(rows, batchRows, lanes) <= LongestVector(more, batchRows, lanes)
  {
    VectorEndGrows(0, if batchRows < rows then batchRows else rows,
                   if batchRows < more then batchRows else more, lanes);
  }

  /** Every part is at most as long as `longest`. */
  ghost predicate PartsWithin(cuts: seq<nat>, longest: nat) {
    forall i :: 0 < i < |cuts| ==> cuts[i] - cuts[i - 1] <= longest
  }

  lemma {:induction false} FittingPartsNeverCarry(t: Columns, q: Query, batchRows: nat, lanes: nat, cuts: seq<nat>,
                                                  n: nat, longest: nat)
    requires t.HasRows(|t.a|) && q.Supported() && batchRows > 0 && lanes > 0 && Tiles(cuts, |t.a|) && n < |cuts|
    requires IsGenerated(t) && PartsWithin(cuts, longest)
    requires VectorFits(q.count, LongestVector(longest, batchRows, lanes))
    ensures FirstCarries(t, q, batchRows, lanes, cuts, n) == 0
    decreases n
  {
    if n > 0 {
      FittingPartsNeverCarry(t, q, batchRows, lanes, cuts, n - 1, longest);
      var part := Part(t, cuts, n - 1);
      assert cuts[n] - cuts[n - 1] <= longest;
      LongestVectorGrows(|part.a|, longest, batchRows, lanes);
      VectorFitsIff(q.count, LongestVector(longest, batchRows, lanes));
      VectorFitsIff(q.count, LongestVector(|part.a|, batchRows, lanes));
      FittingNeverCarries(part, q, batchRows, lanes, 0);
    }
  }

  lemma {:induction false} PartAllPass(t: Columns, q: Query, value: int, cuts: seq<nat>, i: nat)
    requires t.HasRows(|t.a|) && Tiles(cuts, |t.a|) && i + 1 < |cuts| && AllPass(t, q, value)
    ensures AllPass(Part(t, cuts, i), q, value)
  {
    var part := Part(t, cuts, i);
    forall r | 0 <= r < |part.a|
      ensures part.c[r] == value && q.Passes(part, r)
    {
      assert t.c[cuts[i] + r] == value && q.Passes(t, cuts[i] + r);
    }
  }

  /** In a one-sided uniform table the parts' wraps have one sign, so the first part's remain. */
  lemma {:induction false} UniformPartsCarry(t: Columns, q: Query, value: int, sign: int, batchRows: nat, lanes: nat,
                                             cuts: seq<nat>, n: nat, k: nat)
    requires t.HasRows(|t.a|) && q.Supported() && batchRows > 0 && lanes > 0 && Tiles(cuts, |t.a|) && 0 < n < |cuts|
    requires OneSided(value, sign) && k < q.count
    requires AllPass(t, q, value)
    ensures sign * FirstCarries(t, q, batchRows, lanes, cuts, n)
         >= if IsInt32(LongestVector(|Part(t, cuts, 0).a|, batchRows, lanes) * AggregateValue(value, k)) then 0 else 1
    decreases n
  {
    hide FusedCarry;
    hide AggregateValue;
    hide AllPass;
    PartAllPass(t, q, value, cuts, n - 1);
    var part := Part(t, cuts, n - 1);
    UniformCarry(part, q, value, sign, batchRows, lanes, 0, k);
    if n == 1 {
      FirstBatchIsLongest(part, 0, batchRows, lanes);
      assert FirstCarries(t, q, batchRows, lanes, cuts, 0) == 0;
    } else {
      UniformPartsCarry(t, q, value, sign, batchRows, lanes, cuts, n - 1, k);
      var before, carry := FirstCarries(t, q, batchRows, lanes, cuts, n - 1), FusedCarry(part, q, batchRows, lanes, 0);
      assert sign * (before + carry) == sign * before + sign * carry;
    }
  }

  /** The first worker has as many rows as any. */
  lemma {:induction false} FirstPartIsLongest(total: nat, workers: nat)
    requires workers > 0
    ensures PartsWithin(WorkerCuts(total, workers, workers), PartitionRows(total, workers, 0).rows)
  {
    var cuts := WorkerCuts(total, workers, workers);
    forall i | 0 < i < |cuts|
      ensures cuts[i] - cuts[i - 1] <= PartitionRows(total, workers, 0).rows
    {
      PartitionsTile(total, workers, i - 1);
    }
  }

  ghost predicate WorkersExactOnGenerated(q: Query, rows: nat, batchRows: nat, lanes: nat, workers: nat)
    requires q.count <= 8 && batchRows > 0 && lanes > 0 && workers > 0
  {
    forall t: Columns :: t.HasRows(rows) && t.AreInt32(rows) && IsGenerated(t) ==>
      AllWorkers(t, q, batchRows, lanes, workers) == Scan(t, q, 0, rows)
  }

  lemma {:induction false} FittingWorkersComputeScan(t: Columns, q: Query, batchRows: nat, lanes: nat, workers: nat)
    requires t.HasRows(|t.a|) && IsGenerated(t) && q.Supported() && batchRows > 0 && lanes > 0 && workers > 0
    requires VectorFits(q.count, LongestVector(PartitionRows(|t.a|, workers, 0).rows, batchRows, lanes))
    ensures AllWorkers(t, q, batchRows, lanes, workers) == Scan(t, q, 0, |t.a|)
  {
    WorkersRefineScan(t, q, batchRows, lanes, workers);
    WorkerCutsTile(|t.a|, workers);
    FirstPartIsLongest(|t.a|, workers);
    FittingPartsNeverCarry(t, q, batchRows, lanes, WorkerCuts(|t.a|, workers, workers), workers,
                           PartitionRows(|t.a|, workers, 0).rows);
  }

  lemma {:induction false} UniformTableFails(t: Columns, q: Query, value: int, sign: int, batchRows: nat, lanes: nat,
                                             workers: nat, k: nat)
    requires t.HasRows(|t.a|) && q.Supported() && batchRows > 0 && lanes > 0 && workers > 0
    requires AllPass(t, q, value) && OneSided(value, sign) && k < q.count
    requires !IsInt32(LongestVector(PartitionRows(|t.a|, workers, 0).rows, batchRows, lanes) * AggregateValue(value, k))
    ensures AllWorkers(t, q, batchRows, lanes, workers).sum != Scan(t, q, 0, |t.a|).sum
  {
    hide AggregateValue;
    hide AllPass;
    hide OneSided;
    hide Scan;
    hide FirstCarries;
    hide FirstParts;
    hide LongestVector;
    var cuts := WorkerCuts(|t.a|, workers, workers);
    WorkerCutsTile(|t.a|, workers);
    assert |Part(t, cuts, 0).a| == PartitionRows(|t.a|, workers, 0).rows by {
      PartitionsTile(|t.a|, workers, 0);
    }
    hide PartitionRows;
    UniformPartsCarry(t, q, value, sign, batchRows, lanes, cuts, workers, k);
    WorkersRefineScan(t, q, batchRows, lanes, workers);
  }

  lemma {:induction false} ExtremeTableFails(q: Query, rows: nat, batchRows: nat, lanes: nat, workers: nat)
    requires q.Supported() && batchRows > 0 && lanes > 0 && workers > 0
    requires INT32_MIN < q.p1 <= INT32_MAX && INT32_MIN < q.p2 <= INT32_MAX
    requires !VectorFits(q.count, LongestVector(PartitionRows(rows, workers, 0).rows, batchRows, lanes))
    ensures var t := Uniform(q, rows, ExtremeSource(q.count));
            AllWorkers(t, q, batchRows, lanes, workers).sum != Scan(t, q, 0, rows).sum
  {
    hide AggregateValue;
    hide AllWorkers;
    hide Scan;
    hide PartitionRows;
    hide LongestVector;
    var sign := if q.count == 8 then -1 else 1;
    ExtremeIsReached(q.count);
    UniformTableFails(Uniform(q, rows, ExtremeSource(q.count)), q, ExtremeSource(q.count), sign, batchRows, lanes,
                      workers, ExtremeAggregate(q.count));
  }

  /** For a query that some row can pass, the workers together compute the scan of every table of the given size
      with generated values exactly when the longest vector part of the first worker's batches fits. */
  lemma {:induction false} WorkersExactOnGeneratedIff(q: Query, rows: nat, batchRows: nat, lanes: nat, workers: nat)
    requires q.Supported() && batchRows > 0 && lanes > 0 && workers > 0
    requires INT32_MIN < q.p1 <= INT32_MAX && INT32_MIN < q.p2 <= INT32_MAX
    ensures WorkersExactOnGenerated(q, rows, batchRows, lanes, workers)
       <==> VectorFits(q.count, LongestVector(PartitionRows(rows, workers, 0).rows, batchRows, lanes))
  {
    hide AllWorkers;
    hide Scan;
    hide PartitionRows;
    hide VectorFits;
    if VectorFits(q.count, LongestVector(PartitionRows(rows, workers, 0).rows, batchRows, lanes)) {
      forall t: Columns | t.HasRows(rows) && t.AreInt32(rows) && IsGenerated(t)
        ensures AllWorkers(t, q, batchRows, lanes, workers) == Scan(t, q, 0, rows)
      {
        FittingWorkersComputeScan(t, q, batchRows, lanes, workers);
      }
    } else {
      var t := Uniform(q, rows, ExtremeSource(q.count));
      ExtremeTableFails(q, rows, batchRows, lanes, workers);
      assert AllWorkers(t, q, batchRows, lanes, workers) != Scan(t, q, 0, rows);
    }
  }

  /** So they do with batches of at most 2^21 rows. */
  lemma {:induction false} WorkersComputeScan(t: Columns, q: Query, batchRows: nat, lanes: nat, workers: nat)
    requires t.HasRows(|t.a|) && IsGenerated(t) && q.Supported() && lanes > 0 && workers > 0
    requires 0 < batchRows <= 0x20_0000
    ensures AllWorkers(t, q, batchRows, lanes, workers) == Scan(t, q, 0, |t.a|)
  {
    var longest := PartitionRows(|t.a|, workers, 0).rows;
    VectorIsWithin(longest, batchRows, lanes);
    VectorFitsIff(q.count, LongestVector(longest, batchRows, lanes));
    FittingWorkersComputeScan(t, q, batchRows, lanes, workers);
  }
}
