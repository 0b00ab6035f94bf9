/** Generator, workers and fused pipeline together: what the benchmark compares every candidate with. */
module Benchmark {
  import opened Aggregates
  import opened GeneratedExactness
  import opened Workers
  import opened GeneratedWorkers
  import opened Dataset

  /** On a generated dataset, the fused pipelines of any number of workers, with any lane count and any batch size
      whose vector part fits, together report exactly the dataset's own expected totals. */
  lemma {:induction false} WorkersReportDatasetTotals(d: Data, s: Scenario, batchRows: nat, lanes: nat, workers: nat)
    requires HitsSelectivities(d, s) && batchRows > 0 && lanes > 0 && workers > 0
    requires VectorFits(1, LongestVector(PartitionRows(s.relationRows, workers, 0).rows, batchRows, lanes))
    ensures d.columns.HasRows(|d.columns.a|)
    ensures AllWorkers(d.columns, Query(s.p1, s.p2, 1), batchRows, lanes, workers)
         == Totals(d.expectedSum, d.activeAfterA, d.activeAfterB)
  {
    FittingWorkersComputeScan(d.columns, Query(s.p1, s.p2, 1), batchRows, lanes, workers);
  }
}
