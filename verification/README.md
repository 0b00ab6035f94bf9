# Verified models of the TSL benchmarks and editor protocols

A Dafny model of the parts of the repository whose correctness rests on more than one function, and proofs
about it:

- **Bucket distribution** (`Words`, `Lanes`, `Distribute`, `CountingSort`, `Interleaving`, `ThreadTrace`,
  `StreamSweep`). The scatter step of a samplesort over arrays: conflict ranks, cursor gather, three scatters, scalar
  tail. It refines the scalar loop, is a stable counting permutation of its chunk, and does not interfere across
  threads.
- **Dataset and query pipeline** (`SplitMix`, `Permutations`, `RowOrders`, `Dataset`, `Aggregates`, `FusedPipeline`,
  `FusedExactness`, `GeneratedExactness`, `Workers`, `GeneratedWorkers`, `Benchmark`). The generator hits its
  selectivities exactly; batches, lanes, tails and workers refine one scalar scan.
- **Co-sort oracle** (`RowOrder`, `Cosort`, `BenchCase`). The sorted image is unique, so comparing images is an exact
  test; the weaker checks are characterised.
- **Step systems** (`Jobs`, `Lease`, `FreeLease`, `NewestWins`, `Explorer`). Job claiming by an atomic counter, the
  lease that shares one dataset per round, and the editor's newest-request-wins protocol, over every interleaving.
- **Cache and printers** (`Wrappers`, `AnalysisCache`, `Text`, `TunedConfig`, `TunedFile`, `Csv`, `ResultsFile`). The
  two-level cache refines one map; the tuned-configuration file and the results file round-trip.

Code that changes things in place is modelled by methods over arrays and by classes; each is proved against a
function or predicate, and the theorems are about those. Concurrent code is a step system whose steps are single
writes, claims or critical sections, and its theorems quantify over every schedule. Machine words are explicit:
cursors wrap modulo 2^width, generator words modulo 2^64, lane accumulators modulo 2^32.

`dafny verify dfyconfig.toml` checks the whole project.

## Where the code does less than its surroundings suggest

For each of these there is a theorem that says exactly when.

- `conflict` drops mask bits that do not fit the element, so the rank is right for all ids only up to bits + 1 lanes
  (`Lanes.RankIsExactIff`), and beyond that a block loses a row (`Distribute.BlockMovesCursorsIff`). `Distribute.Run`
  asks for this bound; every 512-bit register of 32- or 64-bit elements meets it.
- The cursors live in the element type: a chunk whose end exceeds that type's range is not permuted
  (`CountingSort.SlotsPermuteRegionIff`). This is exact for the primitives' unsigned semantics. The 32-bit AVX-512
  scatter in rnd_access.tsl (lines 1711 and 1826, `i32scatter`) takes signed indices, so there the vector loop already
  fails for chunk ends above 2^31.
- The fused pipeline adds in 32-bit lanes, so its sum is the scan's only modulo 2^32
  (`FusedExactness.FusedEqualsScanIff`); `FusedExactness.ExactForAllIff` says for which sizes it is exact on all
  tables. The plan's claim that partial sums of generated values cannot overflow holds exactly up to a number of rows
  through a batch's vector loop, 2^21 for 8 aggregates (`GeneratedExactness.ExactOnGeneratedIff`, `VectorFitsIff`);
  the largest batch in use has 2^18.
- The shuffle's draws are taken modulo the number of choices, so they are equally likely only where that number
  divides 2^64 (`RowOrders.DrawsAreEvenIff`).
- `rounded_count` wraps for huge relations (`RowOrders.RoundedCountIsExactIff`), and thresholds near the 32-bit limits
  overflow (`Dataset.SafeThresholdIff`).
- The values-only check accepts an index that loses a row as soon as two rows are equal
  (`Cosort.ValuesOnlyIsExactIff`). The comments in `q0_tune_impl.hpp` say the same; `verify_index` and the check in
  `bench_q2_algorithms.cpp` are of that kind.
- The permutation check does not compare lengths, so a shorter index, even the empty one, can be accepted
  (`Cosort.AcceptedIsCompleteIff`); all its callers pass an index with an entry for every row.
- The lease relies on a barrier between rounds, except for a single worker or a single scenario
  (`FreeLease.AlwaysOwnIff`).
- A process that fails to start rejects its result, and the manager then leaves it as the running one until the
  next request that starts a process, or dispose (`NewestWins.ForgottenExactlyWhen`, with the run
  `NewestWins.RejectedStaysRunning`). A spawn call that throws leaves the old process, which has exited or
  been told to stop, as the running one (`NewestWins.RunningLagsByThrows`, with the run
  `NewestWins.ThrownRequestKeepsOld`).
- A refresh in file scope without a file empties the view but starts no generation, so a reply still outstanding
  can overwrite the empty view (`Explorer.EmptiedViewIsOverwrittenIff`, with the run
  `Explorer.LateReplyFillsEmptiedView`).
- The cache's full keys can collide for digests that contain NUL (`AnalysisCache.RefinesOneMapIff`).
- A hybrid leaf over insertion sort is written as `hyb` and read back over networks (`TunedFile.RoundTripIff`).

## Model

| member | source | states |
|---|---|---|
| Lanes.RankIsExactIff | tsldata/primitives/misc/conflict.tsl:9-17 | `popcnt(conflict(ids))` is the number of earlier lanes with the same id, for every id pattern, if and only if the register has at most one lane more than an element has bits |
| Lanes.Scatter | tsldata/primitives/load_store/rnd_access.tsl:1627 | lanes are stored in lane order, so the highest lane wins on equal addresses |
| Distribute.ScalarRunWrites | test-sort/benchmarks/bench_samplesort_streams.cpp:84-91 | the scalar loop over a whole chunk puts row i at its bucket's first cursor plus the number of earlier rows of the bucket, and moves each cursor by its bucket's rows |
| Distribute.LaneAddress | test-sort/benchmarks/bench_samplesort_streams.cpp:73-77 | gathered cursor plus rank is, modulo the word, the slot the scalar loop gives the lane's row, repeated ids included |
| Distribute.ScatterIsScalarWrites | test-sort/benchmarks/bench_samplesort_streams.cpp:78-81 | the first k lanes of an output scatter leave what k scalar steps leave |
| Distribute.ScatterIsScalarAdvance | test-sort/benchmarks/bench_samplesort_streams.cpp:82 | the cursor scatter leaves what `lanes` scalar increments leave, although lanes of one bucket overwrite each other |
| Distribute.VectorStepHitsSlots | test-sort/benchmarks/bench_samplesort_streams.cpp:73-82 | with an exact rank, the addresses a block computes from the cursors as they stand are its rows' slots, and the cursors it scatters back are those after its rows |
| Distribute.BlockMovesCursorsIff | test-sort/benchmarks/bench_samplesort_streams.cpp:71-83 | one vector block moves the cursors as the scalar loop does for all cursors and ids if and only if lanes <= bits + 1; beyond that a row is lost |
| Distribute.Block | test-sort/benchmarks/bench_samplesort_streams.cpp:71-83 | one block takes the three arrays from "rows before i distributed" to "rows before i + lanes distributed" |
| Distribute.Tail | test-sort/benchmarks/bench_samplesort_streams.cpp:84-91 | one tail step does so for one row |
| Distribute.Run | test-sort/benchmarks/bench_samplesort_streams.cpp:57-92 | vector loop plus tail, for any lane count with an exact rank, any ids and with or without the index column, leave keys, indices and cursors exactly as the scalar loop over the whole chunk |
| CountingSort.BuildHistogram | test-sort/benchmarks/bench_samplesort_streams.cpp:122-125 | each bucket's count is its number of rows in the chunk |
| Words.WrapIsRemainder | test-sort/benchmarks/bench_samplesort_streams.cpp:127-130 | the wrap-around of a cursor word, defined by repeated subtraction, is the remainder |
| CountingSort.BuildCursors | test-sort/benchmarks/bench_samplesort_streams.cpp:122-131 | the cursors are the exclusive prefix sums of the chunk's histogram from the chunk's start, in the wrapping cursor word |
| CountingSort.TargetsAreOrdered | test-sort/benchmarks/bench_samplesort_streams.cpp:119-131 | of two rows one is placed before the other exactly when its bucket is smaller, or equal and the row is earlier |
| CountingSort.SlotsPermuteRegionIff | test-sort/benchmarks/bench_samplesort_streams.cpp:57-131 | every address of the chunk's region is written by exactly one row, and no other address, if and only if the chunk is empty or its end fits the cursor word |
| CountingSort.FilledAt | test-sort/benchmarks/bench_samplesort_streams.cpp:84-91 | at every moment of the loop, position k of a bucket's addresses holds the k-th of the bucket's rows so far |
| CountingSort.OutsideUnchanged | test-sort/benchmarks/bench_samplesort_streams.cpp:118-131 | no address outside the chunk's own region changes |
| CountingSort.DistributionIsStable | test-sort/benchmarks/bench_samplesort_streams.cpp:57-132 | a distributed chunk holds, bucket after bucket, exactly the bucket's rows in input order, keys beside their indices; the rest is unchanged and every cursor ends at the next bucket's start |
| Interleaving.RegionsEvolveAlone | test-sort/benchmarks/bench_samplesort_streams.cpp:134-158 | at every moment of every interleaving of single writes, a region holds what its own thread's writes so far put there |
| Interleaving.OutsideIsUntouched | test-sort/benchmarks/bench_samplesort_streams.cpp:134-158 | addresses in no region keep their value in every interleaving |
| Interleaving.MemoryIsDeterminedByProgress | test-sort/benchmarks/bench_samplesort_streams.cpp:134-158 | two interleavings that bring every thread equally far leave the same memory |
| ThreadTrace.TraceIsSlotTrace | test-sort/benchmarks/bench_samplesort_streams.cpp:71-91 | the writes of a thread, taken from its running cursors by conflict rank, gather, add and scatter in whole blocks and by increments in the tail, are to its rows' slots: for every lane count with an exact rank and from any row of the chunk on |
| ThreadTrace.TraceFits | test-sort/benchmarks/bench_samplesort_streams.cpp:71-91 | every single write of a thread, in its own program order, is inside its chunk |
| ThreadTrace.TraceApplies | test-sort/benchmarks/bench_samplesort_streams.cpp:71-91 | performing a thread's writes in program order (all keys of a block, then all its indices, then the tail row by row) leaves what the chunk's distribution leaves |
| StreamSweep.ChunksFit | test-sort/benchmarks/bench_samplesort_streams.cpp:119-123 | chunks of `n / threads` rows end inside the columns |
| StreamSweep.ThreadsAreConfined | test-sort/benchmarks/bench_samplesort_streams.cpp:118-150 | the chunks are equally long, follow one another from row 0 and leave fewer rows than threads uncovered; the threads write pairwise disjoint regions inside the columns, for columns that a cursor can count and an exact rank |
| StreamSweep.EveryRowHasItsThread | test-sort/benchmarks/bench_samplesort_streams.cpp:119-123 | every row below n less its remainder by the threads lies in the chunk of thread i / (n / threads) |
| StreamSweep.SequenceAtAddress | test-sort/benchmarks/bench_samplesort_streams.cpp:134-158 | after the chunks have run one after another, an address of chunk t holds what chunk t alone would leave |
| StreamSweep.EveryInterleavingIsSequential | test-sort/benchmarks/bench_samplesort_streams.cpp:119-158 | whatever the interleaving of the single lane writes that the threads' vector loops and tails make, once all have finished memory equals the chunks run one after another by the scalar loop; the chunks cover all rows but fewer than one per thread |
| StreamSweep.EveryInterleavingGroupsRows | test-sort/benchmarks/bench_samplesort_streams.cpp:113-158 | so every chunk ends grouped by bucket and stable in each bucket, each key with its index, and these chunks cover all rows but fewer than one per thread |
| SplitMix.Generator.Next | research/intermediate-repr-src/src/datasets.cpp:16-21 | one call adds 0x9e3779b97f4a7c15 to the state and returns the new state mixed by the shifts 30, 27 and 31 and the two factors, modulo 2^64; unmixing the result gives the new state back |
| SplitMix.UnXorShiftInverts | research/intermediate-repr-src/src/datasets.cpp:18-20 | each xor-shift has an explicit two-sided inverse |
| SplitMix.InvertibleIffOdd | research/intermediate-repr-src/src/datasets.cpp:18-19 | a factor has an inverse modulo 2^64 if and only if it is odd |
| SplitMix.OddTimesIsBijective | research/intermediate-repr-src/src/datasets.cpp:18-19 | multiplication modulo 2^64 by any odd factor, the two of the code among them, is undone on both sides by multiplication with its inverse |
| SplitMix.MixIsBijective | research/intermediate-repr-src/src/datasets.cpp:17-21 | the output function is a bijection on 64-bit words, with its inverse written out |
| SplitMix.FullPeriod | research/intermediate-repr-src/src/datasets.cpp:17 | two positions of the walk hold the same state if and only if they differ by a multiple of 2^64 |
| SplitMix.OutputsAreDistinct | research/intermediate-repr-src/src/datasets.cpp:16-21 | two outputs are equal if and only if their positions differ by a multiple of 2^64 |
| SplitMix.OutputInNumbers | research/intermediate-repr-src/src/datasets.cpp:14-21 | the n-th output written out from the seed alone |
| SplitMix.EverySeedHasItsOutput | research/intermediate-repr-src/src/datasets.cpp:14-21 | every 64-bit word is the first output of exactly one seed |
| RowOrders.RoundedCountIsExactIff | research/intermediate-repr-src/src/datasets.cpp:27-30 | the 64-bit result is the rounded quotient if and only if the product plus 5000 does not wrap, and is never larger |
| RowOrders.RoundedCountIsNearest | research/intermediate-repr-src/src/datasets.cpp:27-30 | without a wrap the count is within half a row of total * bp / 10000, ties going up |
| RowOrders.RoundedCountIsBounded | research/intermediate-repr-src/src/datasets.cpp:27-30 | at most 10000 basis points never select more rows than there are |
| RowOrders.Shuffle | research/intermediate-repr-src/src/datasets.cpp:32-37 | the in-place loop leaves the arrangement given by the generator's draws and the generator after exactly those draws |
| RowOrders.EachOrderFromOneDraw | research/intermediate-repr-src/src/datasets.cpp:32-37 | orders of distinct values and sequences of numbers drawn, at position i - 1 one below i, correspond one to one |
| RowOrders.DrawFrequency | research/intermediate-repr-src/src/datasets.cpp:34 | of the 2^64 words, 2^64 / i give number d at a position with i choices, and one more does if d is below 2^64 mod i |
| RowOrders.DrawsAreEvenIff | research/intermediate-repr-src/src/datasets.cpp:34 | all numbers at that position come from equally many words if and only if i divides 2^64 |
| RowOrders.MakeOrder | research/intermediate-repr-src/src/datasets.cpp:39-75 | the three branches return the row order of the distribution and leave the generator after the draws it took |
| RowOrders.OrderIsPermutation | research/intermediate-repr-src/src/datasets.cpp:39-75 | that order is a permutation of the row numbers for all three distributions, every seed and every row count |
| RowOrders.AlternatingOrder | research/intermediate-repr-src/src/datasets.cpp:44-53 | position k of the alternating order holds row 2k in the first half and the odd rows, in order, after it |
| RowOrders.RandomOrder | research/intermediate-repr-src/src/datasets.cpp:71-75 | position j of the random order was exchanged, from the last down, with the position that the generator's next output gives modulo j + 1; the first output decides the last row |
| RowOrders.OrderDraws | research/intermediate-repr-src/src/datasets.cpp:39-75 | ordering takes no output for alternating, one less than the blocks for clustered and one less than the rows for random |
| RowOrders.BlocksStayTogether | research/intermediate-repr-src/src/datasets.cpp:55-69 | in the clustered order the rows 64b to 64b + 63, as far as there are any, stand contiguously and in row order |
| Dataset.Mark | research/intermediate-repr-src/src/datasets.cpp:161-166 | a marking loop marks exactly the first rows of the order, as many as asked |
| Dataset.MarkMembership | research/intermediate-repr-src/src/datasets.cpp:160-166 | the two loops leave marks 0, 1 and 2 on exactly the rows that pass no, the first and both filters, in the asked numbers |
| Dataset.FillColumns | research/intermediate-repr-src/src/datasets.cpp:168-189 | the filled columns come from three draws a row, and the running totals are the scalar scan of the columns |
| Dataset.SafeThresholdIff | research/intermediate-repr-src/src/datasets.cpp:169-174 | no drawn value leaves the 32-bit range if and only if the threshold is at least 1024 from both ends of it |
| Dataset.MakeDataset | research/intermediate-repr-src/src/datasets.cpp:143-191 | shares above 10000 are refused; otherwise both survivor counts are exactly the rounded counts, the expected sum is the scan's, the passing rows are the first rows of the order, and every value comes from the seed: after the ordering's draws, row r's keys lie one more than outputs 3r and 3r + 1 modulo 1024 from their thresholds and its value is output 3r + 2 modulo 2001 less 1000, with 1 for 0 |
| Aggregates.AggregateOfGeneratedValue | research/intermediate-repr-src/include/intermediate_repr/kernel_api.hpp:13-23 | a salted form of a generated value stays within [-1024, 1023] |
| Aggregates.FirstAggregateIsPlain | research/intermediate-repr-src/include/intermediate_repr/kernel_api.hpp:13-23 | the first aggregate is the plain sum |
| Aggregates.AggregateComplementsLowBits | research/intermediate-repr-src/include/intermediate_repr/kernel_api.hpp:13-23 | aggregate k of any 32-bit value complements exactly its k low bits and keeps the rest |
| Aggregates.ScanOfOneRow | research/intermediate-repr-src/src/references.cpp:19-36 | a row counts where its stored keys are below the thresholds, and where both are adds its 1, 4 or 8 salted values |
| Words.XorIsBitwise | research/intermediate-repr-src/include/intermediate_repr/kernel_api.hpp:22 | bit k of an exclusive or is set exactly when the two bits differ |
| Aggregates.ScanSplits | research/intermediate-repr-src/src/references.cpp:19-36 | the scan of a range is the sum of the scans of its two parts |
| Aggregates.ScanSumByAggregate | research/intermediate-repr-src/src/references.cpp:28-31 | summing row by row or aggregate by aggregate is the same |
| Aggregates.RunScalar | research/intermediate-repr-src/src/references.cpp:9-37 | the batched scalar reference is the plain scan for every positive batch size, its survivor counts the numbers of rows below the first and below both thresholds; a zero batch size is invalid |
| Aggregates.ExpectedFor | research/intermediate-repr-src/src/benchmark_main.cpp:270-290 | the oracle is the scan, its survivor counts the numbers of rows below the first and below both thresholds; it refuses aggregate counts other than 1, 4 and 8 |
| Aggregates.ExpectedSumFor | research/intermediate-repr-src/src/datasets.cpp:193-212 | the sum oracle is the scan's sum, and refuses other counts and columns of unequal length |
| FusedPipeline.AccumulatorStaysCongruent | research/intermediate-repr-src/include/intermediate_repr/kernel_templates.hpp:92-98 | a 32-bit lane accumulator that is right modulo 2^32 stays so when a vector is added lane by lane |
| FusedPipeline.BatchIs | research/intermediate-repr-src/src/references.cpp:65-86 | a batch ends after its rows or with the relation, and its vector part after the last whole vector |
| FusedPipeline.FilterAggregate.ApplyVector | research/intermediate-repr-src/include/intermediate_repr/kernel_templates.hpp:81-104 | a vector adds its active lanes to the survivor counts and its selected salted values to each accumulator modulo 2^32 |
| FusedPipeline.FilterAggregate.ApplyScalar | research/intermediate-repr-src/include/intermediate_repr/kernel_templates.hpp:81-104 | a tail row does so exactly, in the wide scalar sums |
| FusedPipeline.FilterAggregate.Finalize | research/intermediate-repr-src/include/intermediate_repr/kernel_templates.hpp:106-114 | the batch's sum is every accumulator wrapped to 32 bits plus the scalar sums |
| FusedPipeline.RunBatch | research/intermediate-repr-src/src/references.cpp:71-92 | a batch's survivor counts are its scan's; its sum wraps the part that went through the vector loop, aggregate by aggregate |
| FusedPipeline.RunFused | research/intermediate-repr-src/src/references.cpp:51-95 | for every positive batch size and lane count both survivor counts are exactly the scan's; a zero batch size is invalid |
| FusedExactness.FusedIsCarried | research/intermediate-repr-src/src/references.cpp:69-94 | from any batch on, the fused sum is the scan's less 2^32 for each wrap of an accumulator |
| FusedExactness.FusedEqualsScanIff | research/intermediate-repr-src/src/references.cpp:51-95 | the fused sum is always the scan's modulo 2^32, and equal to it if and only if the accumulators' wraps cancel |
| GeneratedExactness.GeneratedValueBounds | research/intermediate-repr-src/include/intermediate_repr/kernel_api.hpp:13-23 | how far the salted forms of values from -1000 to 1000 reach for 1, 4 and 8 aggregates |
| GeneratedExactness.ExtremeIsReached | research/intermediate-repr-src/include/intermediate_repr/kernel_api.hpp:13-23 | the salted value furthest from zero, 1000, 1007 or -1024, arises from a generated value |
| GeneratedExactness.ExactOnGeneratedIff | research/intermediate-repr-src/PLAN.md:290-291 | for a query some row can pass, the fused sum is exact on every table of a size with values from -1000 to 1000 if and only if the longest vector part of a batch, times the extreme salted value, stays in the 32-bit range |
| GeneratedExactness.VectorFitsIff | research/intermediate-repr-src/PLAN.md:290-291 | in numbers: at most 2147483, 2132555 or 2097152 rows through the vector loop of a batch, for 1, 4 or 8 aggregates |
| GeneratedExactness.GeneratedDataIsExact | research/intermediate-repr-src/src/datasets.cpp:252 | so the batches in use, at most 2^18 rows, and all up to 2^21 rows give the exact sum for every supported count |
| FusedExactness.ExactForAllIff | research/intermediate-repr-src/src/references.cpp:51-95 | for a query some row can pass, the fused sum is exact on every 32-bit table of a size if and only if no batch puts two rows through the vector accumulators |
| Workers.PartitionsTile | research/intermediate-repr-src/src/benchmark_main.cpp:104-114 | partitions tile the rows contiguously in worker order, the first total mod workers of them one row longer than the others |
| Workers.WeakScalingIsExact | research/intermediate-repr-src/src/benchmark_main.cpp:299-310 | weak scaling is refused if and only if the product reaches 2^64; otherwise every partition is exactly `relation_rows` rows |
| Workers.StrongScalingIsExact | research/intermediate-repr-src/src/benchmark_main.cpp:299-303 | strong scaling never overflows: whatever their number, the workers' partitions add up to exactly `relation_rows` and differ by at most one row |
| Workers.PartsRefineScan | research/intermediate-repr-src/src/benchmark_main.cpp:336-349 | for any contiguous split, the parts' fused counts add up to the scan's, and their sums do up to the wraps |
| Workers.WorkersRefineScan | research/intermediate-repr-src/src/benchmark_main.cpp:329-349 | the same for the split the benchmark uses, for every worker count, batch size and lane count |
| GeneratedWorkers.WorkersExactOnGeneratedIff | research/intermediate-repr-src/src/benchmark_main.cpp:329-349 | all workers together compute the scan of every table of a size with such values if and only if the longest vector part of the first worker's batches fits |
| GeneratedWorkers.WorkersComputeScan | research/intermediate-repr-src/src/benchmark_main.cpp:329-349 | so with batches of at most 2^21 rows all workers together compute one scalar scan |
| Benchmark.WorkersReportDatasetTotals | research/intermediate-repr-src/src/benchmark_main.cpp:329-353 | on a dataset from `make_dataset`, when that fits, they together report the dataset's own expected sum and survivor counts |
| Lease.Fixture.Acquire | research/intermediate-repr-src/src/benchmark_main.cpp:60-70 | one critical section: builds when there is no data, refuses exactly when there is data for another worker count, and otherwise leases what is there unchanged |
| Lease.Fixture.Release | research/intermediate-repr-src/src/benchmark_main.cpp:73-81 | the release that completes the worker count clears the fixture |
| Lease.EveryRunIsSafe | research/intermediate-repr-src/src/benchmark_main.cpp:35-87 | over every interleaving of N workers and rounds separated by a barrier, the data is present exactly between a round's first acquire and last release, with the release counter exact |
| Lease.OneDatasetPerRound | research/intermediate-repr-src/src/benchmark_main.cpp:35-87 | hence no mismatch is raised, one dataset is built per round, and every lease of a round is that dataset however late it is acquired |
| FreeLease.NeverMismatch | research/intermediate-repr-src/src/benchmark_main.cpp:60-81 | with one worker count for all, no run raises the mismatch error, barrier or not |
| FreeLease.AlwaysOwnIff | research/intermediate-repr-src/src/benchmark_main.cpp:35-87 | when each worker moves on to its next round freely, every lease in every run is on data of its own round's scenario if and only if there is one worker or one scenario |
| RowOrder.Transitive | test-sort/benchmarks/cosort_bench.cpp:352-359 | the row comparator with a direction per column is transitive |
| RowOrder.RowLessIff | test-sort/benchmarks/cosort_bench.cpp:352-359 | a row goes first exactly when in the first column where the two differ it has the smaller value and the column ascends, or the larger and it descends |
| RowOrder.NotAfterIsTransitive | test-sort/benchmarks/cosort_bench.cpp:352-359 | so is "not after": the comparator is a strict weak order |
| RowOrder.TiesAreIdentical | test-sort/benchmarks/cosort_case.hpp:9-13 | rows tie exactly when they are identical |
| RowOrder.AdjacentSuffices | test-sort/benchmarks/datagen/dataset_reference.hpp:99-121 | adjacent rows in order if and only if all rows are |
| RowOrder.SortedIsUnique | test-sort/benchmarks/cosort_case.hpp:9-13 | the same rows have only one sorted arrangement |
| Permutations.DistinctInRangeIsPermutation | test-sort/benchmarks/q0_tune_impl.hpp:212-219 | n distinct row numbers below n are all of them |
| Cosort.SortedImageIsUnique | test-sort/benchmarks/cosort_case.hpp:9-13 | any two row permutations sorted by the comparator select identical columns |
| Cosort.ImageTestIsExact | test-sort/benchmarks/cosort_case.hpp:9-13 | a permutation reproduces the reference image if and only if it sorts the table |
| Cosort.ValuesOnlyIsExactIff | test-sort/benchmarks/q0_tune_impl.hpp:199-207 | comparing values alone accepts only permutations if and only if the table's rows are pairwise distinct |
| Cosort.DropAndRepeat | test-sort/benchmarks/q0_tune_impl.hpp:202-207 | with two equal rows, an accepted index drops one and repeats the other |
| Cosort.OrderAloneIsExactIff | test-sort/benchmarks/cosort_case.hpp:11-13 | checking only the order pins the image down if and only if all rows are the same |
| Cosort.ImageMatches | test-sort/benchmarks/bench_q2_algorithms.cpp:76-89 | the scan accepts exactly when applying the index to every column gives the reference |
| Cosort.DeliversEveryRowOnce | test-sort/benchmarks/q0_tune_impl.hpp:212-219 | the `seen` loop accepts exactly the bijections on the row numbers |
| Cosort.SortedImageOfAPermutation | test-sort/benchmarks/q0_tune_impl.hpp:208-229 | accepts exactly the bijections on their own positions that reproduce as much of the reference in every column, and refuses every other index of any length; bench_q1_baselines.cpp:95-116 is the same check |
| Cosort.AcceptedIsCompleteIff | test-sort/benchmarks/q0_tune_impl.hpp:208-229 | an accepted index is a bijection on all rows that gives the whole reference if and only if it has an entry for every row; the empty index is always accepted |
| Cosort.CompareRows | test-sort/benchmarks/bench_q1_baselines.cpp:120-134 | true exactly when, in some column with all earlier columns equal, the left row's stored value is smaller and the column ascends, or larger and it descends |
| BenchCase.SortOrder | test-sort/benchmarks/cosort_bench.cpp:352-359 | a rearrangement of the row numbers under which, in every column before which two rows agree, an earlier row is not above a later one if the column ascends, nor below it if it descends |
| BenchCase.SortedImage | test-sort/benchmarks/datagen/dataset_reference.hpp:58-97 | the reference generator returns the sorted image: each row against every later one column by column, the first column non-decreasing or non-increasing as its direction says; its own permutation check never fires |
| BenchCase.RequireOrdered | test-sort/benchmarks/datagen/dataset_reference.hpp:99-121 | the scan over neighbours accepts exactly the images in which no row's stored values go against the directions with respect to any later row |
| BenchCase.CompareImages | test-sort/benchmarks/datagen/dataset_reference.hpp:125-141 | reports agreement exactly for equal images, otherwise the first differing place, column by column |
| BenchCase.Case.Reset | test-sort/benchmarks/cosort_case.hpp:164-169 | the work columns are the pristine input again |
| BenchCase.Case.Verify | test-sort/benchmarks/cosort_case.hpp:206-214 | accepts exactly when the work columns are the reference image |
| BenchCase.Case.VerifyIndex | test-sort/benchmarks/cosort_case.hpp:184-204 | accepts exactly when an index of the right length selects the reference image, and otherwise names a differing place |
| BenchCase.Case.RunBaseline | test-sort/benchmarks/cosort_bench.cpp:346-368 | an iteration leaves exactly the reference image in the columns, in the order the directions ask for, the first column monotone in its own |
| Jobs.EveryRunKeepsInv | test-sort/benchmarks/reference.cpp:193-211 | in every interleaving no two workers hold one index, and each slot is untouched, in progress under its claimant, or final |
| Jobs.ClaimedExactlyOnce | test-sort/benchmarks/reference.cpp:197-200 | exactly the indices below the counter have been claimed, each once |
| Jobs.EachSlotHasOneWriter | test-sort/benchmarks/reference.cpp:195-211 | in every run, all the steps that change a slot of `jobs` or `failures` are one worker's |
| Jobs.EveryScheduleIsSequential | test-sort/benchmarks/reference.cpp:193-221 | once all workers have stopped, `jobs` and `failures` are those of a single loop over the jobs: each slot holds its job's last store and its job's outcome |
| Jobs.EveryStepCounts | test-sort/benchmarks/reference.cpp:195-211 | every step of a live worker lowers the remaining work by exactly one |
| Jobs.RunsTerminate | test-sort/benchmarks/reference.cpp:195-221 | so every run stops after a number of steps fixed by the jobs and the thread count |
| Jobs.Report | test-sort/benchmarks/reference.cpp:226-239 | the report lists (i, e) exactly when job i failed with e, by increasing i, and counts the lines |
| Jobs.ReportIsScheduleFree | test-sort/benchmarks/reference.cpp:226-239 | jobs and report are the same for any two schedules and thread counts |
| NewestWins.Manager.Issue | editors/vscode-tsl/src/preview.ts:169-186 | a request starts a generation, cancels the running process and becomes the running one; if the spawn call throws, it stops after the cancelling |
| NewestWins.Manager.Resume | editors/vscode-tsl/src/preview.ts:187-227 | after the await: which results are stored and when the running process is forgotten |
| NewestWins.Manager.Dispose | editors/vscode-tsl/src/preview.ts:163-167 | dispose starts a generation and leaves nothing running |
| NewestWins.EveryRunIsSafe | editors/vscode-tsl/src/analysis.ts:18-103 | over every order of issue, throwing issue, exit, close, error, cancel, resumption and dispose, the running process is the newest one started, it is of the current generation or has exited or been told to stop, and so has every other process |
| NewestWins.RunningLagsByThrows | editors/vscode-tsl/src/preview.ts:178-186 | the running process' generation is the current one less the requests that have since failed to start a process |
| NewestWins.AcceptedExactlyWhen | editors/vscode-tsl/src/analysis.ts:67-95 | a result is stored or returned only at its request's own check, and there if and only if it was never cancelled, its generation is current, it exited with 0 and its output is usable |
| NewestWins.ThrownRequestKeepsOld | editors/vscode-tsl/src/preview.ts:178-186 | a run in which a throwing spawn leaves the old process, told to stop, as the running one of an older generation |
| NewestWins.ForgottenExactlyWhen | editors/vscode-tsl/src/preview.ts:187-200 | when its await is over the running process is forgotten if and only if its result was not rejected, and the next request that starts a process, or dispose, replaces it in any case |
| NewestWins.RejectedStaysRunning | editors/vscode-tsl/src/preview.ts:187-200 | a run that gets there: a process fails to start, its request is over, and it is still the running one |
| NewestWins.SupersededIsNeverAccepted | editors/vscode-tsl/src/preview.ts:201-203 | once a newer request or a dispose has happened, an older request's result is never accepted any more |
| NewestWins.AcceptedGenerationsIncrease | editors/vscode-tsl/src/preview.ts:219-227 | the generations of stored results strictly increase over every run |
| NewestWins.AcceptedWasReported | editors/vscode-tsl/src/subprocess.ts:19-34 | in every run each accepted result is the output with which its request's process closed, as the first report on it, with exit code 0 |
| NewestWins.StoppedIsNeverAccepted | editors/vscode-tsl/src/subprocess.ts:37-43 | a request stopped by hand before its child has exited is at no later moment among the accepted ones |
| Explorer.TslExplorer.SendRequest | editors/vscode-tsl/src/explorer.ts:314-325 | what a refresh does before its await, with both early returns |
| Explorer.TslExplorer.SetClient | editors/vscode-tsl/src/explorer.ts:292-301 | a client starts a refresh, its removal a generation and an empty view |
| Explorer.TslExplorer.HandleReply | editors/vscode-tsl/src/explorer.ts:337-352 | only the newest request's reply replaces what is shown, mode, profile, backend and selection |
| Explorer.AppliedGenerationsIncrease | editors/vscode-tsl/src/explorer.ts:314-360 | the applied responses come from strictly newer and newer requests, and what is shown is the newest applied |
| Explorer.SupersededIsNeverApplied | editors/vscode-tsl/src/explorer.ts:292-360 | a response is not applied once a newer request was sent, the client removed or the explorer disposed |
| Explorer.EmptiedViewIsOverwrittenIff | editors/vscode-tsl/src/explorer.ts:319-352 | in every run, from the refresh that empties the view until the next event that supersedes the requests or empties the view again, the view is non-empty exactly from the newest request's reply on, and shows that reply |
| Explorer.LateReplyFillsEmptiedView | editors/vscode-tsl/src/explorer.ts:319-352 | such a run from the start: client, file scope, emptying refresh, late reply |
| Explorer.LastReplySettles | editors/vscode-tsl/src/explorer.ts:337-352 | in every run, after an applied reply and until something is chosen by hand or another reply applied: mode and backend are the reply's, so is the profile if it names one, the selection is the old one if the reply lists it and the scope has not changed and else none, and the view shows the reply or has been emptied |
| Explorer.RemovalEmptiesView | editors/vscode-tsl/src/explorer.ts:292-301 | in every run the view is empty from the client's removal until a client is set again |
| Explorer.TslExplorer.SelectProfile | editors/vscode-tsl/src/explorer.ts:399-405 | picking a profile resolves for it, picking none shows authored source and keeps the old profile |
| AnalysisCache.SameKeyIffSameContext | editors/vscode-tsl/src/analysisModel.ts:129-142 | contexts without NUL or an equals sign in an attribute name share a key if and only if they are the same up to null against the empty string |
| AnalysisCache.KeyInFull | editors/vscode-tsl/src/analysisModel.ts:129-142 | the context key as text: seven fields with NUL between them, null as empty, then each attribute |
| AnalysisCache.EveryRunKeepsInv | editors/vscode-tsl/src/analysisModel.ts:77-127 | over every run of stores and invalidations, each context key points at the full key of the entry stored last under it, with its generations |
| AnalysisCache.LastEntryIs | editors/vscode-tsl/src/analysisModel.ts:82-121 | the last entry of a context is what the history's last store for it put there, current until an invalidation comes after that store |
| AnalysisCache.RefinesOneMapIff | editors/vscode-tsl/src/analysisModel.ts:77-146 | for a family of digests, every history reads back, through both queries, as one map from context key to last entry if and only if no digest of the family continues another with a NUL |
| AnalysisCache.NulFreeDigestsQualify | editors/vscode-tsl/src/analysisModel.ts:144-146 | digests without NUL, such as hexadecimal ones, qualify |
| AnalysisCache.ConcreteAnalysisCache.StoreAnalysis | editors/vscode-tsl/src/analysisModel.ts:82-90 | the two maps follow the history |
| AnalysisCache.ConcreteAnalysisCache.InvalidateAll | editors/vscode-tsl/src/analysisModel.ts:119-121 | so does the cache generation |
| AnalysisCache.ConcreteAnalysisCache.ValidAnalysis | editors/vscode-tsl/src/analysisModel.ts:92-101 | returns an analysis exactly when the history's last store for the context put it there in the asked workspace generation and no invalidation came after |
| AnalysisCache.ConcreteAnalysisCache.LatestAnalysis | editors/vscode-tsl/src/analysisModel.ts:103-117 | returns what the history's last store for the context put there, stale exactly when that was in another workspace generation or an invalidation came after |
| TunedConfig.StoiUndoesPrinting | test-sort/benchmarks/tuned_config.hpp:133 | `std::stoi` reads back every printed `int`, negative ones included |
| TunedConfig.StoiReads | test-sort/benchmarks/tuned_config.hpp:133 | `std::stoi` on digits after an optional sign, whatever follows: the number if an `int` holds it, else out of range |
| TunedConfig.StoulReads | test-sort/benchmarks/tuned_config.hpp:138-152 | `std::stoul` on the same: a minus sign gives the negative modulo 2^64 |
| TunedConfig.NoDigitsNoNumber | test-sort/benchmarks/tuned_config.hpp:133-152 | both refuse a text with no digit where the number should start |
| TunedConfig.SetUndoesPrinting | test-sort/benchmarks/tuned_config.hpp:81-153 | reading any knob's printed value restores the knob, the leaf and hybrid flag together, for configurations whose hybrid leaf is over networks |
| TunedConfig.OtherWordsAreDefaults | test-sort/benchmarks/tuned_config.hpp:134-150 | a word the writer never prints for a knob sets it to its default |
| TunedConfig.ParseFields | test-sort/benchmarks/tuned_config.hpp:124-154 | the field loop skips white space, fields without an equals sign and unknown names, and stops at the exceptions of `stoi` and `stoul` |
| TunedConfig.IgnoredFields | test-sort/benchmarks/tuned_config.hpp:127-153 | a field without an equals sign, or whose name is no knob's, changes nothing |
| TunedConfig.ReadAll | test-sort/benchmarks/tuned_config.hpp:81-154 | reading the printed fields sets every knob in turn |
| TunedConfig.FieldsInFull | test-sort/benchmarks/tuned_config.hpp:82-101 | the eleven fields of a line in order, with their names and the words for every value |
| Text.DecimalDigits | test-sort/benchmarks/tuned_config.hpp:70-71 | a number is printed digit by digit without leading zeros |
| TunedFile.ReadTuned | test-sort/benchmarks/tuned_config.hpp:105-158 | the reader's loops: comments, empty lines and lines without a tab are skipped, the first of equal keys is kept, an absent file is an empty map |
| TunedFile.SkippedLines | test-sort/benchmarks/tuned_config.hpp:114-120 | empty lines, comments and lines without a tab change nothing |
| TunedFile.EarlierLinesWin | test-sort/benchmarks/tuned_config.hpp:155 | a key that has its configuration keeps it, whatever text follows |
| TunedFile.WriteTuned | test-sort/benchmarks/tuned_config.hpp:76-103 | the writer leaves two comment lines and a line per key in iteration order |
| TunedFile.OnlyWhatFitsIsRead | test-sort/benchmarks/tuned_config.hpp:105-158 | from any text at all, only keys without tab, line break or leading number sign come out, and only configurations whose hybrid leaf is over networks |
| TunedFile.RoundTripIff | test-sort/benchmarks/tuned_config.hpp:76-158 | reading what was written gives the same map marked as from file, for any iteration order, if and only if every key has no tab, no line break and no leading number sign and every hybrid leaf is over networks |
| TunedFile.KeyIsInjective | test-sort/benchmarks/tuned_config.hpp:68-72 | cells have different keys, whatever bars the algorithm's name contains |
| TunedFile.KeyInFull | test-sort/benchmarks/tuned_config.hpp:68-72 | the key of a cell as text: algorithm, intr, clang or clang_bool, width, element bytes, with bars between them |
| TunedFile.WithoutFile | test-sort/benchmarks/tuned_config.hpp:26-46 | without a file every cell gets the thirteen defaults |
| TunedFile.EveryCellFindsItsOwn | test-sort/benchmarks/tuned_config.hpp:161-168 | after writing and reading, every tuned cell finds its own configuration and every other cell the defaults |
| Csv.CsvField | test-sort/benchmarks/paper_harness.hpp:494-507 | the loop leaves a text alone exactly when it has no comma, quote, line feed or carriage return, and otherwise puts it between quotes with every quote doubled |
| Csv.LineGrows | test-sort/benchmarks/paper_harness.hpp:520-540 | a line is its pieces with a comma before each but the first and a line feed at the end |
| Csv.BareRoundTripsIff | test-sort/benchmarks/paper_harness.hpp:495-497 | a text written as it stands reads back if and only if it needs no quoting: the test is exact |
| Csv.ReadField | test-sort/benchmarks/paper_harness.hpp:494-507 | a reader after section 2 of RFC 4180, in any record and after any fields, holds exactly the text after reading its quoted form |
| Csv.DocumentRoundTrip | test-sort/benchmarks/paper_harness.hpp:494-542 | any records of any strings read back as written |
| ResultsFile.RowEncodes | test-sort/benchmarks/paper_harness.hpp:520-539 | what is sent without quoting never needs it, in all 26 columns |
| ResultsFile.CellsAreNamed | test-sort/benchmarks/paper_harness.hpp:515-539 | each of the 26 cells of a row is the value its own name asks for |
| ResultsFile.WriteCsv | test-sort/benchmarks/paper_harness.hpp:509-542 | whatever the text fields hold, the file reads back as the 26 names in order and, for every row and every column, the value that the column's name stands for |

## Left out

- Dataset.MakeDataset: thresholds within 1024 of the 32-bit limits are excluded, because the source's signed addition has no defined result there; Dataset.SafeThresholdIff shows the bound is exact.
- Distribute.Run: registers with more than bits + 1 lanes are excluded, because the code then computes something else; Distribute.BlockMovesCursorsIff shows the bound is exact.
- CountingSort.SlotsPermuteRegionIff: scatter instructions that sign-extend 32-bit indices are not modelled; addresses are unsigned, as in the primitives' stated semantics.
- StreamSweep.ThreadsAreConfined: the rows must be countable by a cursor and the ranks exact, as for Distribute.Run; beyond that the code writes elsewhere.
- BenchCase.SortOrder: `std::sort` and `std::stable_sort` are known only by their contract (a rearrangement in comparator order); the model sorts by insertion.
- The 64-bit totals (`sum`, `expected_sum`, scalar sums) are unbounded integers: their overflow is not modelled. The same holds for `size_t` loop counters, the job counter and the generation counters.
- The other SIMD primitives, the mask and position pipelines, the sorters and detectors, and template dispatch over vector policies.
- Lane loads of byte ids, the `memcmp` of columns and `std::copy` are modelled by their values; reading past the end of a column is excluded by the stated lengths.
- Shared datasets and child processes are known by serial numbers and places in a table, not by references; the lease's move and destructor rules are the acquire and release steps.
- The order in which lanes of one scatter become visible to other threads beyond single stores; atomicity of a single store is assumed.
- What a job does is a fixed sequence of stores into its own slot and an outcome; file access, timing and progress output of jobs are not modelled.
- Exceptions other than `std::exception` escaping the report loop of `reference.cpp`.
- Preview text after the check, its display and notifications: a preview is stored only while current, but may be superseded before it is shown.
- Debouncing timers, the persisted settings and the error text shown by the explorer; a choice made by hand and the refresh that follows it are two events.
- Locale order of attribute entries in the cache key: a context carries its entries in sorted order. Two attribute names that compare equal but differ are not distinguished by that order.
- Printing of floating-point numbers in the results file: a parameter, known only not to contain a comma, quote or line break.
- Opening and writing files; a file is its text. An unreadable tuned file is the empty map, an unwritable one is not modelled.
- Timing, medians, hardware probing, tuning selection, variant enumeration, the compiler, the web pages and packaging scripts.
