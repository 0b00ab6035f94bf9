/** Worker threads claiming jobs through one atomic counter: test-sort/benchmarks/reference.cpp, main. */
module Jobs {

  /** A slot of `jobs` holds some content of type J; a job's run stores a fixed sequence of contents
      in it, one store at a time, and then ends well or with an error. */
  datatype Job<J, E> = Job(first: J, stores: seq<J>, failure: Failure<E>)

  datatype Failure<E> = NoFailure | Failed(error: E)

  datatype Worker = Ready | Running(job: nat, stored: nat) | Stopped

  /** next: the atomic counter; jobs, failures: the shared vectors. */
  datatype State<J, E> = State(next: nat, workers: seq<Worker>, jobs: seq<J>, failures: seq<Failure<E>>)

  function Initial<J, E>(work: seq<Job<J, E>>, threads: nat): (s: State<J, E>)
    ensures |s.jobs| == |s.failures| == |work| && |s.workers| == threads
  {
    State(0, seq(threads, _ => Ready),
          seq(|work|, i requires 0 <= i < |work| => work[i].first), seq(|work|, _ => NoFailure))
  }

  ghost predicate Shaped<J, E>(s: State<J, E>, work: seq<Job<J, E>>) {
    && |s.jobs| == |s.failures| == |work|
    && forall w :: 0 <= w < |s.workers| && s.workers[w].Running? ==>
         s.workers[w].job < |work| && s.workers[w].stored <= |work[s.workers[w].job].stores|
  }

  /** Worker w's next atomic step: claim an index (and stop past the end), store once into the claimed
      slot, or finish, recording a failure if there was one. */
  function Step<J, E>(s: State<J, E>, work: seq<Job<J, E>>, w: nat): (r: State<J, E>)
    requires Shaped(s, work) && w < |s.workers|
    ensures Shaped(r, work) && |r.workers| == |s.workers|
  {
    match s.workers[w]
    case Ready =>
      var index := s.next;
      State(s.next + 1, s.workers[w := if index >= |work| then Stopped else Running(index, 0)], s.jobs, s.failures)
    case Running(i, k) =>
      if k < |work[i].stores| then
        s.(jobs := s.jobs[i := work[i].stores[k]], workers := s.workers[w := Running(i, k + 1)])
      else if work[i].failure.Failed? then
        s.(failures := s.failures[i := work[i].failure], workers := s.workers[w := Ready])
      else
        s.(workers := s.workers[w := Ready])
    case Stopped => s
  }

  ghost predicate NamesThreads(schedule: seq<nat>, threads: nat) {
    forall k :: 0 <= k < |schedule| ==> schedule[k] < threads
  }

  function After<J, E>(work: seq<Job<J, E>>, threads: nat, schedule: seq<nat>, n: nat): (s: State<J, E>)
    requires NamesThreads(schedule, threads) && n <= |schedule|
    ensures Shaped(s, work) && |s.workers| == threads
    decreases n
  {
    if n == 0 then Initial(work, threads) else Step(After(work, threads, schedule, n - 1), work, schedule[n - 1])
  }

  // --- who may touch a slot ---

  /** A step changes only the slot of the job the stepping worker has claimed. */
  lemma {:induction false} OnlyTheClaimantWrites<J, E>(s: State<J, E>, work: seq<Job<J, E>>, w: nat, i: nat)
    requires Shaped(s, work) && w < |s.workers| && i < |work|
    requires !(s.workers[w].Running? && s.workers[w].job == i)
    ensures Step(s, work, w).jobs[i] == s.jobs[i] && Step(s, work, w).failures[i] == s.failures[i]
  {
  }

  /** Content of a slot after k of its job's stores. */
  function Content<J, E>(job: Job<J, E>, k: nat): J
    requires k <= |job.stores|
  {
    if k == 0 then job.first else job.stores[k - 1]
  }

  ghost predicate Claimed<J, E>(s: State<J, E>, i: nat) {
    exists w :: 0 <= w < |s.workers| && s.workers[w].Running? && s.workers[w].job == i
  }

  /** Between steps: indices below the counter have been claimed, each by one worker at most at a time;
      a slot is untouched before its claim, holds its own job's progress during it, and its final
      content afterwards. */
  ghost predicate Inv<J, E>(s: State<J, E>, work: seq<Job<J, E>>)
    requires Shaped(s, work)
  {
    && (forall w :: 0 <= w < |s.workers| && s.workers[w].Running? ==> s.workers[w].job < s.next)
    && (forall v, w :: 0 <= v < w < |s.workers| && s.workers[v].Running? && s.workers[w].Running? ==>
          s.workers[v].job != s.workers[w].job)
    && (forall w :: 0 <= w < |s.workers| && s.workers[w].Stopped? ==> s.next >= |work|)
    && (forall w :: 0 <= w < |s.workers| && s.workers[w].Running? ==>
          s.jobs[s.workers[w].job] == Content(work[s.workers[w].job], s.workers[w].stored)
          && s.failures[s.workers[w].job] == NoFailure)
    && (forall i :: 0 <= i < |work| && s.next <= i ==> s.jobs[i] == work[i].first && s.failures[i] == NoFailure)
    && (forall i :: 0 <= i < |work| && i < s.next && !Claimed(s, i) ==>
          s.jobs[i] == Content(work[i], |work[i].stores|) && s.failures[i] == work[i].failure)
  }

  /** A worker other than the stepping one keeps its claim. */
  lemma {:induction false} ClaimsPersist<J, E>(s: State<J, E>, work: seq<Job<J, E>>, w: nat, i: nat)
    requires Shaped(s, work) && w < |s.workers| && Claimed(s, i)
    requires !(s.workers[w].Running? && s.workers[w].job == i)
    ensures Claimed(Step(s, work, w), i)
  {
    var v :| 0 <= v < |s.workers| && s.workers[v].Running? && s.workers[v].job == i;
    assert Step(s, work, w).workers[v] == s.workers[v];
  }

  lemma {:induction false} ClaimKeepsInv<J, E>(s: State<J, E>, work: seq<Job<J, E>>, w: nat)
    requires Shaped(s, work) && Inv(s, work) && w < |s.workers| && s.workers[w].Ready?
    ensures Inv(Step(s, work, w), work)
  {
    var r := Step(s, work, w);
    assert s.next < |work| ==> r.workers[w] == Running(s.next, 0);
    assert s.next < |work| ==> Claimed(r, s.next);
    forall i: nat | Claimed(s, i)
      ensures Claimed(r, i)
    {
      ClaimsPersist(s, work, w, i);
    }
  }

  lemma {:induction false} StoreKeepsInv<J, E>(s: State<J, E>, work: seq<Job<J, E>>, w: nat)
    requires Shaped(s, work) && Inv(s, work) && w < |s.workers| && s.workers[w].Running?
    requires s.workers[w].stored < |work[s.workers[w].job].stores|
    ensures Inv(Step(s, work, w), work)
  {
    var r := Step(s, work, w);
    assert r.workers[w] == Running(s.workers[w].job, s.workers[w].stored + 1);
    assert Claimed(r, s.workers[w].job);
    forall i: nat | Claimed(s, i)
      ensures Claimed(r, i)
    {
      if i != s.workers[w].job { ClaimsPersist(s, work, w, i); }
    }
  }

  lemma {:induction false} FinishKeepsInv<J, E>(s: State<J, E>, work: seq<Job<J, E>>, w: nat)
    requires Shaped(s, work) && Inv(s, work) && w < |s.workers| && s.workers[w].Running?
    requires s.workers[w].stored == |work[s.workers[w].job].stores|
    ensures Inv(Step(s, work, w), work)
  {
    var r := Step(s, work, w);
    var job := s.workers[w].job;
    forall i: nat | Claimed(s, i) && i != job
      ensures Claimed(r, i)
    {
      ClaimsPersist(s, work, w, i);
    }
    assert s.jobs[job] == Content(work[job], |work[job].stores|) && s.failures[job] == NoFailure;
    assert r.jobs == s.jobs && r.next == s.next && r.failures[job] == work[job].failure;
    assert forall i :: 0 <= i < |work| && i != job ==> r.failures[i] == s.failures[i];
    assert forall v :: 0 <= v < |s.workers| && v != w ==> r.workers[v] == s.workers[v];
  }

  lemma {:induction false} EveryRunKeepsInv<J, E>(work: seq<Job<J, E>>, threads: nat, schedule: seq<nat>, n: nat)
    requires NamesThreads(schedule, threads) && n <= |schedule|
    ensures Inv(After(work, threads, schedule, n), work)
    decreases n
  {
    if n > 0 {
      EveryRunKeepsInv(work, threads, schedule, n - 1);
      var s := After(work, threads, schedule, n - 1);
      match s.workers[schedule[n - 1]] {
        case Ready => ClaimKeepsInv(s, work, schedule[n - 1]);
        case Running(i, k) =>
          if k < |work[i].stores| {
            StoreKeepsInv(s, work, schedule[n - 1]);
          } else {
            FinishKeepsInv(s, work, schedule[n - 1]);
          }
        case Stopped =>
      }
    }
  }

  /** How often index i has been claimed in the first n steps. */
  function Claims<J, E>(work: seq<Job<J, E>>, threads: nat, schedule: seq<nat>, n: nat, i: nat): nat
    requires NamesThreads(schedule, threads) && n <= |schedule|
    decreases n
  {
    if n == 0 then 0
    else
      var s := After(work, threads, schedule, n - 1);
      Claims(work, threads, schedule, n - 1, i) + if s.workers[schedule[n - 1]].Ready? && s.next == i then 1 else 0
  }

  /** No index is ever claimed twice, and exactly the indices below the counter have been claimed. */
  lemma {:induction false} ClaimedExactlyOnce<J, E>(work: seq<Job<J, E>>, threads: nat, schedule: seq<nat>, n: nat,
      i: nat)
    requires NamesThreads(schedule, threads) && n <= |schedule|
    ensures Claims(work, threads, schedule, n, i) == if i < After(work, threads, schedule, n).next then 1 else 0
    decreases n
  {
    if n > 0 { ClaimedExactlyOnce(work, threads, schedule, n - 1, i); }
  }

  // --- who writes a slot, over a whole run ---

  ghost predicate Runs<J, E>(s: State<J, E>, w: nat, i: nat)
    requires w < |s.workers|
  {
    s.workers[w].Running? && s.workers[w].job == i
  }

  lemma {:induction false} RunnerBefore<J, E>(s: State<J, E>, work: seq<Job<J, E>>, w: nat, v: nat, i: nat)
    requires Shaped(s, work) && w < |s.workers| && v < |s.workers| && Runs(Step(s, work, w), v, i)
    ensures Runs(s, v, i) || s.next == i
  {
  }

  /** A job that one worker has been running is never run by another. */
  lemma {:induction false} OneRunnerPerJob<J, E>(work: seq<Job<J, E>>, threads: nat, schedule: seq<nat>, j: nat,
                                                 n: nat, w: nat, v: nat, i: nat)
    requires NamesThreads(schedule, threads) && j <= n <= |schedule| && w < threads && v < threads
    requires Runs(After(work, threads, schedule, j), w, i) && Runs(After(work, threads, schedule, n), v, i)
    ensures w == v && i < After(work, threads, schedule, j).next <= After(work, threads, schedule, n).next
    decreases n
  {
    hide Step;
    EveryRunKeepsInv(work, threads, schedule, j);
    CounterGrows(work, threads, schedule, j, n);
    if j < n {
      CounterGrows(work, threads, schedule, j, n - 1);
      RunnerBefore(After(work, threads, schedule, n - 1), work, schedule[n - 1], v, i);
      OneRunnerPerJob(work, threads, schedule, j, n - 1, w, v, i);
    }
  }

  lemma {:induction false} CounterGrows<J, E>(work: seq<Job<J, E>>, threads: nat, schedule: seq<nat>, j: nat, n: nat)
    requires NamesThreads(schedule, threads) && j <= n <= |schedule|
    ensures After(work, threads, schedule, j).next <= After(work, threads, schedule, n).next
    decreases n
  {
    if j < n {
      CounterGrows(work, threads, schedule, j, n - 1);
    }
  }

  /** Step n of the schedule changes slot i of jobs or failures. */
  ghost predicate Changes<J, E>(work: seq<Job<J, E>>, threads: nat, schedule: seq<nat>, n: nat, i: nat)
    requires NamesThreads(schedule, threads) && n < |schedule| && i < |work|
  {
    var before, after := After(work, threads, schedule, n), After(work, threads, schedule, n + 1);
    after.jobs[i] != before.jobs[i] || after.failures[i] != before.failures[i]
  }

  /** In every run, all the steps that change a slot are one worker's. */
  lemma {:induction false} EachSlotHasOneWriter<J, E>(work: seq<Job<J, E>>, threads: nat, schedule: seq<nat>, m: nat,
                                                      n: nat, i: nat)
    requires NamesThreads(schedule, threads) && m <= n < |schedule| && i < |work|
    requires Changes(work, threads, schedule, m, i) && Changes(work, threads, schedule, n, i)
    ensures schedule[m] == schedule[n]
  {
    if !Runs(After(work, threads, schedule, m), schedule[m], i) {
      OnlyTheClaimantWrites(After(work, threads, schedule, m), work, schedule[m], i);
    }
    if !Runs(After(work, threads, schedule, n), schedule[n], i) {
      OnlyTheClaimantWrites(After(work, threads, schedule, n), work, schedule[n], i);
    }
    OneRunnerPerJob(work, threads, schedule, m, n, schedule[m], schedule[n], i);
  }

  // --- all jobs get done ---

  ghost predicate AllStopped<J, E>(s: State<J, E>) {
    forall w :: 0 <= w < |s.workers| ==> s.workers[w].Stopped?
  }

  /** The vectors a single loop over the jobs would leave. */
  function FinalJobs<J, E>(work: seq<Job<J, E>>): (r: seq<J>)
    ensures |r| == |work| && forall i {:trigger r[i]} :: 0 <= i < |work| ==> r[i] == Content(work[i], |work[i].stores|)
  {
    seq(|work|, i requires 0 <= i < |work| => Content(work[i], |work[i].stores|))
  }

  function FinalFailures<J, E>(work: seq<Job<J, E>>): (r: seq<Failure<E>>)
    ensures |r| == |work| && forall i {:trigger r[i]} :: 0 <= i < |work| ==> r[i] == work[i].failure
  {
    seq(|work|, i requires 0 <= i < |work| => work[i].failure)
  }

  /** Once every thread has stopped, jobs and failures are those of a sequential run, for every
      schedule and every positive number of threads. */
  lemma {:induction false} EveryScheduleIsSequential<J, E>(work: seq<Job<J, E>>, threads: nat, schedule: seq<nat>)
    requires NamesThreads(schedule, threads) && threads > 0
    requires AllStopped(After(work, threads, schedule, |schedule|))
    ensures After(work, threads, schedule, |schedule|).jobs == FinalJobs(work)
    ensures After(work, threads, schedule, |schedule|).failures == FinalFailures(work)
    ensures var s := After(work, threads, schedule, |schedule|);
            forall i :: 0 <= i < |work| ==>
              && s.jobs[i] == (if work[i].stores == [] then work[i].first else work[i].stores[|work[i].stores| - 1])
              && s.failures[i] == work[i].failure
  {
    EveryRunKeepsInv(work, threads, schedule, |schedule|);
    var s := After(work, threads, schedule, |schedule|);
    assert s.workers[0].Stopped?;
    forall i | 0 <= i < |work|
      ensures s.jobs[i] == Content(work[i], |work[i].stores|) && s.failures[i] == work[i].failure
    {
      assert !Claimed(s, i);
    }
  }

  // --- termination: every step of a live worker makes progress ---

  /** Steps still needed for the jobs from index i on: a claim, the stores, and the finish of each. */
  function Unclaimed<J, E>(work: seq<Job<J, E>>, i: nat): nat
    decreases |work| - i
  {
    if i >= |work| then 0 else |work[i].stores| + 2 + Unclaimed(work, i + 1)
  }

  function Remaining<J, E>(s: State<J, E>, work: seq<Job<J, E>>, n: nat): nat
    requires Shaped(s, work) && n <= |s.workers|
  {
    if n == 0 then 0
    else Remaining(s, work, n - 1) +
         match s.workers[n - 1]
         case Ready => 1
         case Running(i, k) => |work[i].stores| - k + 2
         case Stopped => 0
  }

  function Measure<J, E>(s: State<J, E>, work: seq<Job<J, E>>): nat
    requires Shaped(s, work)
  {
    Unclaimed(work, s.next) + Remaining(s, work, |s.workers|)
  }

  lemma {:induction false} RemainingElsewhere<J, E>(s: State<J, E>, r: State<J, E>, work: seq<Job<J, E>>, w: nat,
      n: nat)
    requires Shaped(s, work) && Shaped(r, work) && |s.workers| == |r.workers| && n <= |s.workers|
    requires forall v :: 0 <= v < n && v != w ==> r.workers[v] == s.workers[v]
    ensures w >= n ==> Remaining(r, work, n) == Remaining(s, work, n)
    ensures w < n ==>
              Remaining(r, work, n) - Remaining(s, work, n)
              == Remaining(r, work, w + 1) - Remaining(r, work, w) - (Remaining(s, work, w + 1) - Remaining(s, work, w))
    decreases n
  {
    if n > 0 { RemainingElsewhere(s, r, work, w, n - 1); }
  }

  /** Every step of a worker that has not stopped lowers the measure by exactly one, so every run takes
      at most Measure(start) effective steps. */
  lemma {:induction false} EveryStepCounts<J, E>(s: State<J, E>, work: seq<Job<J, E>>, w: nat)
    requires Shaped(s, work) && w < |s.workers| && !s.workers[w].Stopped?
    ensures Measure(Step(s, work, w), work) == Measure(s, work) - 1
  {
    var r := Step(s, work, w);
    RemainingElsewhere(s, r, work, w, |s.workers|);
    RemainingElsewhere(s, r, work, w, w);
  }

  /** The workers have nothing left to do exactly when all have stopped. */
  lemma {:induction false} NothingRemainsIff<J, E>(s: State<J, E>, work: seq<Job<J, E>>, n: nat)
    requires Shaped(s, work) && n <= |s.workers|
    ensures Remaining(s, work, n) == 0 <==> forall w :: 0 <= w < n ==> s.workers[w].Stopped?
    decreases n
  {
    if n > 0 { NothingRemainsIff(s, work, n - 1); }
  }

  /** No entry of the schedule is wasted on a worker that has stopped. */
  ghost predicate Effective<J, E>(work: seq<Job<J, E>>, threads: nat, schedule: seq<nat>, n: nat)
    requires NamesThreads(schedule, threads) && n <= |schedule|
    decreases n
  {
    n == 0 || (Effective(work, threads, schedule, n - 1)
               && !After(work, threads, schedule, n - 1).workers[schedule[n - 1]].Stopped?)
  }

  /** Every run stops: n effective steps use up n of the finitely many there are, and when none are left
      all workers have stopped. */
  lemma {:induction false} RunsTerminate<J, E>(work: seq<Job<J, E>>, threads: nat, schedule: seq<nat>, n: nat)
    requires NamesThreads(schedule, threads) && n <= |schedule| && Effective(work, threads, schedule, n)
    ensures n <= Measure(Initial(work, threads), work)
    ensures Measure(After(work, threads, schedule, n), work) == Measure(Initial(work, threads), work) - n
    ensures n == Measure(Initial(work, threads), work) ==> AllStopped(After(work, threads, schedule, n))
    decreases n
  {
    var s := After(work, threads, schedule, n);
    if n > 0 {
      RunsTerminate(work, threads, schedule, n - 1);
      EveryStepCounts(After(work, threads, schedule, n - 1), work, schedule[n - 1]);
    }
    NothingRemainsIff(s, work, |s.workers|);
  }

  // --- the report ---

  /** The failed jobs in job order. */
  function FailuresInOrder<E>(failures: seq<Failure<E>>, n: nat): (r: seq<(nat, E)>)
    requires n <= |failures|
  {
    if n == 0 then []
    else FailuresInOrder(failures, n - 1) + if failures[n - 1].Failed? then [(n - 1, failures[n - 1].error)] else []
  }

  ghost predicate ByIndex<E>(lines: seq<(nat, E)>) {
    forall p, q :: 0 <= p < q < |lines| ==> lines[p].0 < lines[q].0
  }

  /** The list names each failed job once, with its error, by increasing index. */
  lemma {:induction false} FailuresAreListed<E>(failures: seq<Failure<E>>, n: nat)
    requires n <= |failures|
    ensures forall i, e :: (i, e) in FailuresInOrder(failures, n) <==> 0 <= i < n && failures[i] == Failed(e)
    ensures ByIndex(FailuresInOrder(failures, n))
  {
    if n > 0 {
      FailuresAreListed(failures, n - 1);
      var before, r := FailuresInOrder(failures, n - 1), FailuresInOrder(failures, n);
      forall p | 0 <= p < |before|
        ensures before[p].0 < n - 1
      {
        var (i, e) := before[p];
        assert before[p] in before && before[p] == (i, e);
      }
      forall p, q | 0 <= p < q < |r|
        ensures r[p].0 < r[q].0
      {
        assert r[p] == before[p];
        if q < |before| { assert r[q] == before[q]; }
      }
    }
  }

  /** The reporting loop. */
  method Report<E>(failures: seq<Failure<E>>) returns (lines: seq<(nat, E)>, failed: nat)
    ensures lines == FailuresInOrder(failures, |failures|) && failed == |lines|
    ensures forall i, e :: (i, e) in lines <==> 0 <= i < |failures| && failures[i] == Failed(e)
    ensures ByIndex(lines)
  {
    FailuresAreListed(failures, |failures|);
    lines, failed := [], 0;
    for index := 0 to |failures|
      invariant lines == FailuresInOrder(failures, index) && failed == |lines|
    {
      if failures[index] == NoFailure {
        continue;
      }
      failed := failed + 1;
      lines := lines + [(index, failures[index].error)];
    }
  }

  /** The report does not depend on how the work was scheduled. */
  lemma {:induction false} ReportIsScheduleFree<J, E>(work: seq<Job<J, E>>, t1: nat, s1: seq<nat>, t2: nat,
      s2: seq<nat>)
    requires NamesThreads(s1, t1) && NamesThreads(s2, t2) && t1 > 0 && t2 > 0
    requires AllStopped(After(work, t1, s1, |s1|)) && AllStopped(After(work, t2, s2, |s2|))
    ensures After(work, t1, s1, |s1|).jobs == After(work, t2, s2, |s2|).jobs
    ensures FailuresInOrder(After(work, t1, s1, |s1|).failures, |work|)
         == FailuresInOrder(After(work, t2, s2, |s2|).failures, |work|)
  {
    EveryScheduleIsSequential(work, t1, s1);
    EveryScheduleIsSequential(work, t2, s2);
  }
}
