/** The shared dataset and its leases: research/intermediate-repr-src/src/benchmark_main.cpp,
    shared_dataset_fixture. */
module Lease {

  import opened Wrappers

  /** A built dataset: which scenario it was made for, and a serial number distinguishing builds. */
  datatype Built = Built(scenario: nat, serial: nat)

  /** Acquiring gives a lease on the shared data, or the worker-count mismatch error. */
  datatype Acquired = Leased(data: Built) | Mismatch

  /** The fixture's fields, and how many datasets have been built. */
  datatype Shared = Shared(data: Option<Built>, active: int, released: int, builds: nat)

  function AcquireResult(s: Shared, scenario: nat, workers: int): Acquired {
    if s.data.None? then Leased(Built(scenario, s.builds))
    else if s.active != workers then Mismatch
    else Leased(s.data.value)
  }

  function AfterAcquire(s: Shared, scenario: nat, workers: int): Shared {
    if s.data.None? then Shared(Some(Built(scenario, s.builds)), workers, 0, s.builds + 1) else s
  }

  function AfterRelease(s: Shared): Shared {
    if s.released + 1 == s.active then Shared(None, 0, 0, s.builds) else s.(released := s.released + 1)
  }

  class Fixture {
    var data: Option<Built>
    var activeWorkers: int
    var releasedWorkers: int
    ghost var builds: nat

    ghost function State(): Shared
      reads this
    {
      Shared(data, activeWorkers, releasedWorkers, builds)
    }

    constructor ()
      ensures State() == Shared(None, 0, 0, 0)
    {
      data, activeWorkers, releasedWorkers, builds := None, 0, 0, 0;
    }

    /** The mutex makes the whole body one step; `serial` names the dataset should one be built. */
    method Acquire(scenario: nat, workers: int, serial: nat) returns (r: Acquired)
      requires serial == builds
      modifies this
      ensures r == AcquireResult(old(State()), scenario, workers)
      ensures State() == AfterAcquire(old(State()), scenario, workers)
      ensures r == Mismatch <==> old(data).Some? && old(activeWorkers) != workers
      ensures r != Mismatch ==> data == Some(r.data)
      ensures old(data).None? ==>
                r == Leased(Built(scenario, serial)) && activeWorkers == workers && releasedWorkers == 0
      ensures old(data).Some? ==> State() == old(State())
    {
      if data.None? {
        data := Some(Built(scenario, serial));
        builds := builds + 1;
        activeWorkers := workers;
        releasedWorkers := 0;
      } else if activeWorkers != workers {
        return Mismatch;
      }
      return Leased(data.value);
    }

    method Release()
      modifies this
      ensures State() == AfterRelease(old(State()))
      ensures old(releasedWorkers) + 1 == old(activeWorkers) ==>
                data == None && activeWorkers == 0 && releasedWorkers == 0
      ensures old(releasedWorkers) + 1 != old(activeWorkers) ==>
                data == old(data) && activeWorkers == old(activeWorkers) && releasedWorkers == old(releasedWorkers) + 1
    {
      releasedWorkers := releasedWorkers + 1;
      if releasedWorkers == activeWorkers {
        data := None;
        activeWorkers := 0;
        releasedWorkers := 0;
      }
    }
  }

  // --- N workers, round after round ---

  datatype Phase = Waiting | Holding(data: Built) | Finished

  /** `workers` holds each worker's phase in the current round; `failed` is set by a mismatch. */
  datatype World = World(shared: Shared, workers: seq<Phase>, round: nat, failed: bool)

  datatype Event = Acquire(worker: nat) | Release(worker: nat) | Barrier

  function Count(workers: seq<Phase>, p: Phase -> bool): nat {
    if workers == [] then 0 else Count(workers[1..], p) + if p(workers[0]) then 1 else 0
  }

  const WAITING := (w: Phase) => w.Waiting?
  const FINISHED := (w: Phase) => w.Finished?

  /** The event can happen: a worker acquires before and releases after its turn, and the barrier
      opens once all have released. */
  predicate Enabled(w: World, e: Event) {
    match e
    case Acquire(i) => i < |w.workers| && w.workers[i].Waiting?
    case Release(i) => i < |w.workers| && w.workers[i].Holding?
    case Barrier => forall i :: 0 <= i < |w.workers| ==> w.workers[i].Finished?
  }

  /** scenarios(r) is the scenario of round r. */
  function Step(w: World, e: Event, scenarios: nat -> nat): World
    requires Enabled(w, e)
  {
    match e
    case Acquire(i) =>
      var n := |w.workers|;
      var scenario := scenarios(w.round);
      (match AcquireResult(w.shared, scenario, n)
       case Leased(data) => w.(shared := AfterAcquire(w.shared, scenario, n), workers := w.workers[i := Holding(data)])
       case Mismatch => w.(failed := true))
    case Release(i) => w.(shared := AfterRelease(w.shared), workers := w.workers[i := Finished])
    case Barrier => w.(workers := seq(|w.workers|, _ => Waiting), round := w.round + 1)
  }

  ghost predicate Possible(n: nat, events: seq<Event>, k: nat, scenarios: nat -> nat)
    requires k <= |events|
    decreases k, 0
  {
    k == 0 || (Possible(n, events, k - 1, scenarios) && Enabled(After(n, events, k - 1, scenarios), events[k - 1]))
  }

  /** The world after the first k events, from the start with n workers. */
  ghost function After(n: nat, events: seq<Event>, k: nat, scenarios: nat -> nat): World
    requires k <= |events| && Possible(n, events, k, scenarios)
    decreases k, 1
  {
    if k == 0 then World(Shared(None, 0, 0, 0), seq(n, _ => Waiting), 0, false)
    else Step(After(n, events, k - 1, scenarios), events[k - 1], scenarios)
  }

  lemma {:induction false} CountUpdate(workers: seq<Phase>, p: Phase -> bool, i: nat, phase: Phase)
    requires i < |workers|
    ensures Count(workers[i := phase], p)
         == Count(workers, p) + (if p(phase) then 1 else 0) - (if p(workers[i]) then 1 else 0)
    decreases |workers|
  {
    if i == 0 {
      assert workers[i := phase][1..] == workers[1..];
    } else {
      assert workers[i := phase][1..] == workers[1..][i - 1 := phase];
      CountUpdate(workers[1..], p, i - 1, phase);
    }
  }

  lemma {:induction false} CountBounds(workers: seq<Phase>, p: Phase -> bool)
    ensures Count(workers, p) <= |workers|
    ensures Count(workers, p) == |workers| <==> forall i :: 0 <= i < |workers| ==> p(workers[i])
    ensures Count(workers, p) == 0 <==> forall i :: 0 <= i < |workers| ==> !p(workers[i])
    decreases |workers|
  {
    if |workers| > 0 {
      CountBounds(workers[1..], p);
      assert forall i :: 0 <= i < |workers| - 1 ==> workers[1..][i] == workers[i + 1];
      assert forall i :: 0 < i < |workers| ==> workers[i] == workers[1..][i - 1];
    }
  }

  /** What holds between any two events. In round r the dataset is number r, made for round r's
      scenario; it is there exactly while someone has acquired and not everyone has released. */
  ghost predicate Inv(w: World, n: nat, scenarios: nat -> nat) {
    var finished, waiting := Count(w.workers, FINISHED), Count(w.workers, WAITING);
    && |w.workers| == n && !w.failed
    && (w.shared.data.Some? <==> waiting < n && finished < n)
    && (w.shared.data.Some? ==>
          && w.shared.data.value == Built(scenarios(w.round), w.round)
          && w.shared.active == n && w.shared.released == finished)
    && w.shared.builds == w.round + (if waiting < n then 1 else 0)
    && (forall i :: 0 <= i < n && w.workers[i].Holding? ==> w.workers[i].data == Built(scenarios(w.round), w.round))
  }

  lemma {:induction false} AcquireKeepsInv(w: World, n: nat, i: nat, scenarios: nat -> nat)
    requires Inv(w, n, scenarios) && Enabled(w, Event.Acquire(i))
    ensures Inv(Step(w, Event.Acquire(i), scenarios), n, scenarios)
  {
    CountBounds(w.workers, FINISHED);
    CountBounds(w.workers, WAITING);
    var held := Holding(Built(scenarios(w.round), w.round));
    CountUpdate(w.workers, FINISHED, i, held);
    CountUpdate(w.workers, WAITING, i, held);
    if w.shared.data.None? {
      NotBothFull(w.workers, i);
    }
  }

  lemma {:induction false} NotBothFull(workers: seq<Phase>, i: nat)
    requires i < |workers| && workers[i].Waiting?
    ensures Count(workers, FINISHED) < |workers|
  {
    CountBounds(workers, FINISHED);
  }

  lemma {:induction false} ReleaseKeepsInv(w: World, n: nat, i: nat, scenarios: nat -> nat)
    requires Inv(w, n, scenarios) && Enabled(w, Event.Release(i))
    ensures Inv(Step(w, Event.Release(i), scenarios), n, scenarios)
  {
    CountBounds(w.workers, FINISHED);
    CountBounds(w.workers, WAITING);
    CountUpdate(w.workers, FINISHED, i, Finished);
    CountUpdate(w.workers, WAITING, i, Finished);
    CountBounds(w.workers[i := Finished], FINISHED);
  }

  lemma {:induction false} BarrierKeepsInv(w: World, n: nat, scenarios: nat -> nat)
    requires n > 0 && Inv(w, n, scenarios) && Enabled(w, Barrier)
    ensures Inv(Step(w, Barrier, scenarios), n, scenarios)
  {
    CountBounds(w.workers, FINISHED);
    CountBounds(w.workers, WAITING);
    var next := Step(w, Barrier, scenarios);
    CountBounds(next.workers, FINISHED);
    CountBounds(next.workers, WAITING);
  }

  /** Every run of n workers, whatever the interleaving, keeps the invariant. */
  lemma {:induction false} EveryRunIsSafe(n: nat, events: seq<Event>, k: nat, scenarios: nat -> nat)
    requires n > 0 && k <= |events| && Possible(n, events, k, scenarios)
    ensures Inv(After(n, events, k, scenarios), n, scenarios)
    decreases k
  {
    if k == 0 {
      var w := After(n, events, 0, scenarios);
      CountBounds(w.workers, FINISHED);
      CountBounds(w.workers, WAITING);
    } else {
      EveryRunIsSafe(n, events, k - 1, scenarios);
      var w := After(n, events, k - 1, scenarios);
      match events[k - 1] {
        case Acquire(i) => AcquireKeepsInv(w, n, i, scenarios);
        case Release(i) => ReleaseKeepsInv(w, n, i, scenarios);
        case Barrier => BarrierKeepsInv(w, n, scenarios);
      }
    }
  }

  /** For every run: no mismatch is ever raised; every lease of a round is the one dataset built for
      that round, however late it is acquired; one dataset is built per started round; and the data
      is dropped exactly by the round's last release. */
  lemma {:induction false} OneDatasetPerRound(n: nat, events: seq<Event>, scenarios: nat -> nat)
    requires n > 0 && Possible(n, events, |events|, scenarios)
    ensures var w := After(n, events, |events|, scenarios);
            && !w.failed
            && (forall i :: 0 <= i < |w.workers| && w.workers[i].Holding? ==>
                  w.workers[i].data == Built(scenarios(w.round), w.round))
            && w.shared.builds
               == w.round + (if exists i :: 0 <= i < |w.workers| && !w.workers[i].Waiting? then 1 else 0)
            && (w.shared.data.None? <==>
                  (forall i :: 0 <= i < |w.workers| ==> w.workers[i].Waiting?)
                  || (forall i :: 0 <= i < |w.workers| ==> w.workers[i].Finished?))
  {
    EveryRunIsSafe(n, events, |events|, scenarios);
    var w := After(n, events, |events|, scenarios);
    CountBounds(w.workers, FINISHED);
    CountBounds(w.workers, WAITING);
  }
}
