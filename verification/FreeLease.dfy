/** The shared dataset's leases when nothing makes the workers wait for each other between rounds:
    research/intermediate-repr-src/src/benchmark_main.cpp, shared_dataset_fixture. */
module FreeLease {

  import opened Wrappers
  import opened Lease

  /** A worker goes through its rounds on its own: acquire, release, next round. */
  datatype Worker = Idle(round: nat) | Busy(round: nat, lease: Built)

  datatype Run = Run(shared: Shared, workers: seq<Worker>, mismatch: bool)

  datatype Move = Take(worker: nat) | Give(worker: nat)

  predicate CanMove(r: Run, m: Move) {
    m.worker < |r.workers| && (if m.Take? then r.workers[m.worker].Idle? else r.workers[m.worker].Busy?)
  }

  /** scenarios(k) is the scenario of round k. */
  function Moved(r: Run, m: Move, scenarios: nat -> nat): Run
    requires CanMove(r, m)
  {
    var n, round := |r.workers|, r.workers[m.worker].round;
    match m
    case Take(i) =>
      (match AcquireResult(r.shared, scenarios(round), n)
       case Leased(data) =>
         r.(shared := AfterAcquire(r.shared, scenarios(round), n), workers := r.workers[i := Busy(round, data)])
       case Mismatch => r.(mismatch := true))
    case Give(i) => r.(shared := AfterRelease(r.shared), workers := r.workers[i := Idle(round + 1)])
  }

  /** The first k workers at the start of round `next`, the others at that of round `round`. */
  function Resting(n: nat, k: nat, next: nat, round: nat): (w: seq<Worker>)
    ensures |w| == n && forall i {:trigger w[i]} :: 0 <= i < n ==> w[i] == Idle(if i < k then next else round)
  {
    seq(n, i => Idle(if i < k then next else round))
  }

  function Start(n: nat): Run {
    Run(Shared(None, 0, 0, 0), Resting(n, 0, 0, 0), false)
  }

  ghost predicate CanHappen(n: nat, moves: seq<Move>, scenarios: nat -> nat)
    decreases |moves|, 0
  {
    moves == [] || (CanHappen(n, moves[..|moves| - 1], scenarios)
                    && CanMove(After(n, moves[..|moves| - 1], scenarios), moves[|moves| - 1]))
  }

  ghost function After(n: nat, moves: seq<Move>, scenarios: nat -> nat): Run
    requires CanHappen(n, moves, scenarios)
    decreases |moves|, 1
  {
    if moves == [] then Start(n)
    else Moved(After(n, moves[..|moves| - 1], scenarios), moves[|moves| - 1], scenarios)
  }

  /** Every lease held is on data made for its worker's own round. */
  ghost predicate LeasesAreOwn(r: Run, scenarios: nat -> nat) {
    forall i :: 0 <= i < |r.workers| && r.workers[i].Busy? ==>
      r.workers[i].lease.scenario == scenarios(r.workers[i].round)
  }

  ghost predicate Constant(scenarios: nat -> nat) {
    forall k: nat :: scenarios(k) == scenarios(0)
  }

  // --- no mismatch, barrier or not ---

  ghost predicate Agreed(r: Run, n: nat) {
    |r.workers| == n && !r.mismatch && (r.shared.data.Some? ==> r.shared.active == n)
  }

  /** With one worker count for all, the mismatch error is never raised. */
  lemma {:induction false} NeverMismatch(n: nat, moves: seq<Move>, scenarios: nat -> nat)
    requires CanHappen(n, moves, scenarios)
    ensures Agreed(After(n, moves, scenarios), n)
    decreases |moves|
  {
    if moves != [] {
      NeverMismatch(n, moves[..|moves| - 1], scenarios);
    }
  }

  // --- one worker ---

  ghost predicate Lonely(r: Run, scenarios: nat -> nat) {
    && |r.workers| == 1 && (r.workers[0].Idle? <==> r.shared.data.None?)
    && (r.shared.data.Some? ==>
          r.shared.active == 1 && r.shared.released == 0
          && r.workers[0].lease == r.shared.data.value
          && r.shared.data.value.scenario == scenarios(r.workers[0].round))
  }

  lemma {:induction false} OneWorkerIsLonely(moves: seq<Move>, scenarios: nat -> nat)
    requires CanHappen(1, moves, scenarios)
    ensures Lonely(After(1, moves, scenarios), scenarios)
    decreases |moves|
  {
    if moves != [] {
      OneWorkerIsLonely(moves[..|moves| - 1], scenarios);
    }
  }

  // --- one scenario ---

  ghost predicate OneScenario(r: Run, scenario: nat) {
    && (r.shared.data.Some? ==> r.shared.data.value.scenario == scenario)
    && forall i :: 0 <= i < |r.workers| && r.workers[i].Busy? ==> r.workers[i].lease.scenario == scenario
  }

  lemma {:induction false} ConstantGivesOneScenario(n: nat, moves: seq<Move>, scenarios: nat -> nat)
    requires Constant(scenarios) && CanHappen(n, moves, scenarios)
    ensures OneScenario(After(n, moves, scenarios), scenarios(0))
    decreases |moves|
  {
    if moves != [] {
      ConstantGivesOneScenario(n, moves[..|moves| - 1], scenarios);
    }
  }

  // --- a run that leases old data ---

  /** One more move at the end of a run. */
  lemma {:induction false} Extend(n: nat, moves: seq<Move>, m: Move, scenarios: nat -> nat)
    requires CanHappen(n, moves, scenarios) && CanMove(After(n, moves, scenarios), m)
    ensures CanHappen(n, moves + [m], scenarios)
    ensures After(n, moves + [m], scenarios) == Moved(After(n, moves, scenarios), m, scenarios)
  {
    var all := moves + [m];
    assert all[..|all| - 1] == moves && all[|all| - 1] == m;
  }

  /** Round after round, the workers take their turn one after another: `round` whole rounds, then k turns. */
  function Turns(n: nat, round: nat, k: nat): seq<Move>
    requires k <= n
    decreases round, k
  {
    if k > 0 then Turns(n, round, k - 1) + [Take(k - 1)] + [Give(k - 1)]
    else if round > 0 then Turns(n, round - 1, n)
    else []
  }

  function BetweenTurns(n: nat, round: nat, k: nat, scenarios: nat -> nat): Run
    requires k <= n
  {
    Run(if k == 0 then Shared(None, 0, 0, round)
        else if k == n then Shared(None, 0, 0, round + 1)
        else Shared(Some(Built(scenarios(round), round)), n, k, round + 1),
        Resting(n, k, round + 1, round), false)
  }

  /** Worker k takes and gives back, from the state between two turns. */
  lemma {:induction false} OneTurn(n: nat, round: nat, k: nat, scenarios: nat -> nat)
    requires k < n
    ensures var before := BetweenTurns(n, round, k, scenarios);
            && CanMove(before, Take(k))
            && CanMove(Moved(before, Take(k), scenarios), Give(k))
            && Moved(Moved(before, Take(k), scenarios), Give(k), scenarios) == BetweenTurns(n, round, k + 1, scenarios)
  {
    var before := BetweenTurns(n, round, k, scenarios);
    var taken := Moved(before, Take(k), scenarios);
    assert taken.workers[k] == Busy(round, Built(scenarios(round), round));
    var given := Moved(taken, Give(k), scenarios);
    assert given.workers == BetweenTurns(n, round, k + 1, scenarios).workers;
  }

  lemma {:induction false} TurnsHappen(n: nat, round: nat, k: nat, scenarios: nat -> nat)
    requires 0 < n && k <= n
    ensures CanHappen(n, Turns(n, round, k), scenarios)
    ensures After(n, Turns(n, round, k), scenarios) == BetweenTurns(n, round, k, scenarios)
    decreases round, k
  {
    if k > 0 {
      var before := Turns(n, round, k - 1);
      TurnsHappen(n, round, k - 1, scenarios);
      OneTurn(n, round, k - 1, scenarios);
      Extend(n, before, Take(k - 1), scenarios);
      Extend(n, before + [Take(k - 1)], Give(k - 1), scenarios);
    } else if round > 0 {
      TurnsHappen(n, round - 1, n, scenarios);
      assert Resting(n, n, round, round - 1) == Resting(n, 0, round + 1, round);
    }
  }

  /** `round` whole rounds, then worker 0 runs ahead: through round `round` and into the next. */
  function RunsAhead(n: nat, round: nat): seq<Move>
    requires 0 < n
  {
    Turns(n, round, 1) + [Take(0)]
  }

  lemma {:induction false} RunningAheadGetsOldData(n: nat, round: nat, scenarios: nat -> nat)
    requires n > 1
    ensures CanHappen(n, RunsAhead(n, round), scenarios)
    ensures After(n, RunsAhead(n, round), scenarios).workers[0] == Busy(round + 1, Built(scenarios(round), round))
  {
    TurnsHappen(n, round, 1, scenarios);
    Extend(n, Turns(n, round, 1), Take(0), scenarios);
  }

  lemma {:induction false} ScenarioChanges(scenarios: nat -> nat, k: nat) returns (round: nat)
    requires scenarios(k) != scenarios(0)
    ensures scenarios(round) != scenarios(round + 1)
    decreases k
  {
    if scenarios(k - 1) != scenarios(0) {
      round := ScenarioChanges(scenarios, k - 1);
    } else {
      round := k - 1;
    }
  }

  /** Every run without a barrier gives every lease its own round's scenario. */
  ghost predicate AlwaysOwn(n: nat, scenarios: nat -> nat) {
    forall moves: seq<Move> :: CanHappen(n, moves, scenarios) ==> LeasesAreOwn(After(n, moves, scenarios), scenarios)
  }

  /** That is so exactly for a single worker or a single scenario: anyone else needs the barrier. */
  lemma {:induction false} AlwaysOwnIff(n: nat, scenarios: nat -> nat)
    requires n > 0
    ensures AlwaysOwn(n, scenarios) <==> n == 1 || Constant(scenarios)
  {
    if n == 1 || Constant(scenarios) {
      forall moves: seq<Move> | CanHappen(n, moves, scenarios)
        ensures LeasesAreOwn(After(n, moves, scenarios), scenarios)
      {
        if n == 1 {
          OneWorkerIsLonely(moves, scenarios);
        } else {
          ConstantGivesOneScenario(n, moves, scenarios);
        }
      }
    } else {
      var k: nat :| scenarios(k) != scenarios(0);
      var round := ScenarioChanges(scenarios, k);
      RunningAheadGetsOldData(n, round, scenarios);
      assert !LeasesAreOwn(After(n, RunsAhead(n, round), scenarios), scenarios);
    }
  }
}
