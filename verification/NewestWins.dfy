/** The editor's newest-request-wins protocol. Previews and analyses follow the same steps, only what is
    done with an accepted result differs. editors/vscode-tsl/src: preview.ts, PreviewManager;
    analysis.ts, ConcreteAnalysisManager; subprocess.ts, CancellableProcess. */
module NewestWins {

  import opened Wrappers

  // --- CancellableProcess ---

  /** The promise a process settles at most once. */
  datatype Promise = Pending | Resolved(code: int, stdout: string, cancelled: bool) | Rejected

  /** exited: the child's exit or signal code is known, which happens before its streams close. */
  datatype Process = Process(exited: bool, cancelled: bool, result: Promise)

  const SPAWNED := Process(false, false, Pending)

  function Cancelled(p: Process): Process {
    if p.exited then p else p.(cancelled := true)
  }

  function Closed(p: Process, code: int, stdout: string): Process {
    if p.result.Pending? then p.(result := Resolved(code, stdout, p.cancelled)) else p
  }

  function Errored(p: Process): Process {
    if p.result.Pending? then p.(result := Rejected) else p
  }

  // --- the manager ---

  datatype Accepted = Accepted(generation: nat, stdout: string)

  /** Request i started process i; issuedAs[i] is the generation it was issued with, and finished[i] says
      that its code after the await has run. accepted lists the results stored or returned. */
  datatype State = State(generation: nat, running: Option<nat>, processes: seq<Process>,
                         issuedAs: seq<nat>, finished: seq<bool>, accepted: seq<Accepted>)

  /** IssueThrows: a request whose process cannot be started, because the spawn call itself throws. */
  datatype Event =
    | Issue
    | IssueThrows
    | Exit(i: nat)
    | Close(i: nat, code: int, stdout: string)
    | Error(i: nat)
    | UserCancel(i: nat)
    | Resume(i: nat)
    | Dispose

  const START := State(0, None, [], [], [], [])

  predicate Enabled(s: State, e: Event) {
    match e
    case Issue => true
    case IssueThrows => true
    case Dispose => true
    case Exit(i) => i < |s.processes|
    case Close(i, _, _) => i < |s.processes| && s.processes[i].exited
    case Error(i) => i < |s.processes|
    case UserCancel(i) => i < |s.processes|
    case Resume(i) =>
      i < |s.processes| == |s.finished| == |s.issuedAs| && !s.finished[i] && !s.processes[i].result.Pending?
  }

  /** this.running?.cancel() */
  function CancelRunning(s: State): seq<Process> {
    if s.running.Some? && s.running.value < |s.processes| then
      s.processes[s.running.value := Cancelled(s.processes[s.running.value])]
    else s.processes
  }

  /** What happens to request i after its await: `usable` says whether an exit-0 output is accepted, which
      for a preview is always and for an analysis means that it parses. */
  function AfterAwait(s: State, i: nat, usable: string -> bool): State
    requires Enabled(s, Resume(i))
  {
    var r := s.processes[i].result;
    var done := s.(finished := s.finished[i := true]);
    if r.Rejected? then done
    else
      var t := if s.running == Some(i) then done.(running := None) else done;
      if r.cancelled || s.issuedAs[i] != s.generation then t
      else if r.code != 0 || !usable(r.stdout) then t
      else t.(accepted := s.accepted + [Accepted(s.issuedAs[i], r.stdout)])
  }

  function Step(s: State, e: Event, usable: string -> bool): State
    requires Enabled(s, e)
  {
    match e
    case Issue =>
      State(s.generation + 1, Some(|s.processes|), CancelRunning(s) + [SPAWNED],
            s.issuedAs + [s.generation + 1], s.finished + [false], s.accepted)
    case IssueThrows => s.(generation := s.generation + 1, processes := CancelRunning(s))
    case Dispose => s.(generation := s.generation + 1, running := None, processes := CancelRunning(s))
    case Exit(i) => s.(processes := s.processes[i := s.processes[i].(exited := true)])
    case Close(i, code, stdout) => s.(processes := s.processes[i := Closed(s.processes[i], code, stdout)])
    case Error(i) => s.(processes := s.processes[i := Errored(s.processes[i])])
    case UserCancel(i) => s.(processes := s.processes[i := Cancelled(s.processes[i])])
    case Resume(i) => AfterAwait(s, i, usable)
  }

  /** The manager object. A process is known by its place in the table of processes ever started. */
  class Manager {
    var generation: nat
    var running: Option<nat>
    var processes: seq<Process>
    var issuedAs: seq<nat>
    var finished: seq<bool>
    var accepted: seq<Accepted>

    ghost function Abstract(): State
      reads this
    {
      State(generation, running, processes, issuedAs, finished, accepted)
    }

    constructor ()
      ensures Abstract() == START
    {
      generation, running, processes, issuedAs, finished, accepted := 0, None, [], [], [], [];
    }

    method CancelIfRunning()
      modifies `processes
      ensures processes == CancelRunning(old(Abstract()))
    {
      if running.Some? && running.value < |processes| {
        var p := processes[running.value];
        if !p.exited {
          processes := processes[running.value := p.(cancelled := true)];
        }
      }
    }

    /** run or analyze, up to the await. Whether the spawn call succeeds is up to the system; when it throws,
        the generation has moved and the old process has been told to stop. */
    method Issue(spawns: bool) returns (i: Option<nat>)
      modifies this
      ensures i == if spawns then Some(old(|processes|)) else None
      ensures Abstract() == Step(old(Abstract()), if spawns then Event.Issue else IssueThrows, (_) => true)
    {
      generation := generation + 1;
      var mine := generation;
      CancelIfRunning();
      if !spawns {
        return None;
      }
      i := Some(|processes|);
      running := i;
      processes := processes + [SPAWNED];
      issuedAs := issuedAs + [mine];
      finished := finished + [false];
    }

    /** run or analyze, from the await on. */
    method Resume(i: nat, usable: string -> bool)
      requires Enabled(Abstract(), Event.Resume(i))
      modifies this
      ensures Abstract() == Step(old(Abstract()), Event.Resume(i), usable)
    {
      finished := finished[i := true];
      var result := processes[i].result;
      if result.Rejected? {
        return;
      }
      if running == Some(i) {
        running := None;
      }
      if result.cancelled || issuedAs[i] != generation {
        return;
      }
      if result.code != 0 || !usable(result.stdout) {
        return;
      }
      accepted := accepted + [Accepted(issuedAs[i], result.stdout)];
    }

    method Dispose()
      modifies this
      ensures Abstract() == Step(old(Abstract()), Event.Dispose, (_) => true)
    {
      generation := generation + 1;
      CancelIfRunning();
      running := None;
    }
  }

  // --- runs ---

  ghost predicate Possible(events: seq<Event>, k: nat, usable: string -> bool)
    requires k <= |events|
    decreases k, 0
  {
    k == 0 || (Possible(events, k - 1, usable) && Enabled(After(events, k - 1, usable), events[k - 1]))
  }

  ghost function After(events: seq<Event>, k: nat, usable: string -> bool): State
    requires k <= |events| && Possible(events, k, usable)
    decreases k, 1
  {
    if k == 0 then START else Step(After(events, k - 1, usable), events[k - 1], usable)
  }

  ghost predicate IssuedInOrder(s: State) {
    && |s.issuedAs| == |s.finished| == |s.processes|
    && (forall i, j :: 0 <= i < j < |s.issuedAs| ==> s.issuedAs[i] < s.issuedAs[j])
    && (forall i :: 0 <= i < |s.issuedAs| ==> s.issuedAs[i] <= s.generation)
  }

  /** The running process is the newest one started, and if a newer generation has begun, which happens
      only when a spawn throws, it has exited or been told to stop. */
  ghost predicate RunningIsNewest(s: State) {
    s.running.Some? ==>
      && |s.processes| == |s.issuedAs| > 0
      && s.running.value == |s.processes| - 1
      && (s.issuedAs[s.running.value] == s.generation
          || s.processes[s.running.value].exited || s.processes[s.running.value].cancelled)
  }

  /** No process is left behind: each has exited, was told to stop, or is the running one. */
  ghost predicate NoneForgotten(s: State) {
    forall i :: 0 <= i < |s.processes| ==>
      s.processes[i].exited || s.processes[i].cancelled || s.running == Some(i)
  }

  /** A settled result carries the final word on cancellation. */
  ghost predicate ResultsAreFinal(s: State) {
    forall i :: 0 <= i < |s.processes| && s.processes[i].result.Resolved? ==>
      s.processes[i].exited && s.processes[i].result.cancelled == s.processes[i].cancelled
  }

  /** Request i's result is among the accepted ones. */
  ghost predicate WasAccepted(s: State, i: nat)
    requires i < |s.issuedAs|
  {
    exists a :: 0 <= a < |s.accepted| && s.accepted[a].generation == s.issuedAs[i]
  }

  ghost predicate AcceptedInOrder(s: State) {
    && |s.issuedAs| == |s.finished|
    && (forall a, b :: 0 <= a < b < |s.accepted| ==> s.accepted[a].generation < s.accepted[b].generation)
    && (forall a :: 0 <= a < |s.accepted| ==> s.accepted[a].generation <= s.generation)
    && (forall i :: 0 <= i < |s.issuedAs| && !s.finished[i] ==> !WasAccepted(s, i))
  }

  ghost predicate Inv(s: State) {
    IssuedInOrder(s) && RunningIsNewest(s) && NoneForgotten(s) && ResultsAreFinal(s) && AcceptedInOrder(s)
  }

  lemma {:induction false} NewestAcceptedIsOlder(s: State, i: nat, a: nat)
    requires IssuedInOrder(s) && AcceptedInOrder(s) && i < |s.issuedAs| && !s.finished[i]
    requires s.issuedAs[i] == s.generation && a < |s.accepted|
    ensures s.accepted[a].generation < s.generation
  {
    assert !WasAccepted(s, i);
  }

  lemma {:induction false} ResumeKeepsInv(s: State, i: nat, usable: string -> bool)
    requires Inv(s) && Enabled(s, Resume(i))
    ensures Inv(Step(s, Resume(i), usable))
  {
    var t := Step(s, Resume(i), usable);
    if |t.accepted| > |s.accepted| {
      forall a | 0 <= a < |s.accepted|
        ensures s.accepted[a].generation < s.generation
      {
        NewestAcceptedIsOlder(s, i, a);
      }
    }
    forall j | 0 <= j < |t.issuedAs| && !t.finished[j]
      ensures !WasAccepted(t, j)
    {
      assert !WasAccepted(s, j) && j != i;
    }
  }

  lemma {:induction false} StepKeepsInv(s: State, e: Event, usable: string -> bool)
    requires Inv(s) && Enabled(s, e)
    ensures Inv(Step(s, e, usable))
  {
    if e.Resume? {
      ResumeKeepsInv(s, e.i, usable);
    } else {
      var t := Step(s, e, usable);
      forall j | 0 <= j < |t.issuedAs| && !t.finished[j]
        ensures !WasAccepted(t, j)
      {
        assert j < |s.issuedAs| ==> !WasAccepted(s, j);
      }
    }
  }

  /** In every run, at every moment. */
  lemma {:induction false} EveryRunIsSafe(events: seq<Event>, k: nat, usable: string -> bool)
    requires k <= |events| && Possible(events, k, usable)
    ensures Inv(After(events, k, usable))
    decreases k
  {
    if k > 0 {
      EveryRunIsSafe(events, k - 1, usable);
      StepKeepsInv(After(events, k - 1, usable), events[k - 1], usable);
    }
  }

  /** How many requests have failed to start a process since one last did. */
  function ThrowsSinceIssue(events: seq<Event>, k: nat): nat
    requires k <= |events|
  {
    if k == 0 || events[k - 1].Issue? then 0
    else ThrowsSinceIssue(events, k - 1) + if events[k - 1].IssueThrows? then 1 else 0
  }

  /** In every run, the running process is of the current generation but for the requests that failed to start
      a process of their own. */
  lemma {:induction false} RunningLagsByThrows(events: seq<Event>, k: nat, usable: string -> bool)
    requires k <= |events| && Possible(events, k, usable)
    ensures var s := After(events, k, usable);
            s.running.Some? ==> s.running.value < |s.issuedAs|
                                && s.generation == s.issuedAs[s.running.value] + ThrowsSinceIssue(events, k)
    decreases k
  {
    hide Step;
    hide Inv;
    if k > 0 {
      EveryRunIsSafe(events, k - 1, usable);
      ShapeOf(After(events, k - 1, usable));
      RunningLagsByThrows(events, k - 1, usable);
      LagAfterStep(After(events, k - 1, usable), events[k - 1], usable);
    }
  }

  lemma {:induction false} LagAfterStep(s: State, e: Event, usable: string -> bool)
    requires Enabled(s, e) && IssuedInOrder(s) && (s.running.Some? ==> s.running.value < |s.issuedAs|)
    ensures var t := Step(s, e, usable);
            t.running.Some? ==>
              && t.running.value < |t.issuedAs|
              && if e.Issue? then t.generation == t.issuedAs[t.running.value]
                 else t.running == s.running && t.issuedAs == s.issuedAs
                      && t.generation == s.generation + if e.IssueThrows? then 1 else 0
  {
  }

  /** A result is accepted only at its request's own check, only while the request is the newest, only if
      it was never cancelled before the child exited, and then exactly when it is an exit-0, usable output. */
  lemma {:induction false} AcceptedExactlyWhen(events: seq<Event>, k: nat, usable: string -> bool)
    requires k < |events| && Possible(events, k + 1, usable)
    ensures var s, t := After(events, k, usable), After(events, k + 1, usable);
            && (t.accepted != s.accepted <==>
                  && events[k].Resume?
                  && var p := s.processes[events[k].i];
                  && p.result.Resolved? && !p.cancelled && s.issuedAs[events[k].i] == s.generation
                  && p.result.code == 0 && usable(p.result.stdout))
            && (t.accepted != s.accepted ==>
                  t.accepted == s.accepted + [Accepted(s.generation, s.processes[events[k].i].result.stdout)])
  {
    EveryRunIsSafe(events, k, usable);
  }

  /** When the running process's await is over, in any run, it is forgotten exactly if its result was not
      rejected; a rejected one stays the running process until a request starts a process, or dispose. */
  lemma {:induction false} ForgottenExactlyWhen(events: seq<Event>, k: nat, usable: string -> bool, i: nat)
    requires k < |events| && Possible(events, k + 1, usable) && events[k] == Resume(i)
    requires After(events, k, usable).running == Some(i)
    ensures After(events, k + 1, usable).running.None? <==> !After(events, k, usable).processes[i].result.Rejected?
    ensures Step(After(events, k + 1, usable), Issue, usable).running != Some(i)
    ensures Step(After(events, k + 1, usable), Event.Dispose, usable).running.None?
  {
    EveryRunIsSafe(events, k, usable);
  }

  /** A run that gets there: a process fails to start, its request is over, and it is still the running one. */
  lemma {:induction false} RejectedStaysRunning(usable: string -> bool)
    ensures var run := [Issue, Error(0), Resume(0)];
            && Possible(run, 3, usable)
            && After(run, 3, usable).running == Some(0)
            && After(run, 3, usable).processes == [Process(false, false, Rejected)]
            && After(run, 3, usable).finished == [true]
  {
    var run := [Issue, Error(0), Resume(0)];
    assert Possible(run, 1, usable) && After(run, 1, usable) == State(1, Some(0), [SPAWNED], [1], [false], []);
    assert Possible(run, 2, usable);
    assert After(run, 2, usable) == State(1, Some(0), [Process(false, false, Rejected)], [1], [false], []);
    assert Possible(run, 3, usable);
  }

  /** A throwing spawn keeps the old process as the running one, of an older generation: told to stop
      unless it had exited. */
  lemma {:induction false} ThrownRequestKeepsOld(usable: string -> bool)
    ensures var run := [Issue, IssueThrows];
            && Possible(run, 2, usable)
            && After(run, 2, usable) == State(2, Some(0), [Process(false, true, Pending)], [1], [false], [])
  {
    var run := [Issue, IssueThrows];
    assert Possible(run, 1, usable) && After(run, 1, usable) == State(1, Some(0), [SPAWNED], [1], [false], []);
    assert Possible(run, 2, usable);
  }

  lemma {:induction false} StepKeepsPast(s: State, e: Event, usable: string -> bool, i: nat)
    requires Inv(s) && Enabled(s, e) && i < |s.issuedAs| && s.issuedAs[i] < s.generation
    ensures var t := Step(s, e, usable);
            && i < |t.issuedAs| && t.issuedAs[i] == s.issuedAs[i] && t.issuedAs[i] < t.generation
            && (WasAccepted(t, i) <==> WasAccepted(s, i))
  {
    var t := Step(s, e, usable);
    if a :| 0 <= a < |s.accepted| && s.accepted[a].generation == s.issuedAs[i] {
      assert t.accepted[a] == s.accepted[a];
    }
  }

  /** Once a newer request or a dispose has happened, an older request's result is never accepted again. */
  lemma {:induction false} SupersededIsNeverAccepted(events: seq<Event>, k: nat, m: nat, usable: string -> bool, i: nat)
    requires k <= m <= |events| && Possible(events, m, usable) && Possible(events, k, usable)
    requires i < |After(events, k, usable).issuedAs|
    requires After(events, k, usable).issuedAs[i] < After(events, k, usable).generation
    ensures i < |After(events, m, usable).issuedAs|
    ensures After(events, m, usable).issuedAs[i] == After(events, k, usable).issuedAs[i]
    ensures After(events, m, usable).issuedAs[i] < After(events, m, usable).generation
    ensures WasAccepted(After(events, m, usable), i) <==> WasAccepted(After(events, k, usable), i)
    decreases m
  {
    if k < m {
      SupersededIsNeverAccepted(events, k, m - 1, usable, i);
      EveryRunIsSafe(events, m - 1, usable);
      StepKeepsPast(After(events, m - 1, usable), events[m - 1], usable, i);
    }
  }

  /** Accepted generations strictly increase over every run. */
  lemma {:induction false} AcceptedGenerationsIncrease(events: seq<Event>, usable: string -> bool, a: nat, b: nat)
    requires Possible(events, |events|, usable) && a < b < |After(events, |events|, usable).accepted|
    ensures var accepted := After(events, |events|, usable).accepted;
            accepted[a].generation < accepted[b].generation
  {
    EveryRunIsSafe(events, |events|, usable);
  }

  // --- where accepted results come from ---

  /** The event that settles process i's promise, if nothing has before. */
  predicate Settles(e: Event, i: nat) {
    e == Error(i) || (e.Close? && e.i == i)
  }

  lemma {:induction false} StepKeepsTables(s: State, e: Event, usable: string -> bool, i: nat)
    requires Enabled(s, e) && |s.issuedAs| == |s.processes| && i < |s.processes|
    ensures var t := Step(s, e, usable);
            && |t.issuedAs| == |t.processes| >= |s.processes| && t.issuedAs[i] == s.issuedAs[i]
            && (s.processes[i].cancelled ==> t.processes[i].cancelled)
            && t.processes[i].result == if s.processes[i].result.Pending? && e == Error(i) then Rejected
                                        else if s.processes[i].result.Pending? && Settles(e, i)
                                        then Resolved(e.code, e.stdout, s.processes[i].cancelled)
                                        else s.processes[i].result
  {
  }

  lemma {:induction false} TablesGrow(events: seq<Event>, h: nat, k: nat, usable: string -> bool)
    requires h <= k <= |events| && Possible(events, k, usable)
    ensures Possible(events, h, usable)
    ensures |After(events, h, usable).processes| <= |After(events, k, usable).processes|
    decreases k
  {
    hide Step;
    if h < k {
      TablesGrow(events, h, k - 1, usable);
      EveryRunIsSafe(events, k - 1, usable);
      TableGrows(After(events, k - 1, usable), events[k - 1], usable);
    }
  }

  lemma {:induction false} TableGrows(s: State, e: Event, usable: string -> bool)
    requires Enabled(s, e)
    ensures |Step(s, e, usable).processes| == |s.processes| + if e == Issue then 1 else 0
    ensures e == Issue ==> Step(s, e, usable).processes[|s.processes|] == SPAWNED
  {
  }

  lemma {:induction false} PendingIsUnsettled(events: seq<Event>, k: nat, usable: string -> bool, i: nat)
    requires k <= |events| && Possible(events, k, usable) && i < |After(events, k, usable).processes|
    requires After(events, k, usable).processes[i].result.Pending?
    ensures forall h :: 0 <= h < k ==> !Settles(events[h], i)
    decreases k
  {
    hide Step;
    if k > 0 {
      var s := After(events, k - 1, usable);
      EveryRunIsSafe(events, k - 1, usable);
      TableGrows(s, events[k - 1], usable);
      if i < |s.processes| {
        StepKeepsTables(s, events[k - 1], usable, i);
        PendingIsUnsettled(events, k - 1, usable, i);
      } else {
        forall h | 0 <= h < k
          ensures !Settles(events[h], i)
        {
          TablesGrow(events, h + 1, k, usable);
          TablesGrow(events, h, k - 1, usable);
          assert Enabled(After(events, h, usable), events[h]);
        }
      }
    }
  }

  /** Step j is the first report on process i, and it is the close with this code and output. */
  ghost predicate ReportedAt(events: seq<Event>, k: nat, i: nat, j: nat, code: int, stdout: string)
    requires k <= |events|
  {
    && j < k && events[j] == Close(i, code, stdout)
    && forall h :: 0 <= h < j ==> !Settles(events[h], i)
  }

  lemma {:induction false} ResultWasReported(events: seq<Event>, k: nat, usable: string -> bool,
      i: nat) returns (j: nat)
    requires k <= |events| && Possible(events, k, usable) && i < |After(events, k, usable).processes|
    requires After(events, k, usable).processes[i].result.Resolved?
    ensures var r := After(events, k, usable).processes[i].result;
            ReportedAt(events, k, i, j, r.code, r.stdout)
    decreases k
  {
    hide Step;
    var s, e := After(events, k - 1, usable), events[k - 1];
    EveryRunIsSafe(events, k - 1, usable);
    TableGrows(s, e, usable);
    assert i < |s.processes|;
    StepKeepsTables(s, e, usable, i);
    if s.processes[i].result.Pending? {
      PendingIsUnsettled(events, k - 1, usable, i);
      j := k - 1;
    } else {
      j := ResultWasReported(events, k - 1, usable, i);
    }
  }

  /** In every run, each accepted result is the output with which its request's process closed, as the first
      report on it, with exit code 0. */
  lemma {:induction false} AcceptedWasReported(events: seq<Event>, k: nat, usable: string -> bool,
      a: nat) returns (i: nat, j: nat)
    requires k <= |events| && Possible(events, k, usable) && a < |After(events, k, usable).accepted|
    ensures var s := After(events, k, usable);
            && i < |s.issuedAs| == |s.processes| && s.issuedAs[i] == s.accepted[a].generation
            && ReportedAt(events, k, i, j, 0, s.accepted[a].stdout) && usable(s.accepted[a].stdout)
    decreases k
  {
    hide Step;
    hide ReportedAt;
    hide Settles;
    hide Inv;
    var s, e := After(events, k - 1, usable), events[k - 1];
    EveryRunIsSafe(events, k - 1, usable);
    ShapeOf(s);
    AcceptedExactlyWhen(events, k - 1, usable);
    if a < |s.accepted| {
      i, j := AcceptedWasReported(events, k - 1, usable, a);
      AcceptedStays(s, e, usable, a);
    } else {
      i := e.i;
      j := ResultWasReported(events, k - 1, usable, i);
    }
    StepKeepsTables(s, e, usable, i);
    ReportedEarlier(events, k, i, j, 0, After(events, k, usable).accepted[a].stdout);
  }

  lemma {:induction false} ReportedEarlier(events: seq<Event>, k: nat, i: nat, j: nat, code: int, stdout: string)
    requires 0 < k <= |events| && ReportedAt(events, k - 1, i, j, code, stdout)
    ensures ReportedAt(events, k, i, j, code, stdout)
  {
  }

  lemma {:induction false} AcceptedStays(s: State, e: Event, usable: string -> bool, a: nat)
    requires Enabled(s, e) && a < |s.accepted|
    ensures a < |Step(s, e, usable).accepted| && Step(s, e, usable).accepted[a] == s.accepted[a]
  {
  }

  /** What an accepted request's process looks like ever after. */
  ghost predicate AcceptedRanThrough(s: State) {
    |s.issuedAs| == |s.processes| &&
    forall i :: 0 <= i < |s.issuedAs| && WasAccepted(s, i) ==>
      s.processes[i].result.Resolved? && s.processes[i].result.code == 0 && !s.processes[i].result.cancelled
  }

  lemma {:induction false} StepKeepsRanThrough(s: State, e: Event, usable: string -> bool)
    requires Inv(s) && AcceptedRanThrough(s) && Enabled(s, e)
    ensures AcceptedRanThrough(Step(s, e, usable))
  {
    hide Inv;
    assert IssuedInOrder(s) by { ShapeOf(s); }
    var t := Step(s, e, usable);
    TableGrows(s, e, usable);
    forall i | 0 <= i < |t.issuedAs| && WasAccepted(t, i)
      ensures t.processes[i].result.Resolved? && t.processes[i].result.code == 0 && !t.processes[i].result.cancelled
    {
      var a :| 0 <= a < |t.accepted| && t.accepted[a].generation == t.issuedAs[i];
      AcceptedKnows(s, e, usable, i, a);
      StepKeepsTables(s, e, usable, i);
    }
  }

  lemma {:induction false} ShapeOf(s: State)
    requires Inv(s)
    ensures IssuedInOrder(s) && AcceptedInOrder(s)
  {
  }

  lemma {:induction false} AcceptedKnows(s: State, e: Event, usable: string -> bool, i: nat, a: nat)
    requires Inv(s) && AcceptedRanThrough(s) && Enabled(s, e)
    requires var t := Step(s, e, usable);
             i < |t.issuedAs| && a < |t.accepted| && t.accepted[a].generation == t.issuedAs[i]
    ensures i < |s.processes|
    ensures s.processes[i].result.Resolved? && s.processes[i].result.code == 0 && !s.processes[i].result.cancelled
  {
    if a < |s.accepted| {
      assert i < |s.issuedAs| ==> WasAccepted(s, i);
    } else {
      assert s.issuedAs[e.i] == s.issuedAs[i];
    }
  }

  lemma {:induction false} AcceptedRunThrough(events: seq<Event>, k: nat, usable: string -> bool)
    requires k <= |events| && Possible(events, k, usable)
    ensures AcceptedRanThrough(After(events, k, usable))
    decreases k
  {
    hide Step;
    if k > 0 {
      AcceptedRunThrough(events, k - 1, usable);
      EveryRunIsSafe(events, k - 1, usable);
      StepKeepsRanThrough(After(events, k - 1, usable), events[k - 1], usable);
    }
  }

  lemma {:induction false} CancelledStays(events: seq<Event>, k: nat, m: nat, usable: string -> bool, i: nat)
    requires k <= m <= |events| && Possible(events, m, usable) && Possible(events, k, usable)
    requires i < |After(events, k, usable).processes| && After(events, k, usable).processes[i].cancelled
    ensures i < |After(events, m, usable).processes| && After(events, m, usable).processes[i].cancelled
    decreases m
  {
    hide Step;
    if k < m {
      CancelledStays(events, k, m - 1, usable, i);
      EveryRunIsSafe(events, m - 1, usable);
      StepKeepsTables(After(events, m - 1, usable), events[m - 1], usable, i);
    }
  }

  /** Stopping a request by hand before its child has exited: at no later moment of the run is its result among
      the accepted ones, whatever the child still prints. */
  lemma {:induction false} StoppedIsNeverAccepted(events: seq<Event>, k: nat, m: nat, usable: string -> bool, i: nat)
    requires k < m <= |events| && Possible(events, m, usable) && Possible(events, k, usable)
    requires Possible(events, k + 1, usable) && events[k] == UserCancel(i)
    requires i < |After(events, k, usable).processes| && !After(events, k, usable).processes[i].exited
    ensures i < |After(events, m, usable).issuedAs| && !WasAccepted(After(events, m, usable), i)
  {
    CancelledStays(events, k + 1, m, usable, i);
    EveryRunIsSafe(events, m, usable);
    AcceptedRunThrough(events, m, usable);
  }
}
