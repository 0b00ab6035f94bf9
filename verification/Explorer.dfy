/** The explorer's refresh protocol: editors/vscode-tsl/src/explorer.ts, TslExplorer. */
module Explorer {

  import opened Wrappers

  /** The parts of a server response the explorer keeps. */
  datatype Response = Response(mode: string, profile: string, backend: string, primitives: seq<string>)

  /** What is shown: nothing, or the response applied for some request. */
  datatype Shown = Empty | Applied(generation: nat, response: Response)

  /** pending[i] is the generation request i was sent with; answered[i] that its reply has been handled.
      applied lists the generations whose responses were shown, in order. */
  datatype State = State(client: bool, generation: nat, fileScope: bool, hasFile: bool, shown: Shown,
                         mode: string, profile: string, backend: string, selected: Option<string>,
                         pending: seq<nat>, answered: seq<bool>, applied: seq<nat>)

  datatype Event =
    | SetClient(present: bool)
    | SetScope(file: bool)
    | SetFile(present: bool)
    | Select(name: string)
    | ChooseMode(mode: string)
    | ChooseProfile(profile: string)
    | ChooseBackend(backend: string)
    | Refresh
    | Reply(i: nat, response: Response)
    | Fail(i: nat)
    | Dispose

  predicate Enabled(s: State, e: Event) {
    match e
    case Reply(i, _) => i < |s.pending| == |s.answered| && !s.answered[i]
    case Fail(i) => i < |s.pending| == |s.answered| && !s.answered[i]
    case _ => true
  }

  /** refresh(), up to the await. Without a client nothing happens; in file scope without a file the view
      is emptied, but no new generation begins. */
  function Refreshed(s: State): State {
    if !s.client then s
    else if s.fileScope && !s.hasFile then s.(shown := Empty)
    else s.(generation := s.generation + 1, pending := s.pending + [s.generation + 1], answered := s.answered + [false])
  }

  function ApplyResponse(s: State, generation: nat, r: Response): State {
    s.(shown := Applied(generation, r), mode := r.mode,
       profile := if r.profile != "" then r.profile else s.profile, backend := r.backend,
       selected := if s.selected.Some? && s.selected.value in r.primitives then s.selected else None,
       applied := s.applied + [generation])
  }

  function Step(s: State, e: Event): State
    requires Enabled(s, e)
  {
    match e
    case SetClient(true) => Refreshed(s.(client := true))
    case SetClient(false) => s.(client := false, generation := s.generation + 1, shown := Empty)
    case SetScope(file) => s.(fileScope := file, selected := None)
    case SetFile(present) => s.(hasFile := present)
    case Select(name) => s.(selected := Some(name))
    case ChooseMode(mode) => s.(mode := mode)
    case ChooseProfile(profile) =>
      s.(mode := if profile != "" then "resolved" else "authored",
         profile := if profile != "" then profile else s.profile)
    case ChooseBackend(backend) => s.(backend := backend)
    case Refresh => Refreshed(s)
    case Reply(i, r) =>
      var t := s.(answered := s.answered[i := true]);
      if s.pending[i] == s.generation then ApplyResponse(t, s.generation, r) else t
    case Fail(i) => s.(answered := s.answered[i := true])
    case Dispose => s.(generation := s.generation + 1)
  }

  /** The explorer object. */
  class TslExplorer {
    var client: bool
    var generation: nat
    var fileScope: bool
    var hasFile: bool
    var shown: Shown
    var mode: string
    var profile: string
    var backend: string
    var selected: Option<string>
    var pending: seq<nat>
    var answered: seq<bool>
    ghost var applied: seq<nat>

    ghost function Abstract(): State
      reads this
    {
      State(client, generation, fileScope, hasFile, shown, mode, profile, backend, selected, pending, answered, applied)
    }

    method SendRequest()
      modifies this
      ensures Abstract() == Refreshed(old(Abstract()))
    {
      if !client {
        return;
      }
      if fileScope && !hasFile {
        shown := Empty;
        return;
      }
      generation := generation + 1;
      pending := pending + [generation];
      answered := answered + [false];
    }

    method SetClient(present: bool)
      modifies this
      ensures Abstract() == Step(old(Abstract()), Event.SetClient(present))
    {
      client := present;
      if present {
        SendRequest();
      } else {
        generation := generation + 1;
        shown := Empty;
      }
    }

    method Dispose()
      modifies this
      ensures Abstract() == Step(old(Abstract()), Event.Dispose)
    {
      generation := generation + 1;
    }

    /** A profile picked from the list, of which the empty one stands for the authored view of all; the
        refresh that follows is an event of its own. */
    method SelectProfile(picked: string)
      modifies this
      ensures Abstract() == Step(old(Abstract()), ChooseProfile(picked))
      ensures mode == if picked == "" then "authored" else "resolved"
      ensures profile == if picked == "" then old(profile) else picked
    {
      mode := if picked != "" then "resolved" else "authored";
      if picked != "" {
        profile := picked;
      }
    }

    /** refresh(), from the await on. */
    method HandleReply(i: nat, response: Response)
      requires Enabled(Abstract(), Reply(i, response))
      modifies this
      ensures Abstract() == Step(old(Abstract()), Reply(i, response))
    {
      answered := answered[i := true];
      if pending[i] != generation {
        return;
      }
      shown := Applied(generation, response);
      mode := response.mode;
      if response.profile != "" {
        profile := response.profile;
      }
      backend := response.backend;
      var selectedExists := selected.Some? && selected.value in response.primitives;
      if !selectedExists {
        selected := None;
      }
      applied := applied + [generation];
    }
  }

  // --- runs ---

  ghost predicate Fresh(s: State) {
    s.generation == 0 && s.pending == [] && s.answered == [] && s.applied == [] && s.shown == Empty
  }

  ghost predicate Possible(start: State, events: seq<Event>, k: nat)
    requires k <= |events|
    decreases k, 0
  {
    k == 0 || (Possible(start, events, k - 1) && Enabled(After(start, events, k - 1), events[k - 1]))
  }

  ghost function After(start: State, events: seq<Event>, k: nat): State
    requires k <= |events| && Possible(start, events, k)
    decreases k, 1
  {
    if k == 0 then start else Step(After(start, events, k - 1), events[k - 1])
  }

  ghost predicate WasApplied(s: State, generation: nat) { generation in s.applied }

  ghost predicate Inv(s: State) {
    && |s.pending| == |s.answered|
    && (forall i, j :: 0 <= i < j < |s.pending| ==> s.pending[i] < s.pending[j])
    && (forall i :: 0 <= i < |s.pending| ==> s.pending[i] <= s.generation)
    && (forall i :: 0 <= i < |s.pending| && !s.answered[i] ==> s.pending[i] !in s.applied)
    && (forall a :: 0 <= a < |s.applied| ==> s.applied[a] <= s.generation)
    && (forall a, b :: 0 <= a < b < |s.applied| ==> s.applied[a] < s.applied[b])
    && (s.shown.Applied? ==> |s.applied| > 0 && s.shown.generation == s.applied[|s.applied| - 1])
  }

  lemma {:induction false} ReplyKeepsInv(s: State, i: nat, r: Response)
    requires Inv(s) && Enabled(s, Reply(i, r)) && s.pending[i] == s.generation
    ensures Inv(Step(s, Reply(i, r)))
  {
    assert s.generation !in s.applied;
    forall a | 0 <= a < |s.applied|
      ensures s.applied[a] < s.generation
    {
      assert s.applied[a] in s.applied;
    }
  }

  lemma {:induction false} RefreshKeepsInv(s: State)
    requires Inv(s)
    ensures Inv(Refreshed(s))
  {
    assert s.generation + 1 !in s.applied;
  }

  lemma {:induction false} StepKeepsInv(s: State, e: Event)
    requires Inv(s) && Enabled(s, e)
    ensures Inv(Step(s, e))
  {
    hide Refreshed;
    hide ApplyResponse;
    match e {
      case Reply(i, r) => if s.pending[i] == s.generation { ReplyKeepsInv(s, i, r); }
      case Refresh => RefreshKeepsInv(s);
      case SetClient(present) => if present { RefreshKeepsInv(s.(client := true)); }
      case _ =>
    }
  }

  lemma {:induction false} EveryRunIsSafe(start: State, events: seq<Event>, k: nat)
    requires Fresh(start) && k <= |events| && Possible(start, events, k)
    ensures Inv(After(start, events, k))
    decreases k
  {
    if k > 0 {
      EveryRunIsSafe(start, events, k - 1);
      StepKeepsInv(After(start, events, k - 1), events[k - 1]);
    }
  }

  /** In every run the shown responses come from strictly newer and newer requests, and the one on view is
      the newest ever applied. */
  lemma {:induction false} AppliedGenerationsIncrease(start: State, events: seq<Event>)
    requires Fresh(start) && Possible(start, events, |events|)
    ensures var s := After(start, events, |events|);
            && (forall a, b :: 0 <= a < b < |s.applied| ==> s.applied[a] < s.applied[b])
            && (s.shown.Applied? ==> forall a :: 0 <= a < |s.applied| ==> s.applied[a] <= s.shown.generation)
  {
    EveryRunIsSafe(start, events, |events|);
  }

  lemma {:induction false} StepKeepsPast(s: State, e: Event, i: nat)
    requires Inv(s) && Enabled(s, e) && i < |s.pending| && s.pending[i] < s.generation
    ensures var t := Step(s, e);
            && i < |t.pending| && t.pending[i] == s.pending[i] < t.generation
            && (WasApplied(t, t.pending[i]) <==> WasApplied(s, s.pending[i]))
  {
  }

  /** A response is never applied once a newer request was sent, the client was taken away, or the explorer
      disposed: each of these starts a new generation. */
  lemma {:induction false} SupersededIsNeverApplied(start: State, events: seq<Event>, k: nat, m: nat, i: nat)
    requires Fresh(start) && k <= m <= |events| && Possible(start, events, k) && Possible(start, events, m)
    requires i < |After(start, events, k).pending|
    requires After(start, events, k).pending[i] < After(start, events, k).generation
    ensures i < |After(start, events, m).pending|
    ensures After(start, events, m).pending[i] == After(start, events, k).pending[i]
    ensures After(start, events, m).pending[i] < After(start, events, m).generation
    ensures WasApplied(After(start, events, m), After(start, events, m).pending[i])
       <==> WasApplied(After(start, events, k), After(start, events, k).pending[i])
    decreases m
  {
    if k < m {
      SupersededIsNeverApplied(start, events, k, m - 1, i);
      EveryRunIsSafe(start, events, m - 1);
      StepKeepsPast(After(start, events, m - 1), events[m - 1], i);
    }
  }

  /** The events that supersede every request so far. */
  predicate Supersedes(s: State, e: Event) {
    match e
    case SetClient(present) => !present || !(s.fileScope && !s.hasFile)
    case Refresh => s.client && !(s.fileScope && !s.hasFile)
    case Dispose => true
    case _ => false
  }

  lemma {:induction false} GenerationMovesExactlyWhen(s: State, e: Event)
    requires Enabled(s, e)
    ensures Step(s, e).generation == s.generation + (if Supersedes(s, e) then 1 else 0)
  {
  }

  // --- the view emptied by a refresh without a file ---

  /** The refresh in file scope without a file, which empties the view and starts no generation. */
  predicate Empties(s: State, e: Event) {
    match e
    case SetClient(present) => present && s.fileScope && !s.hasFile
    case Refresh => s.client && s.fileScope && !s.hasFile
    case _ => false
  }

  lemma {:induction false} EmptiesEmpties(s: State, e: Event)
    requires Enabled(s, e) && Empties(s, e)
    ensures Step(s, e).shown == Empty && Step(s, e).generation == s.generation
  {
  }

  predicate IsNewestReply(s: State, e: Event) {
    e.Reply? && e.i < |s.pending| && s.pending[e.i] == s.generation
  }

  /** After step k and before step m, nothing supersedes the requests so far and nothing empties the view again. */
  ghost predicate Undisturbed(start: State, events: seq<Event>, k: nat, m: nat)
    requires k < m <= |events| && Possible(start, events, m)
  {
    forall j :: k < j < m && Possible(start, events, j) ==>
      !Supersedes(After(start, events, j), events[j]) && !Empties(After(start, events, j), events[j])
  }

  ghost predicate NewestRepliesAt(start: State, events: seq<Event>, j: nat)
    requires j < |events|
  {
    Possible(start, events, j) && IsNewestReply(After(start, events, j), events[j])
  }

  ghost predicate NewestRepliesWith(start: State, events: seq<Event>, j: nat, r: Response)
    requires j < |events|
  {
    NewestRepliesAt(start, events, j) && events[j].Reply? && events[j].response == r
  }

  ghost predicate NewestHasReplied(start: State, events: seq<Event>, k: nat, m: nat)
    requires k < m <= |events|
  {
    exists j :: k < j < m && NewestRepliesAt(start, events, j)
  }

  lemma {:induction false} QuietStep(s: State, e: Event)
    requires Enabled(s, e) && !Supersedes(s, e) && !Empties(s, e)
    ensures Step(s, e).generation == s.generation
    ensures Step(s, e).shown == if IsNewestReply(s, e) then Applied(s.generation, e.response) else s.shown
  {
    GenerationMovesExactlyWhen(s, e);
  }

  /** After a refresh that empties the view, and until the next event that supersedes the requests or empties
      the view again, the view is non-empty exactly from the newest request's reply on, and shows that reply:
      in every run, from any start, a request still outstanding at the refresh overwrites the emptied view, and
      nothing else does. */
  lemma {:induction false} EmptiedViewIsOverwrittenIff(start: State, events: seq<Event>, k: nat, m: nat)
    requires k < m <= |events| && Possible(start, events, m) && Possible(start, events, k)
    requires Empties(After(start, events, k), events[k]) && Undisturbed(start, events, k, m)
    ensures After(start, events, m).generation == After(start, events, k).generation
    ensures After(start, events, m).shown != Empty <==> NewestHasReplied(start, events, k, m)
    ensures After(start, events, m).shown.Applied? ==>
              && After(start, events, m).shown.generation == After(start, events, k).generation
              && exists j :: k < j < m && NewestRepliesWith(start, events, j, After(start, events, m).shown.response)
    decreases m
  {
    hide Step;
    hide Supersedes;
    hide Empties;
    if m == k + 1 {
      EmptiesEmpties(After(start, events, k), events[k]);
    } else {
      EmptiedViewIsOverwrittenIff(start, events, k, m - 1);
      QuietStep(After(start, events, m - 1), events[m - 1]);
      OneStepLater(start, events, k, m);
      if NewestRepliesAt(start, events, m - 1) {
        assert NewestRepliesWith(start, events, m - 1, events[m - 1].response);
      }
    }
  }

  lemma {:induction false} OneStepLater(start: State, events: seq<Event>, k: nat, m: nat)
    requires k + 1 < m <= |events|
    ensures NewestHasReplied(start, events, k, m)
       <==> NewestHasReplied(start, events, k, m - 1) || NewestRepliesAt(start, events, m - 1)
  {
  }

  /** A run in which that happens: a request is sent in corpus scope, the scope becomes a file that is not there,
      the refresh empties the view, and the late reply fills it. */
  lemma {:induction false} LateReplyFillsEmptiedView(start: State, r: Response)
    requires Fresh(start) && !start.fileScope && !start.hasFile
    ensures var run := [SetClient(true), SetScope(true), Refresh, Reply(0, r)];
            && Possible(start, run, 4) && Possible(start, run, 3) && Possible(start, run, 2)
            && Empties(After(start, run, 2), Refresh)
            && After(start, run, 3).shown == Empty
            && After(start, run, 4).shown == Applied(1, r)
  {
    var run := [SetClient(true), SetScope(true), Refresh, Reply(0, r)];
    assert Possible(start, run, 1);
    var s1 := After(start, run, 1);
    assert s1.client && s1.generation == 1 && s1.pending == [1] && s1.answered == [false] && !s1.hasFile;
    assert Possible(start, run, 2);
    var s2 := After(start, run, 2);
    assert s2 == s1.(fileScope := true, selected := None);
    assert Possible(start, run, 3);
    assert After(start, run, 3) == s2.(shown := Empty);
    assert Possible(start, run, 4);
  }

  // --- what the last applied reply leaves behind ---

  /** Nothing is chosen or selected by hand after step k and before step m, and no reply is applied. */
  ghost predicate LeftAlone(start: State, events: seq<Event>, k: nat, m: nat)
    requires k < m <= |events|
  {
    forall j :: k < j < m ==>
      && !NewestRepliesAt(start, events, j)
      && !(events[j].Select? || events[j].ChooseMode? || events[j].ChooseProfile? || events[j].ChooseBackend?)
  }

  ghost predicate ScopeChanged(events: seq<Event>, k: nat, m: nat)
    requires k < m <= |events|
  {
    exists j :: k < j < m && events[j].SetScope?
  }

  lemma {:induction false} ScopeOneStepLater(events: seq<Event>, k: nat, m: nat)
    requires k + 1 < m <= |events|
    ensures ScopeChanged(events, k, m) <==> ScopeChanged(events, k, m - 1) || events[m - 1].SetScope?
  {
  }

  lemma {:induction false} OtherStepsKeepChoices(s: State, e: Event)
    requires Enabled(s, e) && !IsNewestReply(s, e)
    requires !(e.Select? || e.ChooseMode? || e.ChooseProfile? || e.ChooseBackend?)
    ensures var t := Step(s, e);
            && t.mode == s.mode && t.profile == s.profile && t.backend == s.backend
            && t.selected == (if e.SetScope? then None else s.selected)
            && (t.shown == s.shown || t.shown == Empty)
  {
  }

  lemma {:induction false} NewestReplyChooses(s: State, e: Event)
    requires Enabled(s, e) && IsNewestReply(s, e)
    ensures var t, r := Step(s, e), e.response;
            && t.mode == r.mode && t.backend == r.backend
            && t.profile == (if r.profile == "" then s.profile else r.profile)
            && t.selected == (if s.selected.Some? && s.selected.value in r.primitives then s.selected else None)
            && t.shown == Applied(s.generation, r)
  {
  }

  /** In every run, after an applied reply and until something is chosen by hand or another reply is applied:
      mode and backend are the reply's; so is the profile, unless the reply names none and the old one stays;
      the selection is the one there was when the reply came if the reply lists it and the scope has not changed,
      and otherwise there is none; and the view shows that reply or has been emptied. */
  lemma {:induction false} LastReplySettles(start: State, events: seq<Event>, k: nat, m: nat, r: Response)
    requires k < m <= |events| && Possible(start, events, m) && NewestRepliesWith(start, events, k, r)
    requires LeftAlone(start, events, k, m)
    ensures var before, s := After(start, events, k), After(start, events, m);
            && s.mode == r.mode && s.backend == r.backend
            && s.profile == (if r.profile == "" then before.profile else r.profile)
            && s.selected == (if before.selected.Some? && before.selected.value in r.primitives
                                 && !ScopeChanged(events, k, m)
                              then before.selected else None)
            && (s.shown == Applied(before.generation, r) || s.shown == Empty)
    decreases m
  {
    hide Step;
    if m == k + 1 {
      NewestReplyChooses(After(start, events, k), events[k]);
    } else {
      LastReplySettles(start, events, k, m - 1, r);
      assert !NewestRepliesAt(start, events, m - 1);
      OtherStepsKeepChoices(After(start, events, m - 1), events[m - 1]);
      ScopeOneStepLater(events, k, m);
    }
  }

  // --- the view after the client is gone ---

  /** No request outstanding or answered is of the current generation. */
  ghost predicate AllSuperseded(s: State) {
    forall i :: 0 <= i < |s.pending| ==> s.pending[i] < s.generation
  }

  lemma {:induction false} StaysEmptied(s: State, e: Event)
    requires Enabled(s, e) && !s.client && s.shown == Empty && AllSuperseded(s) && e != SetClient(true)
    ensures var t := Step(s, e);
            !t.client && t.shown == Empty && AllSuperseded(t)
  {
  }

  /** In every run the view is empty from the client's removal until a client is set again: no late reply, and
      no refresh, shows anything in between. */
  lemma {:induction false} RemovalEmptiesView(start: State, events: seq<Event>, k: nat, m: nat)
    requires Fresh(start) && k < m <= |events| && Possible(start, events, m) && Possible(start, events, k)
    requires events[k] == SetClient(false)
    requires forall j :: k < j < m ==> events[j] != SetClient(true)
    ensures After(start, events, m).shown == Empty && !After(start, events, m).client
    ensures AllSuperseded(After(start, events, m))
    decreases m
  {
    hide Refreshed;
    if m == k + 1 {
      EveryRunIsSafe(start, events, k);
    } else {
      RemovalEmptiesView(start, events, k, m - 1);
      StaysEmptied(After(start, events, m - 1), events[m - 1]);
    }
  }
}
