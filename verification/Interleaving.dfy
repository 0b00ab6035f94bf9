/** Threads that write disjoint regions of shared memory: whatever the interleaving of their single
    writes, memory is determined by how far each thread has got. */
module Interleaving {

  /** One store to a shared output column. */
  datatype Write<T> = Write(toKeys: bool, at: nat, value: T)

  /** The two shared output columns. */
  datatype Memory<T> = Memory(keys: seq<T>, idx: seq<T>) {
    predicate Sized(size: nat) { |keys| == |idx| == size }
  }

  ghost predicate Fits<T>(trace: seq<Write<T>>, lo: nat, hi: nat) {
    forall k :: 0 <= k < |trace| ==> lo <= trace[k].at < hi
  }

  function Apply<T>(m: Memory<T>, w: Write<T>): (r: Memory<T>)
    requires m.Sized(|m.keys|) && w.at < |m.keys|
    ensures r.Sized(|m.keys|)
  {
    if w.toKeys then m.(keys := m.keys[w.at := w.value]) else m.(idx := m.idx[w.at := w.value])
  }

  /** Memory after the first k writes of a trace. */
  function ApplyFirst<T>(m: Memory<T>, trace: seq<Write<T>>, k: nat): (r: Memory<T>)
    requires m.Sized(|m.keys|) && k <= |trace| && Fits(trace, 0, |m.keys|)
    ensures r.Sized(|m.keys|)
    decreases k
  {
    if k == 0 then m else Apply(ApplyFirst(m, trace, k - 1), trace[k - 1])
  }

  lemma {:induction false} ApplyConcat<T>(m: Memory<T>, a: seq<Write<T>>, b: seq<Write<T>>, k: nat)
    requires m.Sized(|m.keys|) && k <= |b| && Fits(a, 0, |m.keys|) && Fits(b, 0, |m.keys|)
    ensures Fits(a + b, 0, |m.keys|)
    ensures ApplyFirst(m, a + b, |a| + k) == ApplyFirst(ApplyFirst(m, a, |a|), b, k)
    decreases k
  {
    if k > 0 {
      ApplyConcat(m, a, b, k - 1);
      assert (a + b)[|a| + k - 1] == b[k - 1];
    } else {
      ApplyPrefix(m, a, b, |a|);
    }
  }

  lemma {:induction false} ApplyPrefix<T>(m: Memory<T>, a: seq<Write<T>>, b: seq<Write<T>>, k: nat)
    requires m.Sized(|m.keys|) && k <= |a| && Fits(a, 0, |m.keys|) && Fits(b, 0, |m.keys|)
    ensures Fits(a + b, 0, |m.keys|)
    ensures ApplyFirst(m, a + b, k) == ApplyFirst(m, a, k)
    decreases k
  {
    if k > 0 {
      ApplyPrefix(m, a, b, k - 1);
      assert (a + b)[k - 1] == a[k - 1];
    }
  }

  // --- schedules ---

  /** traces[t] is thread t's writes in program order; done[t] of them have happened. */
  datatype State<T> = State(memory: Memory<T>, done: seq<nat>)

  datatype Program<T> = Program(start: Memory<T>, traces: seq<seq<Write<T>>>, regions: seq<(nat, nat)>) {
    predicate OwnsAddress(t: nat, a: nat)
      requires t < |regions|
    {
      regions[t].0 <= a < regions[t].1
    }

    /** Every thread writes only its own region, and no address is in two regions. */
    ghost predicate Confined() {
      && start.Sized(|start.keys|)
      && |traces| == |regions|
      && (forall t :: 0 <= t < |traces| ==> Fits(traces[t], regions[t].0, regions[t].1))
      && (forall t :: 0 <= t < |traces| ==> regions[t].1 <= |start.keys|)
      && (forall t, u, a :: 0 <= t < |traces| && 0 <= u < |traces| && OwnsAddress(t, a) && OwnsAddress(u, a) ==> t == u)
    }

    ghost predicate Valid(s: State<T>) {
      && s.memory.Sized(|start.keys|)
      && |s.done| == |traces|
      && forall t :: 0 <= t < |traces| ==> s.done[t] <= |traces[t]|
    }

    function Initial(): State<T> {
      State(start, Zeros(|traces|))
    }

    /** Thread t performs its next write, if it has one left. */
    function Step(s: State<T>, t: nat): (r: State<T>)
      requires Confined() && Valid(s) && t < |traces|
      ensures Valid(r)
    {
      if s.done[t] == |traces[t]| then s
      else State(Apply(s.memory, traces[t][s.done[t]]), s.done[t := s.done[t] + 1])
    }

    ghost predicate NamesThreads(schedule: seq<nat>) {
      forall k :: 0 <= k < |schedule| ==> schedule[k] < |traces|
    }

    /** The state after the first n entries of a schedule. */
    function After(schedule: seq<nat>, n: nat): (s: State<T>)
      requires Confined() && NamesThreads(schedule) && n <= |schedule|
      ensures Valid(s)
      decreases n
    {
      if n == 0 then Initial() else Step(After(schedule, n - 1), schedule[n - 1])
    }

    /** What thread t alone would have left after its first k writes. */
    function Solo(t: nat, k: nat): (m: Memory<T>)
      requires Confined() && t < |traces| && k <= |traces[t]|
      ensures m.Sized(|start.keys|)
    {
      assert Fits(traces[t], 0, |start.keys|);
      ApplyFirst(start, traces[t], k)
    }

    ghost predicate SoloAgrees(s: State<T>, t: nat, a: nat)
      requires Confined() && Valid(s) && t < |traces| && a < |start.keys|
    {
      s.memory.keys[a] == Solo(t, s.done[t]).keys[a] && s.memory.idx[a] == Solo(t, s.done[t]).idx[a]
    }
  }

  function Zeros(n: nat): (z: seq<nat>)
    ensures |z| == n && forall k {:trigger z[k]} :: 0 <= k < n ==> z[k] == 0
  {
    if n == 0 then [] else Zeros(n - 1) + [0]
  }

  /** At every moment of every interleaving, a region holds what its own thread's writes so far put there. */
  lemma {:induction false} RegionsEvolveAlone<T>(p: Program<T>, schedule: seq<nat>, n: nat, t: nat, a: nat)
    requires p.Confined() && p.NamesThreads(schedule) && n <= |schedule|
    requires t < |p.traces| && p.OwnsAddress(t, a)
    ensures p.SoloAgrees(p.After(schedule, n), t, a)
    decreases n
  {
    if n > 0 {
      RegionsEvolveAlone(p, schedule, n - 1, t, a);
      var s, u := p.After(schedule, n - 1), schedule[n - 1];
      if s.done[u] < |p.traces[u]| {
        assert p.OwnsAddress(u, p.traces[u][s.done[u]].at);
      }
    }
  }

  /** Addresses outside every region are never touched. */
  lemma {:induction false} OutsideIsUntouched<T>(p: Program<T>, schedule: seq<nat>, n: nat, a: nat)
    requires p.Confined() && p.NamesThreads(schedule) && n <= |schedule| && a < |p.start.keys|
    requires forall t :: 0 <= t < |p.traces| ==> !p.OwnsAddress(t, a)
    ensures p.After(schedule, n).memory.keys[a] == p.start.keys[a]
    ensures p.After(schedule, n).memory.idx[a] == p.start.idx[a]
    decreases n
  {
    if n > 0 {
      OutsideIsUntouched(p, schedule, n - 1, a);
      var s, u := p.After(schedule, n - 1), schedule[n - 1];
      if s.done[u] < |p.traces[u]| {
        assert p.OwnsAddress(u, p.traces[u][s.done[u]].at);
      }
    }
  }

  /** Two interleavings that bring every thread equally far leave the same memory. */
  lemma {:induction false} MemoryIsDeterminedByProgress<T>(p: Program<T>, s1: seq<nat>, s2: seq<nat>)
    requires p.Confined() && p.NamesThreads(s1) && p.NamesThreads(s2)
    requires p.After(s1, |s1|).done == p.After(s2, |s2|).done
    ensures p.After(s1, |s1|).memory == p.After(s2, |s2|).memory
  {
    var m1, m2 := p.After(s1, |s1|).memory, p.After(s2, |s2|).memory;
    forall a | 0 <= a < |p.start.keys|
      ensures m1.keys[a] == m2.keys[a] && m1.idx[a] == m2.idx[a]
    {
      if t :| 0 <= t < |p.traces| && p.OwnsAddress(t, a) {
        RegionsEvolveAlone(p, s1, |s1|, t, a);
        RegionsEvolveAlone(p, s2, |s2|, t, a);
      } else {
        OutsideIsUntouched(p, s1, |s1|, a);
        OutsideIsUntouched(p, s2, |s2|, a);
      }
    }
  }

  /** Every thread has performed all its writes. */
  ghost predicate Complete<T>(p: Program<T>, s: State<T>)
    requires p.Valid(s)
  {
    forall t :: 0 <= t < |p.traces| ==> s.done[t] == |p.traces[t]|
  }
}
