/** The SIMD lane primitives the distribution step is written with, over unsigned lanes. */
module Lanes {
  import opened Words

  /** Occurrences of b among ids[lo..hi]. */
  function Occurrences(ids: seq<nat>, b: nat, lo: nat, hi: nat): (n: nat)
    requires lo <= hi <= |ids|
    ensures n <= hi - lo
    decreases hi
  {
    if lo == hi then 0
    else Occurrences(ids, b, lo, hi - 1) + if ids[hi - 1] == b then 1 else 0
  }

  lemma {:induction false} OccurrencesSplit(ids: seq<nat>, b: nat, lo: nat, mid: nat, hi: nat)
    requires lo <= mid <= hi <= |ids|
    ensures Occurrences(ids, b, lo, hi) == Occurrences(ids, b, lo, mid) + Occurrences(ids, b, mid, hi)
    decreases hi
  {
    if mid < hi { OccurrencesSplit(ids, b, lo, mid, hi - 1); }
  }

  lemma {:induction false} OccurrencesInSlice(ids: seq<nat>, b: nat, lo: nat, hi: nat, n: nat)
    requires lo <= hi <= |ids| && n <= hi - lo
    ensures Occurrences(ids[lo..hi], b, 0, n) == Occurrences(ids, b, lo, lo + n)
    decreases n
  {
    if n > 0 { OccurrencesInSlice(ids, b, lo, hi, n - 1); }
  }

  // --- conflict and its population count ---

  /** Lane i of conflict, after comparing the first k lanes: bit j is set when lane j holds the
      same value and j fits in the element width. */
  function ConflictMask(ids: seq<nat>, width: nat, i: nat, k: nat): nat
    requires k <= i < |ids|
    decreases k
  {
    if k == 0 then 0
    else ConflictMask(ids, width, i, k - 1)
         + if k - 1 < width && ids[i] == ids[k - 1] then Pow2(k - 1) else 0
  }

  /** popcnt(conflict(ids)) */
  function Rank(ids: seq<nat>, width: nat): (r: seq<nat>)
    ensures |r| == |ids|
  {
    seq(|ids|, i requires 0 <= i < |ids| => PopCount(ConflictMask(ids, width, i, i)))
  }

  lemma {:induction false} MaskCountsEarlierLanes(ids: seq<nat>, width: nat, i: nat, k: nat)
    requires k <= i < |ids|
    ensures ConflictMask(ids, width, i, k) < Pow2(k)
    ensures PopCount(ConflictMask(ids, width, i, k))
         == Occurrences(ids, ids[i], 0, if k <= width then k else width)
    decreases k
  {
    if k > 0 {
      MaskCountsEarlierLanes(ids, width, i, k - 1);
      if k - 1 < width && ids[i] == ids[k - 1] {
        PopCountOfHighBit(ConflictMask(ids, width, i, k - 1), k - 1);
      }
    }
  }

  /** Every lane's rank is the number of earlier lanes with its id. */
  ghost predicate RanksAreExact(ids: seq<nat>, width: nat) {
    forall i :: 0 <= i < |ids| ==> Rank(ids, width)[i] == Occurrences(ids, ids[i], 0, i)
  }

  lemma {:induction false} RankCountsEarlierLanes(ids: seq<nat>, width: nat)
    requires |ids| <= width + 1
    ensures RanksAreExact(ids, width)
  {
    forall i | 0 <= i < |ids|
      ensures Rank(ids, width)[i] == Occurrences(ids, ids[i], 0, i)
    {
      MaskCountsEarlierLanes(ids, width, i, i);
    }
  }

  lemma {:induction false} OccurrencesOfConstant(ids: seq<nat>, b: nat, n: nat)
    requires n <= |ids| && forall i :: 0 <= i < |ids| ==> ids[i] == b
    ensures Occurrences(ids, b, 0, n) == n
  {
    if n > 0 { OccurrencesOfConstant(ids, b, n - 1); }
  }

  /** The rank trick is right for every id pattern exactly when the register has at most one lane
      more than an element has bits. */
  lemma {:induction false} RankIsExactIff(lanes: nat, width: nat)
    ensures (forall ids: seq<nat> :: |ids| == lanes ==> RanksAreExact(ids, width)) <==> lanes <= width + 1
  {
    if lanes <= width + 1 {
      forall ids: seq<nat> | |ids| == lanes
        ensures RanksAreExact(ids, width)
      {
        RankCountsEarlierLanes(ids, width);
      }
    } else {
      var ids := seq(lanes, _ => 0);
      var i := width + 1;
      MaskCountsEarlierLanes(ids, width, i, i);
      OccurrencesOfConstant(ids, 0, width);
      OccurrencesOfConstant(ids, 0, i);
      assert Rank(ids, width)[i] != Occurrences(ids, ids[i], 0, i);
      assert !RanksAreExact(ids, width);
    }
  }

  // --- gather, add, scatter ---

  predicate AllBelow(addr: seq<nat>, size: nat) {
    forall l :: 0 <= l < |addr| ==> addr[l] < size
  }

  function Gather<T>(mem: seq<T>, addr: seq<nat>): (r: seq<T>)
    requires AllBelow(addr, |mem|)
    ensures |r| == |addr| && forall l :: 0 <= l < |r| ==> r[l] == mem[addr[l]]
  {
    seq(|addr|, l requires 0 <= l < |addr| => mem[addr[l]])
  }

  /** Lane-wise addition modulo 2^width. */
  function Add(u: seq<nat>, v: seq<nat>, modulus: nat): (r: seq<nat>)
    requires |u| == |v| && modulus > 0
    ensures |r| == |u| && forall l :: 0 <= l < |r| ==> r[l] == Wrap(u[l] + v[l], modulus)
  {
    seq(|u|, l requires 0 <= l < |u| => Wrap(u[l] + v[l], modulus))
  }

  /** The first k lanes of a scatter, in lane order: on equal addresses the highest lane wins. */
  function Scattered<T>(mem: seq<T>, addr: seq<nat>, vals: seq<T>, k: nat): (r: seq<T>)
    requires k <= |addr| == |vals|
    requires AllBelow(addr, |mem|)
    ensures |r| == |mem|
  {
    if k == 0 then mem else Scattered(mem, addr, vals, k - 1)[addr[k - 1] := vals[k - 1]]
  }

  method Scatter<T>(mem: array<T>, addr: seq<nat>, vals: seq<T>)
    requires |addr| == |vals|
    requires AllBelow(addr, mem.Length)
    modifies mem
    ensures mem[..] == Scattered(old(mem[..]), addr, vals, |addr|)
  {
    for l := 0 to |addr|
      invariant mem[..] == Scattered(old(mem[..]), addr, vals, l)
    {
      mem[addr[l]] := vals[l];
    }
  }
}
