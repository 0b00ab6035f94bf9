/** One chunk's bucket distribution: test-sort/benchmarks/bench_samplesort_streams.cpp, distribute. */
module Distribute {
  import opened Words
  import opened Lanes

  /** The read-only input columns. */
  datatype Rows<T> = Rows(keys: seq<T>, idx: seq<T>, ids: seq<nat>) {
    predicate Covers(lo: nat, hi: nat) {
      lo <= hi <= |ids| && hi <= |keys| && hi <= |idx|
    }
  }

  /** Everything a distribution writes. */
  datatype Store<T> = Store(keys: seq<T>, idx: seq<T>, cursors: seq<nat>)

  // --- where each row goes, in closed form ---

  /** The cursors after rows lo..hi: bucket b has moved by its number of rows. */
  function Advanced(cursors: seq<nat>, ids: seq<nat>, modulus: nat, lo: nat, hi: nat): (r: seq<nat>)
    requires lo <= hi <= |ids| && modulus > 0
    ensures |r| == |cursors|
    ensures forall b {:trigger r[b]} :: 0 <= b < |cursors| ==>
              r[b] == Wrap(cursors[b] + Occurrences(ids, b, lo, hi), modulus)
  {
    FirstAdvanced(cursors, ids, modulus, lo, hi, |cursors|)
  }

  function FirstAdvanced(cursors: seq<nat>, ids: seq<nat>, modulus: nat, lo: nat, hi: nat, n: nat): (r: seq<nat>)
    requires lo <= hi <= |ids| && modulus > 0 && n <= |cursors|
    ensures |r| == n
    ensures forall b {:trigger r[b]} :: 0 <= b < n ==> r[b] == Wrap(cursors[b] + Occurrences(ids, b, lo, hi), modulus)
    decreases n
  {
    if n == 0 then []
    else FirstAdvanced(cursors, ids, modulus, lo, hi, n - 1)
         + [Wrap(cursors[n - 1] + Occurrences(ids, n - 1, lo, hi), modulus)]
  }

  /** The address row i is written to when the chunk starts at lo. */
  function Slot(cursors: seq<nat>, ids: seq<nat>, modulus: nat, lo: nat, i: nat): nat
    requires lo <= i < |ids| && ids[i] < |cursors| && modulus > 0
  {
    Wrap(cursors[ids[i]] + Occurrences(ids, ids[i], lo, i), modulus)
  }

  /** What the code asks of its caller: ids name buckets, and the addresses lie in the output. */
  ghost predicate InBounds(size: nat, cursors: seq<nat>, ids: seq<nat>, modulus: nat, lo: nat, hi: nat)
    requires lo <= hi <= |ids| && modulus > 0
  {
    && (forall b :: 0 <= b < |cursors| ==> cursors[b] < modulus)
    && (forall i :: lo <= i < hi ==> ids[i] < |cursors|)
    && (forall i :: lo <= i < hi ==> Slot(cursors, ids, modulus, lo, i) < size)
  }

  /** Output column after rows lo..hi were written to their slots in row order. */
  function Written<T>(out: seq<T>, vals: seq<T>, cursors: seq<nat>, ids: seq<nat>, modulus: nat, lo: nat,
      hi: nat): (r: seq<T>)
    requires lo <= hi <= |ids| && hi <= |vals| && modulus > 0
    requires InBounds(|out|, cursors, ids, modulus, lo, hi)
    ensures |r| == |out|
    decreases hi
  {
    if lo == hi then out
    else Written(out, vals, cursors, ids, modulus, lo, hi - 1)[Slot(cursors, ids, modulus, lo, hi - 1) := vals[hi - 1]]
  }

  // --- the reference: the scalar tail loop, over the whole chunk ---

  function ScalarStep<T>(s: Store<T>, rows: Rows<T>, withIndex: bool, modulus: nat, i: nat): Store<T>
    requires rows.Covers(i, i + 1) && modulus > 0
    requires rows.ids[i] < |s.cursors| && s.cursors[rows.ids[i]] < |s.keys| == |s.idx|
  {
    var bucket := rows.ids[i];
    var at := s.cursors[bucket];
    Store(s.keys[at := rows.keys[i]],
          if withIndex then s.idx[at := rows.idx[i]] else s.idx,
          s.cursors[bucket := Wrap(at + 1, modulus)])
  }

  function ScalarRun<T>(s: Store<T>, rows: Rows<T>, withIndex: bool, modulus: nat, lo: nat, hi: nat): (r: Store<T>)
    requires rows.Covers(lo, hi) && modulus > 0 && |s.keys| == |s.idx|
    requires InBounds(|s.keys|, s.cursors, rows.ids, modulus, lo, hi)
    ensures r.cursors == Advanced(s.cursors, rows.ids, modulus, lo, hi)
    ensures |r.keys| == |r.idx| == |s.keys|
    decreases hi
  {
    if lo == hi then
      AdvancedByNothing(s.cursors, rows.ids, modulus, lo);
      s
    else
      var before := ScalarRun(s, rows, withIndex, modulus, lo, hi - 1);
      AdvancedByOne(s.cursors, rows.ids, modulus, lo, hi - 1);
      ScalarStep(before, rows, withIndex, modulus, hi - 1)
  }

  /** The reference run writes every row to its slot. */
  lemma {:induction false} ScalarRunWrites<T>(s: Store<T>, rows: Rows<T>, withIndex: bool, modulus: nat, lo: nat,
      hi: nat)
    requires rows.Covers(lo, hi) && modulus > 0 && |s.keys| == |s.idx|
    requires InBounds(|s.keys|, s.cursors, rows.ids, modulus, lo, hi)
    ensures ScalarRun(s, rows, withIndex, modulus, lo, hi)
         == Store(Written(s.keys, rows.keys, s.cursors, rows.ids, modulus, lo, hi),
                  if withIndex then Written(s.idx, rows.idx, s.cursors, rows.ids, modulus, lo, hi) else s.idx,
                  Advanced(s.cursors, rows.ids, modulus, lo, hi))
    decreases hi
  {
    if lo < hi {
      ScalarRunWrites(s, rows, withIndex, modulus, lo, hi - 1);
      AdvancedByOne(s.cursors, rows.ids, modulus, lo, hi - 1);
    }
  }

  lemma {:induction false} AdvancedByNothing(cursors: seq<nat>, ids: seq<nat>, modulus: nat, lo: nat)
    requires lo <= |ids| && modulus > 0
    requires forall b :: 0 <= b < |cursors| ==> cursors[b] < modulus
    ensures Advanced(cursors, ids, modulus, lo, lo) == cursors
  {
  }

  /** One row later, only its bucket's cursor has moved: by one past the slot the row was given. */
  lemma {:induction false} AdvancedByOne(cursors: seq<nat>, ids: seq<nat>, modulus: nat, lo: nat, i: nat)
    requires lo <= i < |ids| && ids[i] < |cursors| && modulus > 0
    ensures Advanced(cursors, ids, modulus, lo, i)[ids[i]] == Slot(cursors, ids, modulus, lo, i)
    ensures Advanced(cursors, ids, modulus, lo, i + 1)
         == Advanced(cursors, ids, modulus, lo, i)[ids[i] := Wrap(Slot(cursors, ids, modulus, lo, i) + 1, modulus)]
  {
    WrapAdds(cursors[ids[i]] + Occurrences(ids, ids[i], lo, i), 1, modulus);
  }

  // --- one vector block against `lanes` scalar steps ---

  /** The rank of lane l counts the rows of its bucket between the block's start and its own row. */
  lemma {:induction false} LaneRank(ids: seq<nat>, i: nat, lanes: nat, width: nat, l: nat)
    requires i + lanes <= |ids| && l < lanes <= width + 1
    ensures Rank(ids[i..i + lanes], width)[l] == Occurrences(ids, ids[i + l], i, i + l)
  {
    var lane := ids[i..i + lanes];
    RankCountsEarlierLanes(lane, width);
    assert lane[l] == ids[i + l];
    OccurrencesInSlice(ids, ids[i + l], i, i + lanes, l);
  }

  /** cursor + rank is the slot of each lane's row. */
  lemma {:induction false} LaneAddress(cursors: seq<nat>, ids: seq<nat>, modulus: nat, lo: nat, i: nat, lanes: nat,
      width: nat, l: nat)
    requires lo <= i && i + lanes <= |ids| && l < lanes <= width + 1 && modulus > 0
    requires ids[i + l] < |cursors|
    ensures Wrap(Advanced(cursors, ids, modulus, lo, i)[ids[i + l]] + Rank(ids[i..i + lanes], width)[l], modulus)
         == Slot(cursors, ids, modulus, lo, i + l)
  {
    var id := ids[i + l];
    LaneRank(ids, i, lanes, width, l);
    OccurrencesSplit(ids, id, lo, i, i + l);
    WrapAdds(cursors[id] + Occurrences(ids, id, lo, i), Occurrences(ids, id, i, i + l), modulus);
  }

  /** The first k lanes of the two output scatters do what k scalar steps do. */
  lemma {:induction false} ScatterIsScalarWrites<T>(
    out: seq<T>, vals: seq<T>, cursors: seq<nat>, ids: seq<nat>, modulus: nat,
    lo: nat, i: nat, lanes: nat, addr: seq<nat>, k: nat)
    requires lo <= i && i + lanes <= |ids| && i + lanes <= |vals| && modulus > 0 && k <= lanes == |addr|
    requires InBounds(|out|, cursors, ids, modulus, lo, i + lanes)
    requires forall l :: 0 <= l < lanes ==> addr[l] == Slot(cursors, ids, modulus, lo, i + l)
    ensures Scattered(Written(out, vals, cursors, ids, modulus, lo, i), addr, vals[i..i + lanes], k)
         == Written(out, vals, cursors, ids, modulus, lo, i + k)
    decreases k
  {
    if k > 0 {
      ScatterIsScalarWrites(out, vals, cursors, ids, modulus, lo, i, lanes, addr, k - 1);
    }
  }

  /** The first k lanes of the cursor scatter do too: the last lane of each bucket wins. */
  lemma {:induction false} ScatterIsScalarAdvance(
    cursors: seq<nat>, ids: seq<nat>, modulus: nat, lo: nat, i: nat, lanes: nat, next: seq<nat>, k: nat)
    requires lo <= i && i + lanes <= |ids| && modulus > 0 && k <= lanes == |next|
    requires forall l :: i <= l < i + lanes ==> ids[l] < |cursors|
    requires forall l :: 0 <= l < lanes ==> next[l] == Wrap(Slot(cursors, ids, modulus, lo, i + l) + 1, modulus)
    ensures Scattered(Advanced(cursors, ids, modulus, lo, i), ids[i..i + lanes], next, k)
         == Advanced(cursors, ids, modulus, lo, i + k)
    decreases k
  {
    if k > 0 {
      ScatterIsScalarAdvance(cursors, ids, modulus, lo, i, lanes, next, k - 1);
      AdvancedByOne(cursors, ids, modulus, lo, i + k - 1);
    }
  }

  // --- the code ---

  /** The three arrays hold what rows lo..i of the chunk leave in them. */
  ghost predicate Reached<T>(outKeys: array<T>, outIdx: array<T>, cursors: array<nat>,
                             s: Store<T>, rows: Rows<T>, withIndex: bool, modulus: nat, lo: nat, i: nat)
    requires lo <= i && rows.Covers(lo, i) && modulus > 0 && |s.keys| == |s.idx|
    requires InBounds(|s.keys|, s.cursors, rows.ids, modulus, lo, i)
    reads outKeys, outIdx, cursors
  {
    && cursors[..] == Advanced(s.cursors, rows.ids, modulus, lo, i)
    && outKeys[..] == Written(s.keys, rows.keys, s.cursors, rows.ids, modulus, lo, i)
    && outIdx[..] == if withIndex then Written(s.idx, rows.idx, s.cursors, rows.ids, modulus, lo, i) else s.idx
  }

  /** The addresses of the block at i, lane by lane. */
  function LaneAddresses(cursors: seq<nat>, id: seq<nat>, width: nat, modulus: nat): (addr: seq<nat>)
    requires modulus > 0 && AllBelow(id, |cursors|)
    ensures |addr| == |id|
  {
    var rank := Rank(id, width);
    var cursor := Gather(cursors, id);
    Add(cursor, rank, modulus)
  }

  lemma {:induction false} LaneAddressIsSlot(start: seq<nat>, ids: seq<nat>, modulus: nat, lo: nat, i: nat,
      lanes: nat, width: nat, l: nat)
    requires lo <= i && i + lanes <= |ids| && l < lanes <= width + 1 && modulus > 0
    requires AllBelow(ids[i..i + lanes], |start|)
    ensures LaneAddresses(Advanced(start, ids, modulus, lo, i), ids[i..i + lanes], width, modulus)[l]
         == Slot(start, ids, modulus, lo, i + l)
  {
    var id := ids[i..i + lanes];
    assert id[l] == ids[i + l];
    LaneAddress(start, ids, modulus, lo, i, lanes, width, l);
  }

  // --- for which registers a block's cursors are right ---

  /** The cursors after one block: the last scatter of the vector loop. */
  function VectorCursors(cursors: seq<nat>, id: seq<nat>, width: nat, modulus: nat): (r: seq<nat>)
    requires modulus > 0 && AllBelow(id, |cursors|)
    ensures |r| == |cursors|
  {
    Scattered(cursors, id, Add(LaneAddresses(cursors, id, width, modulus), seq(|id|, _ => 1), modulus), |id|)
  }

  /** One block moves every bucket's cursor by the bucket's rows, as the scalar loop does. */
  ghost predicate BlockMovesCursors(cursors: seq<nat>, id: seq<nat>, width: nat)
    requires AllBelow(id, |cursors|)
  {
    VectorCursors(cursors, id, width, Pow2(width)) == Advanced(cursors, id, Pow2(width), 0, |id|)
  }

  lemma {:induction false} SlotsOfBlock(start: seq<nat>, ids: seq<nat>, width: nat, modulus: nat, lo: nat, i: nat,
                                        lanes: nat)
    requires lo <= i && i + lanes <= |ids| && lanes <= width + 1 && modulus > 0
    requires forall l :: i <= l < i + lanes ==> ids[l] < |start|
    ensures AllBelow(ids[i..i + lanes], |start|)
    ensures AreSlots(LaneAddresses(Advanced(start, ids, modulus, lo, i), ids[i..i + lanes], width, modulus),
                     start, ids, modulus, lo, i, lanes)
  {
    hide Slot;
    hide LaneAddresses;
    hide Advanced;
    var id := ids[i..i + lanes];
    var addr := LaneAddresses(Advanced(start, ids, modulus, lo, i), id, width, modulus);
    forall l | 0 <= l < lanes
      ensures addr[l] == Slot(start, ids, modulus, lo, i + l)
    {
      LaneAddressIsSlot(start, ids, modulus, lo, i, lanes, width, l);
    }
  }

  lemma {:induction false} SlotsMoveCursors(start: seq<nat>, ids: seq<nat>, modulus: nat, lo: nat, i: nat, lanes: nat,
                                            addr: seq<nat>)
    requires lo <= i && i + lanes <= |ids| && modulus > 0
    requires forall l :: i <= l < i + lanes ==> ids[l] < |start|
    requires AreSlots(addr, start, ids, modulus, lo, i, lanes)
    ensures Scattered(Advanced(start, ids, modulus, lo, i), ids[i..i + lanes],
                      Add(addr, seq(lanes, _ => 1), modulus), lanes)
         == Advanced(start, ids, modulus, lo, i + lanes)
  {
    hide Slot;
    hide Scattered;
    ScatterIsScalarAdvance(start, ids, modulus, lo, i, lanes, Add(addr, seq(lanes, _ => 1), modulus), lanes);
  }

  /** For registers with an exact rank, a block's addresses are its rows' slots, and the cursors move on by its rows. */
  lemma {:induction false} VectorStepHitsSlots(start: seq<nat>, ids: seq<nat>, width: nat, modulus: nat, lo: nat,
                                               i: nat, lanes: nat)
    requires lo <= i && i + lanes <= |ids| && lanes <= width + 1 && modulus > 0
    requires forall l :: i <= l < i + lanes ==> ids[l] < |start|
    ensures var now, id := Advanced(start, ids, modulus, lo, i), ids[i..i + lanes];
            && AllBelow(id, |now|)
            && AreSlots(LaneAddresses(now, id, width, modulus), start, ids, modulus, lo, i, lanes)
            && VectorCursors(now, id, width, modulus) == Advanced(start, ids, modulus, lo, i + lanes)
  {
    hide LaneAddresses;
    hide Scattered;
    hide Advanced;
    hide AreSlots;
    var now, id := Advanced(start, ids, modulus, lo, i), ids[i..i + lanes];
    SlotsOfBlock(start, ids, width, modulus, lo, i, lanes);
    SlotsMoveCursors(start, ids, modulus, lo, i, lanes, LaneAddresses(now, id, width, modulus));
  }

  lemma {:induction false} NarrowBlockMovesCursors(cursors: seq<nat>, id: seq<nat>, width: nat)
    requires AllBelow(id, |cursors|) && |id| <= width + 1
    requires forall b :: 0 <= b < |cursors| ==> cursors[b] < Pow2(width)
    ensures BlockMovesCursors(cursors, id, width)
  {
    hide Pow2;
    NarrowBlockOf(cursors, id, width, Pow2(width));
  }

  lemma {:induction false} NarrowBlockHitsSlots(cursors: seq<nat>, id: seq<nat>, width: nat, modulus: nat)
    requires AllBelow(id, |cursors|) && |id| <= width + 1 && modulus > 0
    requires forall b :: 0 <= b < |cursors| ==> cursors[b] < modulus
    ensures AreSlots(LaneAddresses(cursors, id, width, modulus), cursors, id, modulus, 0, 0, |id|)
  {
    hide LaneAddresses;
    hide AreSlots;
    AdvancedByNothing(cursors, id, modulus, 0);
    assert id[0..|id|] == id;
    SlotsOfBlock(cursors, id, width, modulus, 0, 0, |id|);
  }

  lemma {:induction false} NarrowBlockOf(cursors: seq<nat>, id: seq<nat>, width: nat, modulus: nat)
    requires AllBelow(id, |cursors|) && |id| <= width + 1 && modulus > 0
    requires forall b :: 0 <= b < |cursors| ==> cursors[b] < modulus
    ensures VectorCursors(cursors, id, width, modulus) == Advanced(cursors, id, modulus, 0, |id|)
  {
    hide LaneAddresses;
    hide Scattered;
    hide AreSlots;
    NarrowBlockHitsSlots(cursors, id, width, modulus);
    AdvancedByNothing(cursors, id, modulus, 0);
    assert id[0..|id|] == id;
    SlotsMoveCursors(cursors, id, modulus, 0, 0, |id|, LaneAddresses(cursors, id, width, modulus));
  }

  lemma {:induction false} LastLaneWins<T>(mem: seq<T>, addr: seq<nat>, vals: seq<T>, k: nat, l: nat)
    requires l < k <= |addr| == |vals| && AllBelow(addr, |mem|)
    requires forall j :: l < j < k ==> addr[j] != addr[l]
    ensures Scattered(mem, addr, vals, k)[addr[l]] == vals[l]
    decreases k
  {
    if l < k - 1 { LastLaneWins(mem, addr, vals, k - 1, l); }
  }

  lemma {:induction false} OccurrencesOfRun(ids: seq<nat>, b: nat, lo: nat, hi: nat, present: bool)
    requires lo <= hi <= |ids| && forall i :: lo <= i < hi ==> (ids[i] == b <==> present)
    ensures Occurrences(ids, b, lo, hi) == if present then hi - lo else 0
    decreases hi
  {
    if lo < hi { OccurrencesOfRun(ids, b, lo, hi - 1, present); }
  }

  lemma {:induction false} NextDiffers(x: nat, modulus: nat)
    requires modulus >= 2
    ensures Wrap(x, modulus) != Wrap(x + 1, modulus)
  {
    WrapAdds(x, 1, modulus);
  }

  /** Bucket 0 in the first n lanes, bucket 1 in the others. */
  function FirstLanes(n: nat, lanes: nat): (id: seq<nat>)
    ensures |id| == lanes && AllBelow(id, 2) && forall l {:trigger id[l]} :: 0 <= l < lanes ==> (id[l] == 0 <==> l < n)
  {
    seq(lanes, l => if l < n then 0 else 1)
  }

  lemma {:induction false} LateLaneAddress(lanes: nat, width: nat, modulus: nat)
    requires lanes > width + 1 && modulus > 0
    ensures LaneAddresses([0, 0], FirstLanes(width + 2, lanes), width, modulus)[width + 1] == Wrap(width, modulus)
  {
    var id := FirstLanes(width + 2, lanes);
    MaskCountsEarlierLanes(id, width, width + 1, width + 1);
    OccurrencesOfRun(id, 0, 0, width, true);
    hide ConflictMask;
    hide PopCount;
    hide Occurrences;
    assert Rank(id, width)[width + 1] == width;
  }

  lemma {:induction false} LateCursor(lanes: nat, width: nat, modulus: nat)
    requires lanes > width + 1 && modulus > 0
    ensures VectorCursors([0, 0], FirstLanes(width + 2, lanes), width, modulus)[0] == Wrap(width + 1, modulus)
  {
    hide LaneAddresses;
    hide FirstLanes;
    hide Scattered;
    var id := FirstLanes(width + 2, lanes);
    var next := Add(LaneAddresses([0, 0], id, width, modulus), seq(lanes, _ => 1), modulus);
    assert id[width + 1] == 0;
    LastLaneWins([0, 0], id, next, lanes, width + 1);
    LateLaneAddress(lanes, width, modulus);
    WrapAdds(width, 1, modulus);
  }

  lemma {:induction false} FirstBucketRows(lanes: nat, n: nat)
    requires n <= lanes
    ensures Occurrences(FirstLanes(n, lanes), 0, 0, lanes) == n
  {
    var id := FirstLanes(n, lanes);
    OccurrencesSplit(id, 0, 0, n, lanes);
    OccurrencesOfRun(id, 0, 0, n, true);
    OccurrencesOfRun(id, 0, n, lanes, false);
  }

  /** Two lanes more than bits, one id in the first width + 2 of them: the last of these gets the slot of
      the one before. */
  lemma {:induction false} WideBlockLosesRow(lanes: nat, width: nat)
    requires lanes > width + 1 && Pow2(width) >= 2
    ensures !BlockMovesCursors([0, 0], FirstLanes(width + 2, lanes), width)
  {
    hide VectorCursors;
    hide Occurrences;
    var modulus := Pow2(width);
    LateCursor(lanes, width, modulus);
    FirstBucketRows(lanes, width + 2);
    NextDiffers(width + 1, modulus);
    var id := FirstLanes(width + 2, lanes);
    assert Advanced([0, 0], id, modulus, 0, lanes)[0] == Wrap(width + 2, modulus);
  }

  /** A block moves the cursors as the scalar loop does, whatever the ids, exactly when the register has at most one
      lane more than an element has bits. */
  lemma {:induction false} BlockMovesCursorsIff(lanes: nat, width: nat)
    requires width >= 1
    ensures (forall cursors: seq<nat>, id: seq<nat> ::
               (|id| == lanes && AllBelow(id, |cursors|) && forall b :: 0 <= b < |cursors| ==> cursors[b] < Pow2(width))
               ==> BlockMovesCursors(cursors, id, width))
       <==> lanes <= width + 1
  {
    hide BlockMovesCursors;
    hide FirstLanes;
    if lanes <= width + 1 {
      forall cursors: seq<nat>, id: seq<nat> |
        |id| == lanes && AllBelow(id, |cursors|) && forall b :: 0 <= b < |cursors| ==> cursors[b] < Pow2(width)
        ensures BlockMovesCursors(cursors, id, width)
      {
        NarrowBlockMovesCursors(cursors, id, width);
      }
    } else {
      Pow2Monotone(1, width);
      WideBlockLosesRow(lanes, width);
      assert !BlockMovesCursors([0, 0], FirstLanes(width + 2, lanes), width);
    }
  }

  /** addr names the slots of the block's rows, lane by lane. */
  ghost predicate AreSlots(addr: seq<nat>, cursors: seq<nat>, ids: seq<nat>, modulus: nat, lo: nat, i: nat, lanes: nat)
    requires lo <= i && i + lanes <= |ids| && modulus > 0 && forall l :: i <= l < i + lanes ==> ids[l] < |cursors|
  {
    && |addr| == lanes
    && forall l :: 0 <= l < lanes ==> addr[l] == Slot(cursors, ids, modulus, lo, i + l)
  }

  /** One scatter of the block into an output column. */
  method ScatterColumn<T>(out: array<T>, addr: seq<nat>, vals: seq<T>, ghost start: seq<T>, ghost cursors: seq<nat>,
                          ghost ids: seq<nat>, ghost modulus: nat, ghost lo: nat, i: nat, lanes: nat)
    requires lo <= i && i + lanes <= |ids| && i + lanes <= |vals| && modulus > 0
    requires InBounds(|start|, cursors, ids, modulus, lo, i + lanes)
    requires AreSlots(addr, cursors, ids, modulus, lo, i, lanes)
    requires out[..] == Written(start, vals, cursors, ids, modulus, lo, i)
    modifies out
    ensures out[..] == Written(start, vals, cursors, ids, modulus, lo, i + lanes)
  {
    hide Slot;
    ScatterIsScalarWrites(start, vals, cursors, ids, modulus, lo, i, lanes, addr, lanes);
    Scatter(out, addr, vals[i..i + lanes]);
  }

  /** The scatter of the moved cursors. */
  method ScatterCursors(cursors: array<nat>, addr: seq<nat>, id: seq<nat>, ghost start: seq<nat>, ghost ids: seq<nat>,
                        modulus: nat, ghost lo: nat, ghost i: nat, lanes: nat)
    requires lo <= i && i + lanes <= |ids| && modulus > 0 && id == ids[i..i + lanes]
    requires forall l :: i <= l < i + lanes ==> ids[l] < |start|
    requires AreSlots(addr, start, ids, modulus, lo, i, lanes)
    requires cursors[..] == Advanced(start, ids, modulus, lo, i)
    modifies cursors
    ensures cursors[..] == Advanced(start, ids, modulus, lo, i + lanes)
  {
    hide Slot;
    SlotsMoveCursors(start, ids, modulus, lo, i, lanes, addr);
    Scatter(cursors, id, Add(addr, seq(lanes, _ => 1), modulus));
  }

  /** One block of the vector loop. */
  method Block<T>(outKeys: array<T>, outIdx: array<T>, rows: Rows<T>, ghost s: Store<T>, ghost lo: nat, i: nat,
                  cursors: array<nat>, lanes: nat, width: nat, modulus: nat, withIndex: bool)
    requires lo <= i && rows.Covers(lo, i + lanes) && modulus > 0 && lanes <= width + 1 && |s.keys| == |s.idx|
    requires outKeys != outIdx && cursors as object != outKeys && cursors as object != outIdx
    requires InBounds(|s.keys|, s.cursors, rows.ids, modulus, lo, i + lanes)
    requires Reached(outKeys, outIdx, cursors, s, rows, withIndex, modulus, lo, i)
    modifies outKeys, outIdx, cursors
    ensures Reached(outKeys, outIdx, cursors, s, rows, withIndex, modulus, lo, i + lanes)
  {
    hide Written;
    var id := rows.ids[i..i + lanes];
    var addr := LaneAddresses(cursors[..], id, width, modulus);
    forall l | 0 <= l < lanes
      ensures addr[l] == Slot(s.cursors, rows.ids, modulus, lo, i + l)
    {
      LaneAddressIsSlot(s.cursors, rows.ids, modulus, lo, i, lanes, width, l);
    }
    ScatterColumn(outKeys, addr, rows.keys, s.keys, s.cursors, rows.ids, modulus, lo, i, lanes);
    if withIndex {
      ScatterColumn(outIdx, addr, rows.idx, s.idx, s.cursors, rows.ids, modulus, lo, i, lanes);
    }
    ScatterCursors(cursors, addr, id, s.cursors, rows.ids, modulus, lo, i, lanes);
  }

  /** One row of the scalar tail. */
  method Tail<T>(outKeys: array<T>, outIdx: array<T>, rows: Rows<T>, ghost s: Store<T>, ghost lo: nat, i: nat,
                 cursors: array<nat>, modulus: nat, withIndex: bool)
    requires lo <= i && rows.Covers(lo, i + 1) && modulus > 0 && |s.keys| == |s.idx|
    requires outKeys != outIdx && cursors as object != outKeys && cursors as object != outIdx
    requires InBounds(|s.keys|, s.cursors, rows.ids, modulus, lo, i + 1)
    requires Reached(outKeys, outIdx, cursors, s, rows, withIndex, modulus, lo, i)
    modifies outKeys, outIdx, cursors
    ensures Reached(outKeys, outIdx, cursors, s, rows, withIndex, modulus, lo, i + 1)
  {
    AdvancedByOne(s.cursors, rows.ids, modulus, lo, i);
    var bucket := rows.ids[i];
    var at := cursors[bucket];
    cursors[bucket] := Wrap(at + 1, modulus);
    outKeys[at] := rows.keys[i];
    if withIndex {
      outIdx[at] := rows.idx[i];
    }
  }

  /** The vector loop and its scalar tail leave both outputs and the cursors exactly as the scalar
      loop over the whole chunk would. `width` is the element width in bits. */
  method Run<T>(outKeys: array<T>, outIdx: array<T>, rows: Rows<T>, begin: nat, end: nat,
                cursors: array<nat>, lanes: nat, width: nat, modulus: nat, withIndex: bool)
    requires modulus == Pow2(width)
    requires rows.Covers(begin, end) && 1 <= lanes <= width + 1
    requires outKeys != outIdx && outKeys.Length == outIdx.Length
    requires cursors as object != outKeys && cursors as object != outIdx
    requires InBounds(outKeys.Length, cursors[..], rows.ids, modulus, begin, end)
    modifies outKeys, outIdx, cursors
    ensures Store(outKeys[..], outIdx[..], cursors[..])
         == ScalarRun(old(Store(outKeys[..], outIdx[..], cursors[..])), rows, withIndex, modulus, begin, end)
  {
    hide Slot;
    ghost var start := Store(outKeys[..], outIdx[..], cursors[..]);
    AdvancedByNothing(start.cursors, rows.ids, modulus, begin);
    var i := begin;
    while i + lanes <= end
      invariant begin <= i <= end
      invariant Reached(outKeys, outIdx, cursors, start, rows, withIndex, modulus, begin, i)
    {
      Block(outKeys, outIdx, rows, start, begin, i, cursors, lanes, width, modulus, withIndex);
      i := i + lanes;
    }
    while i < end
      invariant begin <= i <= end
      invariant Reached(outKeys, outIdx, cursors, start, rows, withIndex, modulus, begin, i)
    {
      Tail(outKeys, outIdx, rows, start, begin, i, cursors, modulus, withIndex);
      i := i + 1;
    }
    ScalarRunWrites(start, rows, withIndex, modulus, begin, end);
  }
}
