/** When the fused pipeline's sum is the scan's on every table the dataset generator can make: values of column c
    between -1000 and 1000. research/intermediate-repr-src: PLAN.md, src/references.cpp. */
module GeneratedExactness {
  import opened Words
  import opened Aggregates
  import opened FusedPipeline
  import opened FusedExactness

  // --- how far salted generated values reach ---

  function Smallest(count: nat): int {
    if count == 8 then -1024 else -1000
  }

  function Largest(count: nat): int {
    if count == 1 then 1000 else if count == 4 then 1007 else 1023
  }

  lemma {:induction false} GeneratedValueBounds(value: int, k: nat, count: nat)
    requires -1000 <= value <= 1000 && k < count && (count == 1 || count == 4 || count == 8)
    ensures Smallest(count) <= AggregateValue(value, k) <= Largest(count)
  {
    hide AggregateValue;
    if count == 1 {
      FirstAggregateIsPlain(value);
    } else if count == 4 {
      FirstFourStayClose(value, k);
      var v := AggregateValue(value, k);
      assert 8 * (v / 8) <= v < 8 * (v / 8) + 8;
    } else {
      AggregateOfGeneratedValue(value, k);
    }
  }

  /** The salted value furthest from zero among the first `count` aggregates, and where it arises. */
  function Extreme(count: nat): int {
    if count == 1 then 1000 else if count == 4 then 1007 else -1024
  }

  function ExtremeSource(count: nat): int {
    if count == 8 then -993 else 1000
  }

  function ExtremeAggregate(count: nat): nat {
    if count == 1 then 0 else if count == 4 then 3 else 5
  }

  lemma {:induction false} LargestOfFour()
    ensures AggregateValue(1000, 3) == 1007
  {
    assert Pow2(3) == 8;
    XorFillsLowBits(125, 3);
    hide Xor;
    hide Pow2;
    assert ToWord(1000) == 1000 && Salt(3) == 7;
    assert Xor(1000, 7) == 1007;
    assert FromWord(1007) == 1007;
  }

  lemma {:induction false} SmallestOfEight()
    ensures AggregateValue(-993, 5) == -1024
  {
    assert Pow2(5) == 32;
    XorFillsLowBits(0x7ff_ffe0, 5);
    hide Xor;
    hide Pow2;
    assert ToWord(-993) == 0xffff_fc1f && Salt(5) == 31;
    assert Xor(0xffff_fc1f, 31) == 0xffff_fc00;
    assert FromWord(0xffff_fc00) == -1024;
  }

  lemma {:induction false} ExtremeIsReached(count: nat)
    requires count == 1 || count == 4 || count == 8
    ensures AggregateValue(ExtremeSource(count), ExtremeAggregate(count)) == Extreme(count)
  {
    hide AggregateValue;
    if count == 1 {
      FirstAggregateIsPlain(1000);
    } else if count == 4 {
      LargestOfFour();
    } else {
      SmallestOfEight();
    }
  }

  // --- the sizes that fit ---

  /** A vector part of v rows keeps every accumulator in the 32-bit range, whatever the generated values. */
  predicate VectorFits(count: nat, v: nat) {
    IsInt32(v * Extreme(count))
  }

  /** In numbers. */
  lemma {:induction false} VectorFitsIff(count: nat, v: nat)
    requires count == 1 || count == 4 || count == 8
    ensures VectorFits(count, v) <==> v <= if count == 1 then 2147483 else if count == 4 then 2132555 else 2097152
  {
  }

  lemma {:induction false} PartIsBounded(t: Columns, q: Query, k: nat, lo: nat, hi: nat)
    requires t.HasRows(|t.a|) && IsGenerated(t) && q.Supported() && k < q.count && lo <= hi <= |t.a|
    ensures Smallest(q.count) * (hi - lo) <= Selected(t, q, k, lo, hi) <= Largest(q.count) * (hi - lo)
    decreases hi
  {
    hide AggregateValue;
    if lo < hi {
      PartIsBounded(t, q, k, lo, hi - 1);
      GeneratedValueBounds(t.c[hi - 1], k, q.count);
    }
  }

  lemma {:induction false} FittingPartIsInt32(t: Columns, q: Query, k: nat, lo: nat, hi: nat, v: nat)
    requires t.HasRows(|t.a|) && IsGenerated(t) && q.Supported() && k < q.count && lo <= hi <= |t.a|
    requires hi - lo <= v && VectorFits(q.count, v)
    ensures IsInt32(Selected(t, q, k, lo, hi))
  {
    PartIsBounded(t, q, k, lo, hi);
    VectorFitsIff(q.count, v);
  }

  lemma {:induction false} VectorEndGrows(i: nat, rows: nat, more: nat, lanes: nat)
    requires i <= rows <= more && lanes > 0
    ensures VectorEnd(i, rows, lanes) <= VectorEnd(i, more, lanes)
    decreases rows - i
  {
    if i + lanes <= rows {
      VectorEndGrows(i + lanes, rows, more, lanes);
    }
  }

  /** The rows of the longest batch, which is the first, that go through the vector loop. */
  function LongestVector(rows: nat, batchRows: nat, lanes: nat): nat
    requires lanes > 0
  {
    VectorEnd(0, if batchRows < rows then batchRows else rows, lanes)
  }

  lemma {:induction false} FirstBatchIsLongest(t: Columns, offset: nat, batchRows: nat, lanes: nat)
    requires offset <= |t.a| && lanes > 0
    ensures BatchMid(t, offset, batchRows, lanes) - offset <= LongestVector(|t.a|, batchRows, lanes)
    ensures BatchMid(t, 0, batchRows, lanes) == LongestVector(|t.a|, batchRows, lanes)
  {
    VectorEndGrows(0, BatchEnd(t, offset, batchRows) - offset, if batchRows < |t.a| then batchRows else |t.a|, lanes);
  }

  lemma {:induction false} FittingNeverCarries(t: Columns, q: Query, batchRows: nat, lanes: nat, offset: nat)
    requires t.HasRows(|t.a|) && IsGenerated(t) && q.Supported() && batchRows > 0 && lanes > 0 && offset <= |t.a|
    requires VectorFits(q.count, LongestVector(|t.a|, batchRows, lanes))
    ensures FusedCarry(t, q, batchRows, lanes, offset) == 0
    decreases |t.a| - offset
  {
    if offset < |t.a| {
      var hi, mid := BatchEnd(t, offset, batchRows), BatchMid(t, offset, batchRows, lanes);
      FirstBatchIsLongest(t, offset, batchRows, lanes);
      forall k | 0 <= k < q.count
        ensures IsInt32(Selected(t, q, k, offset, mid))
      {
        FittingPartIsInt32(t, q, k, offset, mid, LongestVector(|t.a|, batchRows, lanes));
      }
      NoCarryInBatch(t, q, offset, mid, q.count);
      FittingNeverCarries(t, q, batchRows, lanes, hi);
    }
  }

  // --- the sizes that do not ---

  /** All rows pass and carry the same value. */
  ghost predicate AllPass(t: Columns, q: Query, value: int)
    requires t.HasRows(|t.a|)
  {
    forall r :: 0 <= r < |t.a| ==> t.c[r] == value && q.Passes(t, r)
  }

  function Uniform(q: Query, rows: nat, value: int): (t: Columns)
    requires INT32_MIN < q.p1 <= INT32_MAX && INT32_MIN < q.p2 <= INT32_MAX && -1000 <= value <= 1000
    ensures t.HasRows(rows) && t.AreInt32(rows) && IsGenerated(t)
    ensures AllPass(t, q, value)
  {
    Columns(seq(rows, _ => q.p1 - 1), seq(rows, _ => q.p2 - 1), seq(rows, _ => value))
  }

  lemma {:induction false} UniformPart(t: Columns, q: Query, value: int, k: nat, lo: nat, hi: nat)
    requires t.HasRows(|t.a|) && k < 8 && lo <= hi <= |t.a|
    requires AllPass(t, q, value)
    ensures Selected(t, q, k, lo, hi) == (hi - lo) * AggregateValue(value, k)
    decreases hi
  {
    hide AggregateValue;
    if lo < hi {
      UniformPart(t, q, value, k, lo, hi - 1);
    }
  }

  /** All salted forms of a value of at least 128 are positive, those of one below -128 negative. */
  predicate OneSided(value: int, sign: int) {
    (sign == 1 && 128 <= value <= 1000) || (sign == -1 && -1000 <= value < -128)
  }

  lemma {:induction false} SaltKeepsSide(value: int, sign: int, k: nat)
    requires OneSided(value, sign) && k < 8
    ensures sign * AggregateValue(value, k) > 0
  {
    AggregateValueStaysClose(value, k);
    hide AggregateValue;
    var v := AggregateValue(value, k);
    if sign == 1 {
      assert v / 128 >= 1;
    } else {
      assert v / 128 <= -2;
    }
  }

  lemma {:induction false} PartKeepsSide(v: int, sign: int, n: nat)
    requires (sign == 1 || sign == -1) && sign * v > 0
    ensures sign * (n * v) >= 0
    ensures sign * Carry(n * v) >= if IsInt32(n * v) then 0 else 1
  {
    assert n * (sign * v) >= 0;
    assert sign * (n * v) == n * (sign * v);
  }

  lemma {:induction false} SignedSum(sign: int, x: int, y: int)
    ensures sign * (x + y) == sign * x + sign * y
  {
  }

  /** In a one-sided uniform table no wrap cancels another. */
  lemma {:induction false} UniformBatchCarry(t: Columns, q: Query, value: int, sign: int, lo: nat, mid: nat, n: nat,
                                             k: nat)
    requires t.HasRows(|t.a|) && n <= 8 && lo <= mid <= |t.a| && OneSided(value, sign) && k < 8
    requires AllPass(t, q, value)
    ensures sign * BatchCarry(t, q, lo, mid, n)
         >= if k < n && !IsInt32((mid - lo) * AggregateValue(value, k)) then 1 else 0
    decreases n
  {
    hide AggregateValue;
    hide Carry;
    hide Selected;
    if n > 0 {
      UniformBatchCarry(t, q, value, sign, lo, mid, n - 1, k);
      UniformPart(t, q, value, n - 1, lo, mid);
      var before, carry := BatchCarry(t, q, lo, mid, n - 1), Carry((mid - lo) * AggregateValue(value, n - 1));
      assert sign * carry >= if IsInt32((mid - lo) * AggregateValue(value, n - 1)) then 0 else 1 by {
        SaltKeepsSide(value, sign, n - 1);
        PartKeepsSide(AggregateValue(value, n - 1), sign, mid - lo);
      }
      SignedSum(sign, before, carry);
    }
  }

  lemma {:induction false} UniformCarry(t: Columns, q: Query, value: int, sign: int, batchRows: nat, lanes: nat,
                                        offset: nat, k: nat)
    requires t.HasRows(|t.a|) && q.Supported() && batchRows > 0 && lanes > 0 && offset <= |t.a|
    requires OneSided(value, sign) && k < q.count
    requires AllPass(t, q, value)
    ensures sign * FusedCarry(t, q, batchRows, lanes, offset)
         >= if offset < |t.a|
               && !IsInt32((BatchMid(t, offset, batchRows, lanes) - offset) * AggregateValue(value, k)) then 1 else 0
    decreases |t.a| - offset
  {
    hide AggregateValue;
    hide BatchCarry;
    hide AllPass;
    if offset < |t.a| {
      UniformCarry(t, q, value, sign, batchRows, lanes, BatchEnd(t, offset, batchRows), k);
      UniformBatchCarry(t, q, value, sign, offset, BatchMid(t, offset, batchRows, lanes), q.count, k);
    }
  }

  /** The table of the extreme value: its first batch wraps, and nothing makes up for it. */
  lemma {:induction false} ExtremeTableCarries(q: Query, rows: nat, batchRows: nat, lanes: nat)
    requires q.Supported() && batchRows > 0 && lanes > 0
    requires INT32_MIN < q.p1 <= INT32_MAX && INT32_MIN < q.p2 <= INT32_MAX
    requires !VectorFits(q.count, LongestVector(rows, batchRows, lanes))
    ensures FusedCarry(Uniform(q, rows, ExtremeSource(q.count)), q, batchRows, lanes, 0) != 0
  {
    hide AggregateValue;
    hide FusedCarry;
    hide LongestVector;
    hide AllPass;
    hide BatchMid;
    var value, k, sign := ExtremeSource(q.count), ExtremeAggregate(q.count), if q.count == 8 then -1 else 1;
    var t := Uniform(q, rows, value);
    ExtremeIsReached(q.count);
    FirstBatchIsLongest(t, 0, batchRows, lanes);
    UniformCarry(t, q, value, sign, batchRows, lanes, 0, k);
  }

  // --- main result ---

  /** The fused sum agrees with the scan on every table of the given size with generated values. */
  ghost predicate ExactOnGenerated(q: Query, rows: nat, batchRows: nat, lanes: nat)
    requires q.count <= 8 && batchRows > 0 && lanes > 0
  {
    forall t: Columns :: t.HasRows(rows) && t.AreInt32(rows) && IsGenerated(t) ==>
      FusedSum(t, q, batchRows, lanes, 0) == Scan(t, q, 0, rows).sum
  }

  /** For a query that some row can pass, that is so exactly when the longest vector part of a batch, times the
      extreme salted value, stays in the 32-bit range. */
  lemma {:induction false} ExactOnGeneratedIff(q: Query, rows: nat, batchRows: nat, lanes: nat)
    requires q.Supported() && batchRows > 0 && lanes > 0
    requires INT32_MIN < q.p1 <= INT32_MAX && INT32_MIN < q.p2 <= INT32_MAX
    ensures ExactOnGenerated(q, rows, batchRows, lanes) <==> VectorFits(q.count, LongestVector(rows, batchRows, lanes))
  {
    hide FusedSum;
    hide FusedCarry;
    hide Scan;
    if VectorFits(q.count, LongestVector(rows, batchRows, lanes)) {
      forall t: Columns | t.HasRows(rows) && t.AreInt32(rows) && IsGenerated(t)
        ensures FusedSum(t, q, batchRows, lanes, 0) == Scan(t, q, 0, rows).sum
      {
        FittingNeverCarries(t, q, batchRows, lanes, 0);
        FusedIsCarried(t, q, batchRows, lanes, 0);
      }
    } else {
      var t := Uniform(q, rows, ExtremeSource(q.count));
      ExtremeTableCarries(q, rows, batchRows, lanes);
      FusedIsCarried(t, q, batchRows, lanes, 0);
      assert FusedSum(t, q, batchRows, lanes, 0) != Scan(t, q, 0, rows).sum;
    }
  }

  lemma {:induction false} VectorIsWithin(rows: nat, batchRows: nat, lanes: nat)
    requires lanes > 0
    ensures LongestVector(rows, batchRows, lanes) <= rows && LongestVector(rows, batchRows, lanes) <= batchRows
  {
  }

  /** Batches of at most 2^21 rows fit for every count. The largest batch the benchmark registers has 2^18. */
  lemma {:induction false} GeneratedDataIsExact(t: Columns, q: Query, batchRows: nat, lanes: nat)
    requires t.HasRows(|t.a|) && IsGenerated(t) && q.Supported() && batchRows > 0 && lanes > 0
    requires batchRows <= 0x20_0000 || |t.a| <= 0x20_0000
    ensures FusedSum(t, q, batchRows, lanes, 0) == Scan(t, q, 0, |t.a|).sum
  {
    VectorIsWithin(|t.a|, batchRows, lanes);
    VectorFitsIff(q.count, LongestVector(|t.a|, batchRows, lanes));
    FittingNeverCarries(t, q, batchRows, lanes, 0);
    FusedIsCarried(t, q, batchRows, lanes, 0);
  }
}
