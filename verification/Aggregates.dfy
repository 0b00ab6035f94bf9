/** The query's arithmetic: 32-bit wrap-around, the salted aggregates, and the scalar scan.
    research/intermediate-repr-src: include/intermediate_repr/kernel_api.hpp, src/references.cpp. */
module Aggregates {
  import opened Words

  const INT32_MIN := -0x8000_0000
  const INT32_MAX := 0x7fff_ffff

  predicate IsInt32(x: int) { -0x8000_0000 <= x <= 0x7fff_ffff }

  // --- 32-bit words ---

  /** The two's complement bits of x, and the value they denote. */
  function ToWord(x: int): (w: nat)
    ensures w < 0x1_0000_0000
  {
    x % 0x1_0000_0000
  }

  function FromWord(w: nat): (x: int)
    requires w < 0x1_0000_0000
    ensures IsInt32(x) && ToWord(x) == w
  {
    if w < 0x8000_0000 then w else w - 0x1_0000_0000
  }

  /** The value a 32-bit signed lane holds after computing x. */
  function Wrap32(x: int): (r: int)
    ensures IsInt32(r)
    ensures IsInt32(x) ==> r == x
  {
    FromWord(ToWord(x))
  }

  /** How often x left the 32-bit range, counted with sign. */
  function Carry(x: int): (k: int)
    ensures Wrap32(x) == x - k * 0x1_0000_0000
    ensures k == 0 <==> IsInt32(x)
  {
    (x + 0x8000_0000) / 0x1_0000_0000
  }

  lemma {:induction false} SameWordSameWrap(x: int, y: int, k: int)
    requires x == y + k * 0x1_0000_0000
    ensures Wrap32(x) == Wrap32(y)
  {
  }

  // --- aggregate_value ---

  const SALTS := [0, 1, 3, 7, 15, 31, 63, 127]

  function Salt(k: nat): (s: nat)
    requires k < 8
    ensures s < 128
  {
    SALTS[k]
  }

  lemma {:induction false} Pow2At32()
    ensures Pow2(7) == 128 && Pow2(32) == 0x1_0000_0000
  {
    assert Pow2(4) == 16;
    assert Pow2(7) == 128;
    Pow2Adds(4, 4);
    assert Pow2(8) == 256;
    Pow2Adds(8, 8);
    assert Pow2(16) == 65536;
    Pow2Adds(16, 16);
  }

  /** value ^ aggregate_xor_salts[k], on 32-bit words. */
  function AggregateValue(value: int, k: nat): (r: int)
    requires k < 8
    ensures IsInt32(r)
  {
    Pow2At32();
    XorBelow(ToWord(value), Salt(k), 32);
    FromWord(Xor(ToWord(value), Salt(k)))
  }

  /** Exclusive or with a small word changes only the low bits. */
  lemma {:induction false} XorLowBits(x: nat, s: nat, k: nat)
    requires s < Pow2(k)
    ensures Xor(x, s) / Pow2(k) == x / Pow2(k)
  {
    ShrIsDivision(x, k);
    ShrIsDivision(Xor(x, s), k);
    ShrOfXor(x, s, k);
    ShrBelow(s, k, k);
    XorZero(Shr(x, k));
  }

  /** A salted value stays in its 128-value block. */
  lemma {:induction false} AggregateValueStaysClose(value: int, k: nat)
    requires IsInt32(value) && k < 8
    ensures AggregateValue(value, k) / 128 == value / 128
  {
    Pow2At32();
    var w := ToWord(value);
    var x := Xor(w, Salt(k));
    XorBelow(w, Salt(k), 32);
    XorLowBits(w, Salt(k), 7);
    assert x / 128 == w / 128;
    SameBlock(value, w, x);
  }

  lemma {:induction false} SameBlock(value: int, w: nat, x: nat)
    requires IsInt32(value) && w == ToWord(value) && x < 0x1_0000_0000 && x / 128 == w / 128
    ensures FromWord(x) / 128 == value / 128
  {
    assert value == FromWord(w);
    var q := w / 128;
    assert 128 * q <= w < 128 * q + 128 && 128 * q <= x < 128 * q + 128;
    if q < 0x100_0000 {
      assert FromWord(x) == x && value == w;
    } else {
      assert FromWord(x) == x - 0x1_0000_0000 && value == w - 0x1_0000_0000;
    }
  }

  /** Generated values lie in [-1000, 1000]; every salted form of one lies in [-1024, 1023]. */
  lemma {:induction false} AggregateOfGeneratedValue(value: int, k: nat)
    requires -1000 <= value <= 1000 && k < 8
    ensures -1024 <= AggregateValue(value, k) <= 1023
  {
    AggregateValueStaysClose(value, k);
    var q, r := value / 128, AggregateValue(value, k);
    assert -8 <= q <= 7;
    assert 128 * q <= r < 128 * q + 128;
  }

  /** A value salted by one of the first four stays in its 8-value block. */
  lemma {:induction false} FirstFourStayClose(value: int, k: nat)
    requires IsInt32(value) && k < 4
    ensures AggregateValue(value, k) / 8 == value / 8
  {
    Pow2At32();
    hide Xor;
    var w := ToWord(value);
    assert Pow2(3) == 8;
    XorBelow(w, Salt(k), 32);
    XorLowBits(w, Salt(k), 3);
    SameEight(value, w, Xor(w, Salt(k)));
  }

  lemma {:induction false} SameEight(value: int, w: nat, x: nat)
    requires IsInt32(value) && w == ToWord(value) && x < 0x1_0000_0000 && x / 8 == w / 8
    ensures FromWord(x) / 8 == value / 8
  {
    assert value == FromWord(w);
    var q := w / 8;
    assert 8 * q <= w < 8 * q + 8 && 8 * q <= x < 8 * q + 8;
    if q < 0x1000_0000 {
      assert FromWord(x) == x && value == w;
    } else {
      assert FromWord(x) == x - 0x1_0000_0000 && value == w - 0x1_0000_0000;
    }
  }

  /** The first aggregate is the plain sum. */
  lemma {:induction false} FirstAggregateIsPlain(value: int)
    requires IsInt32(value)
    ensures AggregateValue(value, 0) == value
  {
    hide Xor;
    XorZero(ToWord(value));
  }

  /** Aggregate k complements exactly the k low bits of the value, which for a negative value are those of its
      two's complement form. */
  lemma {:induction false} AggregateComplementsLowBits(value: int, k: nat)
    requires IsInt32(value) && k < 8
    ensures AggregateValue(value, k) / Pow2(k) == value / Pow2(k)
    ensures AggregateValue(value, k) % Pow2(k) == Pow2(k) - 1 - value % Pow2(k)
  {
    hide Xor;
    Pow2At32();
    var w := ToWord(value);
    SaltIsOnes(k);
    XorComplements(w, k);
    XorBelow(w, Salt(k), 32);
    BlocksOfWord(k);
    hide Pow2;
    SignedBlock(value, w, Xor(w, Salt(k)), Pow2(k), 0x8000_0000 / Pow2(k));
  }

  lemma {:induction false} SaltIsOnes(k: nat)
    requires k < 8
    ensures Salt(k) == Pow2(k) - 1
  {
    assert Pow2(3) == 8;
    assert Pow2(6) == 64;
    if k == 0 || k == 1 || k == 2 || k == 4 || k == 5 {
      assert Pow2(2) == 4 && Pow2(4) == 16 && Pow2(5) == 32;
    }
  }

  lemma {:induction false} BlocksOfWord(k: nat)
    requires k < 8
    ensures 0x8000_0000 / Pow2(k) * Pow2(k) == 0x8000_0000
  {
    SaltIsOnes(k);
    hide Pow2;
    var p := Salt(k) + 1;
    assert 0x8000_0000 / p * p == 0x8000_0000;
  }

  /** Complementing within a block of p values commutes with reading a word as a signed number. */
  lemma {:induction false} SignedBlock(value: int, w: nat, x: nat, p: nat, half: nat)
    requires IsInt32(value) && w == ToWord(value) && x < 0x1_0000_0000
    requires p > 0 && half * p == 0x8000_0000
    requires x / p == w / p && x % p == p - 1 - w % p
    ensures FromWord(x) / p == value / p
    ensures FromWord(x) % p == p - 1 - value % p
  {
    assert value == FromWord(w);
    SignedParts(w, p, half);
    SignedParts(x, p, half);
  }

  /** Reading a word as a signed number moves its quotient by a constant and keeps its remainder. */
  lemma {:induction false} SignedParts(w: nat, p: nat, half: nat)
    requires w < 0x1_0000_0000 && p > 0 && half * p == 0x8000_0000
    ensures FromWord(w) / p == if w / p < half then w / p else w / p - 2 * half
    ensures FromWord(w) % p == w % p
  {
    var q, r := w / p, w % p;
    assert w == q * p + r;
    if q < half {
      BlockFits(q, half, p);
    } else {
      BlockFits(half, q + 1, p);
      assert w - 0x1_0000_0000 == (q - 2 * half) * p + r by { BlockShifts(q, half, p); }
      DivisionIsUnique(w - 0x1_0000_0000, p, q - 2 * half, r);
    }
  }

  lemma {:induction false} BlockShifts(q: nat, half: nat, p: nat)
    ensures (q - 2 * half) * p == q * p - 2 * (half * p)
  {
  }

  lemma {:induction false} BlockFits(q: nat, half: nat, p: nat)
    requires q < half
    ensures q * p + p <= half * p
  {
    var d := half - q - 1;
    assert half * p == (q + 1 + d) * p == q * p + p + d * p;
    assert d * p >= 0;
  }

  // --- the query ---

  datatype Columns = Columns(a: seq<int>, b: seq<int>, c: seq<int>) {
    predicate HasRows(n: nat) { |a| == n && |b| == n && |c| == n }

    predicate AreInt32(n: nat)
      requires HasRows(n)
    {
      forall r :: 0 <= r < n ==> IsInt32(a[r]) && IsInt32(b[r]) && IsInt32(c[r])
    }

    /** view_of: a contiguous part of the columns. */
    function View(offset: nat, rows: nat): (v: Columns)
      requires HasRows(|a|) && offset + rows <= |a|
      ensures v.HasRows(rows)
    {
      Columns(a[offset..offset + rows], b[offset..offset + rows], c[offset..offset + rows])
    }
  }

  /** WHERE a < p1 AND b < p2, with `count` aggregates of c. */
  datatype Query = Query(p1: int, p2: int, count: nat) {
    predicate Supported() { count == 1 || count == 4 || count == 8 }

    predicate PassesA(t: Columns, r: nat)
      requires t.HasRows(|t.a|) && r < |t.a|
    {
      t.a[r] < p1
    }

    predicate Passes(t: Columns, r: nat)
      requires t.HasRows(|t.a|) && r < |t.a|
    {
      t.a[r] < p1 && t.b[r] < p2
    }
  }

  datatype Totals = Totals(sum: int, afterA: nat, afterB: nat) {
    function Plus(o: Totals): Totals {
      Totals(sum + o.sum, afterA + o.afterA, afterB + o.afterB)
    }
  }

  /** Sum of the first n aggregates of one value. */
  function RowSum(value: int, n: nat): int
    requires n <= 8
  {
    if n == 0 then 0 else RowSum(value, n - 1) + AggregateValue(value, n - 1)
  }

  /** The query evaluated row by row over rows lo..hi: the meaning every execution must have. */
  function Scan(t: Columns, q: Query, lo: nat, hi: nat): Totals
    requires t.HasRows(|t.a|) && q.count <= 8 && lo <= hi <= |t.a|
    decreases hi
  {
    if lo == hi then Totals(0, 0, 0)
    else
      var before := Scan(t, q, lo, hi - 1);
      Totals(before.sum + if q.Passes(t, hi - 1) then RowSum(t.c[hi - 1], q.count) else 0,
             before.afterA + if q.PassesA(t, hi - 1) then 1 else 0,
             before.afterB + if q.Passes(t, hi - 1) then 1 else 0)
  }

  lemma {:induction false} ScanSplits(t: Columns, q: Query, lo: nat, mid: nat, hi: nat)
    requires t.HasRows(|t.a|) && q.count <= 8 && lo <= mid <= hi <= |t.a|
    ensures Scan(t, q, lo, hi) == Scan(t, q, lo, mid).Plus(Scan(t, q, mid, hi))
    decreases hi
  {
    if mid < hi { ScanSplits(t, q, lo, mid, hi - 1); }
  }

  lemma {:induction false} ScanOfView(t: Columns, q: Query, offset: nat, rows: nat, n: nat)
    requires t.HasRows(|t.a|) && q.count <= 8 && offset + rows <= |t.a| && n <= rows
    ensures Scan(t.View(offset, rows), q, 0, n) == Scan(t, q, offset, offset + n)
    decreases n
  {
    if n > 0 { ScanOfView(t, q, offset, rows, n - 1); }
  }

  /** What one aggregate contributes over rows lo..hi. */
  function Selected(t: Columns, q: Query, k: nat, lo: nat, hi: nat): int
    requires t.HasRows(|t.a|) && k < 8 && lo <= hi <= |t.a|
    decreases hi
  {
    if lo == hi then 0
    else Selected(t, q, k, lo, hi - 1) + if q.Passes(t, hi - 1) then AggregateValue(t.c[hi - 1], k) else 0
  }

  function SelectedSum(t: Columns, q: Query, lo: nat, hi: nat, n: nat): int
    requires t.HasRows(|t.a|) && n <= 8 && lo <= hi <= |t.a|
    decreases n
  {
    if n == 0 then 0 else SelectedSum(t, q, lo, hi, n - 1) + Selected(t, q, n - 1, lo, hi)
  }

  lemma {:induction false} SelectedSumGrows(t: Columns, q: Query, lo: nat, hi: nat, n: nat)
    requires t.HasRows(|t.a|) && n <= 8 && lo <= hi < |t.a|
    ensures SelectedSum(t, q, lo, hi + 1, n)
         == SelectedSum(t, q, lo, hi, n) + if q.Passes(t, hi) then RowSum(t.c[hi], n) else 0
    decreases n
  {
    if n > 0 { SelectedSumGrows(t, q, lo, hi, n - 1); }
  }

  lemma {:induction false} SelectedSumOfNothing(t: Columns, q: Query, lo: nat, n: nat)
    requires t.HasRows(|t.a|) && n <= 8 && lo <= |t.a|
    ensures SelectedSum(t, q, lo, lo, n) == 0
    decreases n
  {
    if n > 0 { SelectedSumOfNothing(t, q, lo, n - 1); }
  }

  /** Summing by rows or by aggregates is the same. */
  lemma {:induction false} ScanSumByAggregate(t: Columns, q: Query, lo: nat, hi: nat)
    requires t.HasRows(|t.a|) && q.count <= 8 && lo <= hi <= |t.a|
    ensures Scan(t, q, lo, hi).sum == SelectedSum(t, q, lo, hi, q.count)
    decreases hi
  {
    if lo == hi {
      SelectedSumOfNothing(t, q, lo, q.count);
    } else {
      ScanSumByAggregate(t, q, lo, hi - 1);
      SelectedSumGrows(t, q, lo, hi - 1, q.count);
    }
  }

  /** One row: it counts where its keys are below the thresholds, and adds its salted values where both are. */
  lemma {:induction false} ScanOfOneRow(t: Columns, q: Query, r: nat)
    requires t.HasRows(|t.a|) && q.count <= 8 && r < |t.a|
    ensures Scan(t, q, r, r + 1).afterA == if t.a[r] < q.p1 then 1 else 0
    ensures Scan(t, q, r, r + 1).afterB == if t.a[r] < q.p1 && t.b[r] < q.p2 then 1 else 0
    ensures !(t.a[r] < q.p1 && t.b[r] < q.p2) ==> Scan(t, q, r, r + 1).sum == 0
    ensures t.a[r] < q.p1 && t.b[r] < q.p2 && q.count == 1 && IsInt32(t.c[r]) ==> Scan(t, q, r, r + 1).sum == t.c[r]
    ensures t.a[r] < q.p1 && t.b[r] < q.p2 && q.count == 4 ==>
              Scan(t, q, r, r + 1).sum == FourValues(t.c[r], 0)
    ensures t.a[r] < q.p1 && t.b[r] < q.p2 && q.count == 8 ==>
              Scan(t, q, r, r + 1).sum == FourValues(t.c[r], 0) + FourValues(t.c[r], 4)
  {
    hide AggregateValue;
    assert Scan(t, q, r, r) == Totals(0, 0, 0);
    var v := t.c[r];
    RowSumWritten(v);
    if IsInt32(v) { FirstAggregateIsPlain(v); }
  }

  function FourValues(value: int, k: nat): int
    requires k <= 4
  {
    AggregateValue(value, k) + AggregateValue(value, k + 1)
    + AggregateValue(value, k + 2) + AggregateValue(value, k + 3)
  }

  lemma {:induction false} RowSumWritten(value: int)
    ensures RowSum(value, 1) == AggregateValue(value, 0)
    ensures RowSum(value, 4) == FourValues(value, 0)
    ensures RowSum(value, 8) == FourValues(value, 0) + FourValues(value, 4)
  {
    hide AggregateValue;
    assert RowSum(value, 1) == AggregateValue(value, 0);
    assert RowSum(value, 2) == AggregateValue(value, 0) + AggregateValue(value, 1);
    assert RowSum(value, 4) == RowSum(value, 2) + AggregateValue(value, 2) + AggregateValue(value, 3);
    assert RowSum(value, 6) == RowSum(value, 4) + AggregateValue(value, 4) + AggregateValue(value, 5);
    assert RowSum(value, 8) == RowSum(value, 6) + AggregateValue(value, 6) + AggregateValue(value, 7);
  }

  /** The rows lo..hi whose first key, or both keys, are below the thresholds. */
  ghost function RowsBelow(t: Columns, q: Query, lo: nat, hi: nat, both: bool): (r: set<nat>)
    requires t.HasRows(|t.a|) && lo <= hi <= |t.a|
  {
    set r: nat | lo <= r < hi && t.a[r] < q.p1 && (both ==> t.b[r] < q.p2)
  }

  /** The survivor counts are the numbers of such rows. */
  lemma {:induction false} ScanCountsRows(t: Columns, q: Query, lo: nat, hi: nat)
    requires t.HasRows(|t.a|) && q.count <= 8 && lo <= hi <= |t.a|
    ensures Scan(t, q, lo, hi).afterA == |set r: nat | lo <= r < hi && t.a[r] < q.p1|
    ensures Scan(t, q, lo, hi).afterB == |set r: nat | lo <= r < hi && t.a[r] < q.p1 && t.b[r] < q.p2|
    decreases hi
  {
    assert RowsBelow(t, q, lo, hi, false) == set r: nat | lo <= r < hi && t.a[r] < q.p1;
    assert RowsBelow(t, q, lo, hi, true) == set r: nat | lo <= r < hi && t.a[r] < q.p1 && t.b[r] < q.p2;
    if lo < hi {
      ScanCountsRows(t, q, lo, hi - 1);
      RowsBelowGrow(t, q, lo, hi - 1, false);
      RowsBelowGrow(t, q, lo, hi - 1, true);
      assert RowsBelow(t, q, lo, hi - 1, false) == set r: nat | lo <= r < hi - 1 && t.a[r] < q.p1;
      assert RowsBelow(t, q, lo, hi - 1, true) == set r: nat | lo <= r < hi - 1 && t.a[r] < q.p1 && t.b[r] < q.p2;
    } else {
      assert RowsBelow(t, q, lo, hi, false) == {} && RowsBelow(t, q, lo, hi, true) == {};
    }
  }

  lemma {:induction false} RowsBelowGrow(t: Columns, q: Query, lo: nat, hi: nat, both: bool)
    requires t.HasRows(|t.a|) && lo <= hi < |t.a|
    ensures |RowsBelow(t, q, lo, hi + 1, both)|
         == |RowsBelow(t, q, lo, hi, both)| + if t.a[hi] < q.p1 && (both ==> t.b[hi] < q.p2) then 1 else 0
  {
    var before, after := RowsBelow(t, q, lo, hi, both), RowsBelow(t, q, lo, hi + 1, both);
    var more := if t.a[hi] < q.p1 && (both ==> t.b[hi] < q.p2) then {hi} else {};
    assert forall r: nat :: r in after <==> r in before || r in more;
    assert after == before + more && hi !in before;
  }

  lemma {:induction false} WholeScanCountsRows(t: Columns, q: Query)
    requires t.HasRows(|t.a|) && q.count <= 8
    ensures Scan(t, q, 0, |t.a|).afterA == |set r: nat | r < |t.a| && t.a[r] < q.p1|
    ensures Scan(t, q, 0, |t.a|).afterB == |set r: nat | r < |t.a| && t.a[r] < q.p1 && t.b[r] < q.p2|
  {
    ScanCountsRows(t, q, 0, |t.a|);
    assert (set r: nat | r < |t.a| && t.a[r] < q.p1) == set r: nat | 0 <= r < |t.a| && t.a[r] < q.p1;
    assert (set r: nat | r < |t.a| && t.a[r] < q.p1 && t.b[r] < q.p2)
        == set r: nat | 0 <= r < |t.a| && t.a[r] < q.p1 && t.b[r] < q.p2;
  }

  // --- scalar executions ---

  datatype Outcome<T> = Ok(value: T) | InvalidArgument | Invalid

  /** The innermost loop shared by the scalar executions. */
  method AddAggregates(sum: int, value: int, count: nat) returns (r: int)
    requires count <= 8
    ensures r == sum + RowSum(value, count)
  {
    r := sum;
    for aggregate := 0 to count
      invariant r == sum + RowSum(value, aggregate)
    {
      r := r + AggregateValue(value, aggregate);
    }
  }

  /** One row of a scalar execution. */
  method AddRow(before: Totals, t: Columns, q: Query, row: nat) returns (r: Totals)
    requires t.HasRows(|t.a|) && q.count <= 8 && row < |t.a|
    ensures r == before.Plus(Scan(t, q, row, row + 1))
  {
    r := before;
    if t.a[row] < q.p1 {
      r := r.(afterA := r.afterA + 1);
      if t.b[row] < q.p2 {
        var sum := AddAggregates(r.sum, t.c[row], q.count);
        r := r.(afterB := r.afterB + 1, sum := sum);
      }
    }
    assert Scan(t, q, row, row) == Totals(0, 0, 0);
  }

  /** The scalar reference, batch by batch; an empty batch size is refused. */
  method RunScalar(t: Columns, q: Query, batchRows: nat) returns (r: Outcome<Totals>)
    requires t.HasRows(|t.a|) && q.Supported()
    ensures r == if batchRows == 0 then Invalid else Ok(Scan(t, q, 0, |t.a|))
    ensures r.Ok? ==> r.value.afterA == |set r: nat | r < |t.a| && t.a[r] < q.p1|
    ensures r.Ok? ==> r.value.afterB == |set r: nat | r < |t.a| && t.a[r] < q.p1 && t.b[r] < q.p2|
  {
    WholeScanCountsRows(t, q);
    if batchRows == 0 {
      return Invalid;
    }
    var total := Totals(0, 0, 0);
    var offset := 0;
    while offset < |t.a|
      invariant total == Scan(t, q, 0, if offset <= |t.a| then offset else |t.a|)
    {
      var rows := if batchRows < |t.a| - offset then batchRows else |t.a| - offset;
      for i := 0 to rows
        invariant total == Scan(t, q, 0, offset + i)
      {
        ScanSplits(t, q, 0, offset + i, offset + i + 1);
        total := AddRow(total, t, q, offset + i);
      }
      offset := offset + batchRows;
    }
    return Ok(total);
  }

  /** expected_for */
  method ExpectedFor(t: Columns, q: Query) returns (r: Outcome<Totals>)
    requires t.HasRows(|t.a|)
    ensures r == if q.count !in {1, 4, 8} then InvalidArgument else Ok(Scan(t, q, 0, |t.a|))
    ensures r.Ok? ==> r.value.afterA == |set r: nat | r < |t.a| && t.a[r] < q.p1|
    ensures r.Ok? ==> r.value.afterB == |set r: nat | r < |t.a| && t.a[r] < q.p1 && t.b[r] < q.p2|
  {
    if q.Supported() { WholeScanCountsRows(t, q); }
    if q.count != 1 && q.count != 4 && q.count != 8 {
      return InvalidArgument;
    }
    var total := Totals(0, 0, 0);
    for row := 0 to |t.a|
      invariant total == Scan(t, q, 0, row)
    {
      ScanSplits(t, q, 0, row, row + 1);
      total := AddRow(total, t, q, row);
    }
    return Ok(total);
  }

  /** expected_sum_for */
  method ExpectedSumFor(t: Columns, q: Query) returns (r: Outcome<int>)
    ensures r == if q.count !in {1, 4, 8} || !t.HasRows(|t.a|) then InvalidArgument else Ok(Scan(t, q, 0, |t.a|).sum)
  {
    if q.count != 1 && q.count != 4 && q.count != 8 {
      return InvalidArgument;
    }
    if |t.a| != |t.b| || |t.a| != |t.c| {
      return InvalidArgument;
    }
    var sum := 0;
    for row := 0 to |t.a|
      invariant sum == Scan(t, q, 0, row).sum
    {
      if t.a[row] < q.p1 && t.b[row] < q.p2 {
        sum := AddAggregates(sum, t.c[row], q.count);
      }
    }
    return Ok(sum);
  }
}
