/** make_dataset: rows marked by an order, columns filled around the thresholds, and the selectivities
    hit exactly. research/intermediate-repr-src/src/datasets.cpp. */
module Dataset {
  import opened SplitMix
  import opened Permutations
  import opened RowOrders
  import opened Aggregates

  datatype Scenario = Scenario(relationRows: nat, selectivityA: nat, selectivityB: nat,
                               distribution: Distribution, seed: Word, p1: int, p2: int)

  datatype Data = Data(columns: Columns, expectedSum: int, activeAfterA: nat, activeAfterB: nat)

  // --- marking ---

  /** Rows below n whose mark is at least `level`. */
  function CountMarked(marks: seq<nat>, level: nat, n: nat): nat
    requires n <= |marks|
  {
    if n == 0 then 0 else CountMarked(marks, level, n - 1) + if marks[n - 1] >= level then 1 else 0
  }

  lemma {:induction false} MarkingCounts(marks: seq<nat>, level: nat, r: nat, mark: nat, n: nat)
    requires r < |marks| && n <= |marks|
    ensures CountMarked(marks[r := mark], level, n)
         == CountMarked(marks, level, n)
            + if r < n then (if mark >= level then 1 else 0) - (if marks[r] >= level then 1 else 0) else 0
    decreases n
  {
    if n > 0 { MarkingCounts(marks, level, r, mark, n - 1); }
  }

  /** The first activeA rows of the order are marked 1 or 2, the first activeB of them 2. */
  ghost predicate MarkedBy(marks: seq<nat>, order: seq<nat>, activeA: nat, activeB: nat)
    requires activeB <= activeA <= |order|
  {
    forall r :: 0 <= r < |marks| ==>
      && (marks[r] != 0 <==> r in order[..activeA])
      && (marks[r] == 2 <==> r in order[..activeB])
      && marks[r] <= 2
  }

  /** One marking loop over a prefix of the order, raising marks from below `mark` to `mark`. */
  method Mark(marks: array<nat>, order: seq<nat>, active: nat, mark: nat)
    requires IsPermutation(order, marks.Length) && active <= |order| && 1 <= mark <= 2
    requires forall r :: 0 <= r < marks.Length ==> marks[r] < mark
    requires forall r :: 0 <= r < active ==> marks[order[r]] == mark - 1
    modifies marks
    ensures forall r :: 0 <= r < marks.Length ==> marks[r] == if r in order[..active] then mark else old(marks[r])
    ensures CountMarked(marks[..], mark, marks.Length) == active
    ensures forall level :: 1 <= level < mark ==>
              CountMarked(marks[..], level, marks.Length) == old(CountMarked(marks[..], level, marks.Length))
  {
    PermutationIsDistinct(order, marks.Length);
    ghost var start := marks[..];
    NoneAtLevel(start, mark, marks.Length);
    for i := 0 to active
      invariant forall r :: 0 <= r < marks.Length ==> marks[r] == if r in order[..i] then mark else start[r]
      invariant CountMarked(marks[..], mark, marks.Length) == i
      invariant forall level :: 1 <= level < mark ==>
                  CountMarked(marks[..], level, marks.Length) == CountMarked(start, level, marks.Length)
    {
      ghost var before := marks[..];
      var row := order[i];
      assert row !in order[..i];
      marks[row] := mark;
      assert marks[..] == before[row := mark];
      assert order[..i + 1] == order[..i] + [row];
      MarkingCounts(before, mark, row, mark, marks.Length);
      if mark == 2 { MarkingCounts(before, 1, row, mark, marks.Length); }
    }
  }

  lemma {:induction false} NoneAtLevel(marks: seq<nat>, level: nat, n: nat)
    requires n <= |marks| && forall r :: 0 <= r < |marks| ==> marks[r] < level
    ensures CountMarked(marks, level, n) == 0
  {
    if n > 0 { NoneAtLevel(marks, level, n - 1); }
  }

  /** The two marking loops. */
  method MarkMembership(order: seq<nat>, rows: nat, activeA: nat, activeB: nat) returns (marks: array<nat>)
    requires IsPermutation(order, rows) && activeB <= activeA <= rows
    ensures fresh(marks) && marks.Length == rows
    ensures MarkedBy(marks[..], order, activeA, activeB)
    ensures CountMarked(marks[..], 1, rows) == activeA && CountMarked(marks[..], 2, rows) == activeB
  {
    marks := new nat[rows](_ => 0);
    Mark(marks, order, activeA, 1);
    ghost var first := marks[..];
    forall r | 0 <= r < activeB
      ensures marks[order[r]] == 1
    {
      assert order[r] == order[..activeA][r];
    }
    Mark(marks, order, activeB, 2);
    forall r | 0 <= r < rows && r in order[..activeB]
      ensures r in order[..activeA]
    {
      assert order[..activeB] == order[..activeA][..activeB];
    }
  }

  // --- filling ---

  /** A value on the passing side of the threshold, or one beyond it, at a distance drawn below 1024. */
  function Around(threshold: int, passes: bool, drawn: Word): (v: int)
    ensures passes <==> v < threshold
    ensures threshold - 1024 <= v <= threshold + 1024
    ensures (if v < threshold then threshold - v else v - threshold) == 1 + drawn % 1024
  {
    var noise := drawn % 1024;
    if passes then threshold - 1 - noise else threshold + 1 + noise
  }

  /** A nonzero value between -1000 and 1000. */
  function Valued(drawn: Word): (v: int)
    ensures -1000 <= v <= 1000 && v != 0
    ensures v == drawn % 2001 - 1000 || (drawn % 2001 == 1000 && v == 1)
  {
    var value := drawn % 2001 - 1000;
    if value == 0 then 1 else value
  }

  /** Row r of the columns, from the generator state `state` reached after ordering: three draws a row. */
  ghost predicate RowIsDrawn(a: int, b: int, c: int, mark: nat, r: nat, state: Word, p1: int, p2: int) {
    && a == Around(p1, mark != 0, Output(state, 3 * r))
    && b == Around(p2, mark == 2, Output(state, 3 * r + 1))
    && c == Valued(Output(state, 3 * r + 2))
  }

  ghost predicate AreDrawn(t: Columns, marks: seq<nat>, n: nat, state: Word, p1: int, p2: int)
    requires |t.a| == |t.b| == |t.c| == |marks| && n <= |marks|
  {
    forall r :: 0 <= r < n ==> RowIsDrawn(t.a[r], t.b[r], t.c[r], marks[r], r, state, p1, p2)
  }

  /** The scan of drawn columns counts the marks. */
  lemma {:induction false} ScanCountsMarks(t: Columns, marks: seq<nat>, state: Word, q: Query, n: nat)
    requires |t.a| == |t.b| == |t.c| == |marks| && n <= |marks| && q.count <= 8
    requires AreDrawn(t, marks, n, state, q.p1, q.p2) && forall r :: 0 <= r < |marks| ==> marks[r] <= 2
    ensures Scan(t, q, 0, n).afterA == CountMarked(marks, 1, n)
    ensures Scan(t, q, 0, n).afterB == CountMarked(marks, 2, n)
    decreases n
  {
    if n > 0 { ScanCountsMarks(t, marks, state, q, n - 1); }
  }

  /** The columns and running totals after rows 0..row. */
  method FillColumns(marks: array<nat>, rows: nat, p1: int, p2: int, random: Generator) returns (d: Data)
    requires marks.Length == rows && forall r :: 0 <= r < rows ==> marks[r] <= 2
    modifies random
    ensures d.columns.HasRows(rows)
    ensures AreDrawn(d.columns, marks[..], rows, old(random.state), p1, p2)
    ensures Totals(d.expectedSum, d.activeAfterA, d.activeAfterB) == Scan(d.columns, Query(p1, p2, 1), 0, rows)
  {
    var t := Columns([], [], []);
    var total := Totals(0, 0, 0);
    ghost var start := random.state;
    ghost var m := marks[..];
    ghost var q := Query(p1, p2, 1);
    for row := 0 to rows
      invariant t.HasRows(row) && marks[..] == m
      invariant random.state == Walk(start, 3 * row)
      invariant AreDrawn(t, m[..row], row, start, p1, p2)
      invariant total == Scan(t, q, 0, row)
    {
      var a, b, c := DrawRow(random, marks[row], p1, p2, row, start);
      var next := Extend(t, a, b, c);
      DrawnExtends(t, next, m, row, start, p1, p2);
      ScanExtends(t, next, q, row);
      total := AddDrawnRow(total, a, b, c, p1, p2);
      t := next;
    }
    assert m[..rows] == m;
    d := Data(t, total.sum, total.afterA, total.afterB);
  }

  /** The three draws of one row. */
  method DrawRow(random: Generator, mark: nat, p1: int, p2: int, ghost row: nat, ghost start: Word) returns (a: int,
      b: int, c: int)
    requires random.state == Walk(start, 3 * row)
    modifies random
    ensures RowIsDrawn(a, b, c, mark, row, start, p1, p2)
    ensures random.state == Walk(start, 3 * (row + 1))
  {
    hide Output;
    hide Advance;
    hide Draw;
    var drawnA := DrawAt(random, start, 3 * row);
    var drawnB := DrawAt(random, start, 3 * row + 1);
    a := Around(p1, mark != 0, drawnA);
    b := Around(p2, mark == 2, drawnB);
    var drawnC := DrawAt(random, start, 3 * row + 2);
    c := Valued(drawnC);
  }

  /** The generator's n-th number since state `start`. */
  method DrawAt(random: Generator, ghost start: Word, ghost n: nat) returns (r: Word)
    requires random.state == Walk(start, n)
    modifies random
    ensures r == Output(start, n) && random.state == Walk(start, n + 1)
  {
    r := random.Next();
  }

  /** The running totals. */
  method AddDrawnRow(before: Totals, a: int, b: int, c: int, p1: int, p2: int) returns (r: Totals)
    ensures r == before.Plus(Totals(if a < p1 && b < p2 then c else 0,
                                    if a < p1 then 1 else 0,
                                    if a < p1 && b < p2 then 1 else 0))
  {
    r := before;
    if a < p1 {
      r := r.(afterA := r.afterA + 1);
      if b < p2 {
        r := r.(afterB := r.afterB + 1, sum := r.sum + c);
      }
    }
  }

  lemma {:induction false} DrawnExtends(t: Columns, next: Columns, marks: seq<nat>, row: nat, start: Word, p1: int,
      p2: int)
    requires t.HasRows(row) && row < |marks| && AreDrawn(t, marks[..row], row, start, p1, p2)
    requires next.HasRows(row + 1) && next == Extend(t, next.a[row], next.b[row], next.c[row])
    requires RowIsDrawn(next.a[row], next.b[row], next.c[row], marks[row], row, start, p1, p2)
    ensures AreDrawn(next, marks[..row + 1], row + 1, start, p1, p2)
  {
    forall r | 0 <= r < row + 1
      ensures RowIsDrawn(next.a[r], next.b[r], next.c[r], marks[..row + 1][r], r, start, p1, p2)
    {
      if r < row {
        assert RowIsDrawn(t.a[r], t.b[r], t.c[r], marks[..row][r], r, start, p1, p2);
      }
    }
  }

  function Extend(t: Columns, a: int, b: int, c: int): Columns {
    Columns(t.a + [a], t.b + [b], t.c + [c])
  }

  lemma {:induction false} ScanIgnoresLaterRows(t: Columns, next: Columns, q: Query, n: nat, lo: nat)
    requires t.HasRows(|t.a|) && next.HasRows(|next.a|) && lo <= n <= |t.a| <= |next.a| && q.count <= 8
    requires forall r :: 0 <= r < |t.a| ==> next.a[r] == t.a[r] && next.b[r] == t.b[r] && next.c[r] == t.c[r]
    ensures Scan(next, q, lo, n) == Scan(t, q, lo, n)
    decreases n
  {
    if lo < n { ScanIgnoresLaterRows(t, next, q, n - 1, lo); }
  }

  lemma {:induction false} ScanExtends(t: Columns, next: Columns, q: Query, n: nat)
    requires t.HasRows(n) && next.HasRows(n + 1) && q.count == 1
    requires next == Extend(t, next.a[n], next.b[n], next.c[n]) && IsInt32(next.c[n])
    ensures Scan(next, q, 0, n + 1)
         == Scan(t, q, 0, n).Plus(Totals(if q.Passes(next, n) then next.c[n] else 0,
                                         if q.PassesA(next, n) then 1 else 0,
                                         if q.Passes(next, n) then 1 else 0))
  {
    ScanIgnoresLaterRows(t, next, q, n, 0);
    FirstAggregateIsPlain(next.c[n]);
    assert RowSum(next.c[n], 1) == RowSum(next.c[n], 0) + AggregateValue(next.c[n], 0);
  }

  // --- the generator ---

  /** The thresholds for which no drawn value leaves the 32-bit range. */
  predicate ThresholdIsSafe(p: int) { -0x8000_0000 + 1024 <= p <= 0x7fff_ffff - 1024 }

  /** Some draw leaves the 32-bit range exactly when the threshold is not safe. */
  lemma {:induction false} SafeThresholdIff(p: int)
    ensures ThresholdIsSafe(p) <==> forall passes: bool, drawn: Word :: IsInt32(Around(p, passes, drawn))
  {
    if !ThresholdIsSafe(p) {
      assert !IsInt32(Around(p, true, 1023)) || !IsInt32(Around(p, false, 1023));
    }
  }

  /** What the generator promises of a dataset. */
  ghost predicate HitsSelectivities(d: Data, s: Scenario) {
    && d.columns.HasRows(s.relationRows) && d.columns.AreInt32(s.relationRows)
    && d.activeAfterA == RoundedCount(s.relationRows, s.selectivityA)
    && d.activeAfterB == RoundedCount(d.activeAfterA, s.selectivityB)
    && Totals(d.expectedSum, d.activeAfterA, d.activeAfterB)
       == Scan(d.columns, Query(s.p1, s.p2, 1), 0, s.relationRows)
    && forall r :: 0 <= r < s.relationRows ==> -1000 <= d.columns.c[r] <= 1000 && d.columns.c[r] != 0
  }

  /** Which rows pass: the first filter keeps the first rows of the order, both filters the first of those. */
  ghost predicate FollowsOrder(d: Data, s: Scenario) {
    var order := Order(s.relationRows, s.distribution, s.seed);
    && d.columns.HasRows(s.relationRows) && d.activeAfterB <= d.activeAfterA <= |order|
    && forall r :: 0 <= r < s.relationRows ==>
         && (d.columns.a[r] < s.p1 <==> r in order[..d.activeAfterA])
         && (d.columns.b[r] < s.p2 <==> r in order[..d.activeAfterB])
  }

  /** Row r in terms of the seed's own sequence: the distances of its two keys from their thresholds are one
      more than outputs `at` and `at + 1` modulo 1024, its value is output `at + 2` modulo 2001 less 1000,
      with 1 for 0. */
  ghost predicate RowFromSeed(t: Columns, r: nat, at: nat, s: Scenario)
    requires t.HasRows(s.relationRows) && r < s.relationRows
  {
    && (if t.a[r] < s.p1 then s.p1 - t.a[r] else t.a[r] - s.p1) == 1 + Output(s.seed, at) % 1024
    && (if t.b[r] < s.p2 then s.p2 - t.b[r] else t.b[r] - s.p2) == 1 + Output(s.seed, at + 1) % 1024
    && t.c[r] == if Output(s.seed, at + 2) % 2001 == 1000 then 1 else Output(s.seed, at + 2) % 2001 - 1000
  }

  method MakeDataset(s: Scenario) returns (r: Outcome<Data>)
    requires ThresholdIsSafe(s.p1) && ThresholdIsSafe(s.p2)
    ensures r == InvalidArgument <==> s.selectivityA > 10000 || s.selectivityB > 10000
    ensures !r.Invalid?
    ensures r.Ok? ==> HitsSelectivities(r.value, s) && FollowsOrder(r.value, s)
    ensures r.Ok? ==> forall i :: 0 <= i < s.relationRows ==>
              RowFromSeed(r.value.columns, i, DrawsFor(s.relationRows, s.distribution) + 3 * i, s)
  {
    hide HitsSelectivities;
    hide FollowsOrder;
    hide MarkedBy;
    hide Order;
    hide StateAfterOrder;
    hide DrawsFor;
    hide RowFromSeed;
    if s.selectivityA > 10000 || s.selectivityB > 10000 {
      return InvalidArgument;
    }
    var random := new Generator(s.seed);
    var order := MakeOrder(s.relationRows, s.distribution, random);
    OrderIsPermutation(s.relationRows, s.distribution, s.seed);
    OrderDraws(s.relationRows, s.distribution, s.seed);
    var activeA := RoundedCount(s.relationRows, s.selectivityA);
    var activeB := RoundedCount(activeA, s.selectivityB);
    RoundedCountIsBounded(s.relationRows, s.selectivityA);
    RoundedCountIsBounded(activeA, s.selectivityB);
    var marks := MarkMembership(order, s.relationRows, activeA, activeB);
    MarksAreSmall(marks[..], order, activeA, activeB);
    var d := FillColumns(marks, s.relationRows, s.p1, s.p2, random);
    DatasetKeepsPromises(d, marks[..], order, activeA, activeB, s);
    return Ok(d);
  }

  lemma {:induction false} MarksAreSmall(marks: seq<nat>, order: seq<nat>, activeA: nat, activeB: nat)
    requires activeB <= activeA <= |order| && MarkedBy(marks, order, activeA, activeB)
    ensures forall r :: 0 <= r < |marks| ==> marks[r] <= 2
  {
  }

  lemma {:induction false} DatasetKeepsPromises(d: Data, marks: seq<nat>, order: seq<nat>, activeA: nat, activeB: nat,
      s: Scenario)
    requires ThresholdIsSafe(s.p1) && ThresholdIsSafe(s.p2) && d.columns.HasRows(s.relationRows)
    requires order == Order(s.relationRows, s.distribution, s.seed) && |marks| == s.relationRows
    requires activeA == RoundedCount(s.relationRows, s.selectivityA) && activeB == RoundedCount(activeA, s.selectivityB)
    requires activeB <= activeA <= |order| && MarkedBy(marks, order, activeA, activeB)
    requires CountMarked(marks, 1, s.relationRows) == activeA && CountMarked(marks, 2, s.relationRows) == activeB
    requires var state := Walk(s.seed, DrawsFor(s.relationRows, s.distribution));
             AreDrawn(d.columns, marks, s.relationRows, state, s.p1, s.p2)
    requires Totals(d.expectedSum, d.activeAfterA, d.activeAfterB)
          == Scan(d.columns, Query(s.p1, s.p2, 1), 0, s.relationRows)
    ensures HitsSelectivities(d, s) && FollowsOrder(d, s)
    ensures forall i :: 0 <= i < s.relationRows ==>
              RowFromSeed(d.columns, i, DrawsFor(s.relationRows, s.distribution) + 3 * i, s)
  {
    hide RoundedCount;
    hide AreDrawn;
    hide Scan;
    hide Walk;
    hide Order;
    hide DrawsFor;
    hide RowFromSeed;
    var taken := DrawsFor(s.relationRows, s.distribution);
    var state := Walk(s.seed, taken);
    assert forall r :: 0 <= r < |marks| ==> marks[r] <= 2;
    ScanCountsMarks(d.columns, marks, state, Query(s.p1, s.p2, 1), s.relationRows);
    DrawnKeepsPromises(d.columns, marks, order, activeA, activeB, state, s);
    DrawnFromSeed(d.columns, marks, taken, s);
  }

  lemma {:induction false} DrawnKeepsPromises(t: Columns, marks: seq<nat>, order: seq<nat>, activeA: nat,
      activeB: nat, state: Word, s: Scenario)
    requires ThresholdIsSafe(s.p1) && ThresholdIsSafe(s.p2) && t.HasRows(s.relationRows) && |marks| == s.relationRows
    requires activeB <= activeA <= |order| && MarkedBy(marks, order, activeA, activeB)
    requires AreDrawn(t, marks, s.relationRows, state, s.p1, s.p2)
    ensures t.AreInt32(s.relationRows)
    ensures forall r :: 0 <= r < s.relationRows ==> -1000 <= t.c[r] <= 1000 && t.c[r] != 0
    ensures forall r :: 0 <= r < s.relationRows ==>
              && (t.a[r] < s.p1 <==> r in order[..activeA])
              && (t.b[r] < s.p2 <==> r in order[..activeB])
  {
    forall r | 0 <= r < s.relationRows
      ensures IsInt32(t.a[r]) && IsInt32(t.b[r]) && -1000 <= t.c[r] <= 1000 && t.c[r] != 0
      ensures t.a[r] < s.p1 <==> r in order[..activeA]
      ensures t.b[r] < s.p2 <==> r in order[..activeB]
    {
      assert RowIsDrawn(t.a[r], t.b[r], t.c[r], marks[r], r, state, s.p1, s.p2);
    }
  }

  lemma {:induction false} DrawnFromSeed(t: Columns, marks: seq<nat>, taken: nat, s: Scenario)
    requires t.HasRows(s.relationRows) && |marks| == s.relationRows
    requires AreDrawn(t, marks, s.relationRows, Walk(s.seed, taken), s.p1, s.p2)
    ensures forall i :: 0 <= i < s.relationRows ==> RowFromSeed(t, i, taken + 3 * i, s)
  {
    hide Output;
    hide Walk;
    forall i | 0 <= i < s.relationRows
      ensures RowFromSeed(t, i, taken + 3 * i, s)
    {
      assert RowIsDrawn(t.a[i], t.b[i], t.c[i], marks[i], i, Walk(s.seed, taken), s.p1, s.p2);
      WalkAdds(s.seed, taken, 3 * i);
      WalkAdds(s.seed, taken, 3 * i + 1);
      WalkAdds(s.seed, taken, 3 * i + 2);
    }
  }
}
