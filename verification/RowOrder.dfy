/** The lexicographic row order with one direction per column, and why a sorted image is unique.
    test-sort/benchmarks/cosort_bench.cpp, run_baseline; bench_q1_baselines.cpp, Lexicographic. */
module RowOrder {
  /** One row: its value in every column. */
  type Row = seq<int>

  /** The comparator's loop from column c on. */
  function RowLess(x: Row, y: Row, ascending: seq<bool>, c: nat): bool
    requires |x| == |y| == |ascending| && c <= |ascending|
    decreases |ascending| - c
  {
    if c == |ascending| then false
    else if x[c] != y[c] then (if ascending[c] then x[c] < y[c] else x[c] > y[c])
    else RowLess(x, y, ascending, c + 1)
  }

  ghost predicate SameFrom(x: Row, y: Row, c: nat)
    requires |x| == |y|
  {
    forall k :: c <= k < |x| ==> x[k] == y[k]
  }

  /** What the comparator means: x goes first when in the first column where the rows differ it has the
      smaller value and that column ascends, or the larger value and that column descends. */
  lemma {:induction false} RowLessIff(x: Row, y: Row, ascending: seq<bool>)
    requires |x| == |y| == |ascending|
    ensures RowLess(x, y, ascending, 0) <==>
            exists k :: 0 <= k < |x| && x[..k] == y[..k] && (if ascending[k] then x[k] < y[k] else x[k] > y[k])
  {
    RowLessFromIff(x, y, ascending, 0);
  }

  lemma {:induction false} RowLessFromIff(x: Row, y: Row, ascending: seq<bool>, c: nat)
    requires |x| == |y| == |ascending| && c <= |ascending| && x[..c] == y[..c]
    ensures RowLess(x, y, ascending, c) <==>
            exists k :: 0 <= k < |x| && x[..k] == y[..k] && (if ascending[k] then x[k] < y[k] else x[k] > y[k])
    decreases |ascending| - c
  {
    if c == |ascending| {
      assert forall k :: 0 <= k < |x| ==> x[k] == x[..c][k] == y[..c][k] == y[k];
    } else if x[c] == y[c] {
      assert x[..c + 1] == x[..c] + [x[c]] && y[..c + 1] == y[..c] + [y[c]];
      RowLessFromIff(x, y, ascending, c + 1);
    } else {
      assert forall k :: 0 <= k < c ==> x[k] == x[..c][k] == y[..c][k] == y[k];
      forall k | c < k < |x|
        ensures x[..k] != y[..k]
      {
        assert x[..k][c] != y[..k][c];
      }
    }
  }

  // --- a strict weak order whose ties are exactly the identical rows ---

  lemma {:induction false} Irreflexive(x: Row, ascending: seq<bool>, c: nat)
    requires |x| == |ascending| && c <= |ascending|
    ensures !RowLess(x, x, ascending, c)
    decreases |ascending| - c
  {
    if c < |ascending| { Irreflexive(x, ascending, c + 1); }
  }

  lemma {:induction false} Transitive(x: Row, y: Row, z: Row, ascending: seq<bool>, c: nat)
    requires |x| == |y| == |z| == |ascending| && c <= |ascending|
    requires RowLess(x, y, ascending, c) && RowLess(y, z, ascending, c)
    ensures RowLess(x, z, ascending, c)
    decreases |ascending| - c
  {
    if x[c] == y[c] && y[c] == z[c] { Transitive(x, y, z, ascending, c + 1); }
  }

  lemma {:induction false} Asymmetric(x: Row, y: Row, ascending: seq<bool>, c: nat)
    requires |x| == |y| == |ascending| && c <= |ascending|
    ensures !(RowLess(x, y, ascending, c) && RowLess(y, x, ascending, c))
    decreases |ascending| - c
  {
    if c < |ascending| && x[c] == y[c] { Asymmetric(x, y, ascending, c + 1); }
  }

  lemma {:induction false} TiesFrom(x: Row, y: Row, ascending: seq<bool>, c: nat)
    requires |x| == |y| == |ascending| && c <= |ascending|
    ensures !RowLess(x, y, ascending, c) && !RowLess(y, x, ascending, c) <==> SameFrom(x, y, c)
    decreases |ascending| - c
  {
    if c < |ascending| {
      TiesFrom(x, y, ascending, c + 1);
      if x[c] == y[c] {
        assert SameFrom(x, y, c) <==> SameFrom(x, y, c + 1);
      }
    }
  }

  lemma {:induction false} TiesAreIdentical(x: Row, y: Row, ascending: seq<bool>)
    requires |x| == |y| == |ascending|
    ensures !RowLess(x, y, ascending, 0) && !RowLess(y, x, ascending, 0) <==> x == y
  {
    TiesFrom(x, y, ascending, 0);
    assert SameFrom(x, y, 0) <==> x == y;
  }

  /** "Not after" is transitive; with TiesAreIdentical this makes ties an equivalence. */
  lemma {:induction false} NotAfterIsTransitive(x: Row, y: Row, z: Row, ascending: seq<bool>)
    requires |x| == |y| == |z| == |ascending|
    requires !RowLess(y, x, ascending, 0) && !RowLess(z, y, ascending, 0)
    ensures !RowLess(z, x, ascending, 0)
  {
    TiesAreIdentical(x, y, ascending);
    TiesAreIdentical(y, z, ascending);
    if RowLess(x, y, ascending, 0) && RowLess(y, z, ascending, 0) {
      Transitive(x, y, z, ascending, 0);
    }
    Asymmetric(x, z, ascending, 0);
    Asymmetric(x, y, ascending, 0);
    Asymmetric(y, z, ascending, 0);
  }

  // --- sorted sequences of rows ---

  ghost predicate RowsHaveWidth(rows: seq<Row>, width: nat) {
    forall i :: 0 <= i < |rows| ==> |rows[i]| == width
  }

  ghost predicate Sorted(rows: seq<Row>, ascending: seq<bool>)
    requires RowsHaveWidth(rows, |ascending|)
  {
    forall i, j :: 0 <= i < j < |rows| ==> !RowLess(rows[j], rows[i], ascending, 0)
  }

  /** Adjacent rows in order. */
  ghost predicate AdjacentSorted(rows: seq<Row>, ascending: seq<bool>)
    requires RowsHaveWidth(rows, |ascending|)
  {
    forall i :: 0 <= i < |rows| - 1 ==> !RowLess(rows[i + 1], rows[i], ascending, 0)
  }

  lemma {:induction false} AdjacentReaches(rows: seq<Row>, ascending: seq<bool>, i: nat, j: nat)
    requires RowsHaveWidth(rows, |ascending|) && AdjacentSorted(rows, ascending) && i < j < |rows|
    ensures !RowLess(rows[j], rows[i], ascending, 0)
    decreases j
  {
    if i < j - 1 {
      AdjacentReaches(rows, ascending, i, j - 1);
      NotAfterIsTransitive(rows[i], rows[j - 1], rows[j], ascending);
    }
  }

  lemma {:induction false} AdjacentSuffices(rows: seq<Row>, ascending: seq<bool>)
    requires RowsHaveWidth(rows, |ascending|)
    ensures AdjacentSorted(rows, ascending) <==> Sorted(rows, ascending)
  {
    if AdjacentSorted(rows, ascending) {
      forall i, j | 0 <= i < j < |rows|
        ensures !RowLess(rows[j], rows[i], ascending, 0)
      {
        AdjacentReaches(rows, ascending, i, j);
      }
    }
  }

  lemma {:induction false} FirstRowsAgree(a: seq<Row>, b: seq<Row>, ascending: seq<bool>)
    requires RowsHaveWidth(a, |ascending|) && RowsHaveWidth(b, |ascending|)
    requires Sorted(a, ascending) && Sorted(b, ascending)
    requires multiset(a) == multiset(b) && |a| > 0 && |b| > 0
    ensures a[0] == b[0]
  {
    assert a[0] in multiset(b) && b[0] in multiset(a);
    var j :| 0 <= j < |b| && b[j] == a[0];
    var i :| 0 <= i < |a| && a[i] == b[0];
    Irreflexive(a[0], ascending, 0);
    assert !RowLess(b[j], b[0], ascending, 0);
    assert !RowLess(a[i], a[0], ascending, 0);
    TiesAreIdentical(a[0], b[0], ascending);
  }

  /** The same rows have only one sorted arrangement. */
  lemma {:induction false} SortedIsUnique(a: seq<Row>, b: seq<Row>, ascending: seq<bool>)
    requires RowsHaveWidth(a, |ascending|) && RowsHaveWidth(b, |ascending|)
    requires Sorted(a, ascending) && Sorted(b, ascending)
    requires multiset(a) == multiset(b)
    ensures a == b
    decreases |a|
  {
    assert |a| == |multiset(a)| == |multiset(b)| == |b|;
    if |a| > 0 {
      FirstRowsAgree(a, b, ascending);
      TailIsSorted(a, ascending);
      TailIsSorted(b, ascending);
      SortedIsUnique(a[1..], b[1..], ascending);
      assert a == [a[0]] + a[1..] && b == [b[0]] + b[1..];
    }
  }

  lemma {:induction false} TailIsSorted(a: seq<Row>, ascending: seq<bool>)
    requires RowsHaveWidth(a, |ascending|) && Sorted(a, ascending) && |a| > 0
    ensures RowsHaveWidth(a[1..], |ascending|) && Sorted(a[1..], ascending)
    ensures multiset(a[1..]) == multiset(a) - multiset{a[0]}
  {
    assert a == [a[0]] + a[1..];
  }
}
