/** Co-sorting a table by all of its columns, and the checks a co-sort is accepted by.
    test-sort/benchmarks: cosort_case.hpp, cosort_bench.cpp, datagen/dataset_reference.hpp,
    q0_tune_impl.hpp, bench_q1_baselines.cpp, bench_q2_algorithms.cpp. */
module Cosort {
  import opened Permutations
  import opened RowOrder

  /** A table is a sequence of columns of the same length. */
  type Columns = seq<seq<int>>

  predicate HasRows(columns: Columns, n: nat) {
    forall c :: 0 <= c < |columns| ==> |columns[c]| == n
  }

  function RowOf(columns: Columns, n: nat, r: nat): (row: Row)
    requires HasRows(columns, n) && r < n
    ensures |row| == |columns| && forall c {:trigger row[c]} :: 0 <= c < |columns| ==> row[c] == columns[c][r]
  {
    seq(|columns|, c requires 0 <= c < |columns| => columns[c][r])
  }

  /** The rows of the table, in order. */
  function RowsOf(columns: Columns, n: nat): (rows: seq<Row>)
    requires HasRows(columns, n)
    ensures |rows| == n && forall r {:trigger rows[r]} :: 0 <= r < n ==> rows[r] == RowOf(columns, n, r)
  {
    seq(n, r requires 0 <= r < n => RowOf(columns, n, r))
  }

  /** The rows an index vector selects, in its order. */
  function Selected(columns: Columns, n: nat, index: seq<nat>): (rows: seq<Row>)
    requires HasRows(columns, n) && InRange(index, n)
    ensures |rows| == |index| && RowsHaveWidth(rows, |columns|)
  {
    Pick(RowsOf(columns, n), index)
  }

  /** Applying the index vector to every column. */
  function Image(columns: Columns, n: nat, index: seq<nat>): (image: Columns)
    requires HasRows(columns, n) && InRange(index, n)
    ensures |image| == |columns| && HasRows(image, |index|)
    ensures forall c {:trigger image[c]} :: 0 <= c < |columns| ==> image[c] == Pick(columns[c], index)
  {
    seq(|columns|, c requires 0 <= c < |columns| => Pick(columns[c], index))
  }

  lemma {:induction false} ImageRows(columns: Columns, n: nat, index: seq<nat>)
    requires HasRows(columns, n) && InRange(index, n)
    ensures RowsOf(Image(columns, n, index), |index|) == Selected(columns, n, index)
  {
    var image := Image(columns, n, index);
    forall i | 0 <= i < |index|
      ensures RowOf(image, |index|, i) == RowOf(columns, n, index[i])
    {
      forall c | 0 <= c < |columns|
        ensures RowOf(image, |index|, i)[c] == RowOf(columns, n, index[i])[c]
      {
        assert image[c] == Pick(columns[c], index);
      }
    }
  }

  /** Tables of one width with the same rows are the same. */
  lemma {:induction false} RowsDetermineColumns(a: Columns, b: Columns, n: nat)
    requires HasRows(a, n) && HasRows(b, n) && |a| == |b| && RowsOf(a, n) == RowsOf(b, n)
    ensures a == b
  {
    forall c | 0 <= c < |a|
      ensures a[c] == b[c]
    {
      forall r | 0 <= r < n
        ensures a[c][r] == b[c][r]
      {
        assert RowsOf(a, n)[r] == RowsOf(b, n)[r];
        assert RowOf(a, n, r)[c] == RowOf(b, n, r)[c];
      }
    }
  }

  /** The index vector lists the table's rows in sorted order. */
  ghost predicate SortsTable(columns: Columns, n: nat, ascending: seq<bool>, index: seq<nat>)
    requires HasRows(columns, n) && |ascending| == |columns|
  {
    && IsPermutation(index, n)
    && Sorted(Selected(columns, n, index), ascending)
  }

  // --- the sorted image is unique, so comparing images is an exact test ---

  /** However a sort breaks ties, the columns it produces are the same. */
  lemma {:induction false} SortedImageIsUnique(columns: Columns, n: nat, ascending: seq<bool>, p: seq<nat>, q: seq<nat>)
    requires HasRows(columns, n) && |ascending| == |columns|
    requires SortsTable(columns, n, ascending, p) && SortsTable(columns, n, ascending, q)
    ensures Image(columns, n, p) == Image(columns, n, q)
  {
    PermutationsHaveSameRows(p, q, n);
    PickKeepsRows(RowsOf(columns, n), p, q);
    SortedIsUnique(Selected(columns, n, p), Selected(columns, n, q), ascending);
    ImageRows(columns, n, p);
    ImageRows(columns, n, q);
    RowsDetermineColumns(Image(columns, n, p), Image(columns, n, q), n);
  }

  /** An index vector is a permutation that reproduces the reference image exactly when it sorts the table. */
  lemma {:induction false} ImageTestIsExact(columns: Columns, n: nat, ascending: seq<bool>, reference: Columns,
      q: seq<nat>, p: seq<nat>)
    requires HasRows(columns, n) && |ascending| == |columns|
    requires SortsTable(columns, n, ascending, q) && reference == Image(columns, n, q)
    ensures IsPermutation(p, n) && Image(columns, n, p) == reference <==> SortsTable(columns, n, ascending, p)
  {
    if SortsTable(columns, n, ascending, p) {
      SortedImageIsUnique(columns, n, ascending, p, q);
    }
    if IsPermutation(p, n) && Image(columns, n, p) == reference {
      ImageRows(columns, n, p);
      ImageRows(columns, n, q);
      assert Selected(columns, n, p) == Selected(columns, n, q);
    }
  }

  // --- comparing values only ---

  ghost predicate AcceptsOnlyPermutations(columns: Columns, n: nat, reference: Columns)
    requires HasRows(columns, n)
  {
    forall index: seq<nat> :: |index| == n && InRange(index, n) && Image(columns, n, index) == reference
      ==> IsPermutation(index, n)
  }

  /** Comparing values alone shows that no row was lost exactly when no two rows are equal. */
  lemma {:induction false} ValuesOnlyIsExactIff(columns: Columns, n: nat, ascending: seq<bool>, q: seq<nat>)
    requires HasRows(columns, n) && |ascending| == |columns| && SortsTable(columns, n, ascending, q)
    ensures AcceptsOnlyPermutations(columns, n, Image(columns, n, q)) <==> Distinct(RowsOf(columns, n))
  {
    var rows := RowsOf(columns, n);
    if Distinct(rows) {
      forall index: seq<nat> | |index| == n && InRange(index, n) && Image(columns, n, index) == Image(columns, n, q)
        ensures IsPermutation(index, n)
      {
        ImageRows(columns, n, index);
        ImageRows(columns, n, q);
        assert Pick(rows, index) == Pick(rows, q);
        forall i | 0 <= i < n
          ensures index[i] == q[i]
        {
          assert rows[index[i]] == Pick(rows, index)[i] == Pick(rows, q)[i] == rows[q[i]];
        }
        assert index == q;
      }
    } else {
      var r, s :| 0 <= r < s < n && rows[r] == rows[s];
      var index := DropAndRepeat(columns, n, q, r, s);
      assert !IsPermutation(index, n);
    }
  }

  /** With two equal rows, some accepted index vector drops one and repeats the other. */
  lemma {:induction false} DropAndRepeat(columns: Columns, n: nat, q: seq<nat>, r: nat,
      s: nat) returns (index: seq<nat>)
    requires HasRows(columns, n) && IsPermutation(q, n)
    requires r < n && s < n && r != s && RowsOf(columns, n)[r] == RowsOf(columns, n)[s]
    ensures |index| == n && InRange(index, n)
    ensures Image(columns, n, index) == Image(columns, n, q)
    ensures s !in index && multiset(index)[r] == 2
    ensures !IsPermutation(index, n)
  {
    assert multiset(q)[s] == 1 && multiset(q)[r] == 1;
    var at :| 0 <= at < n && q[at] == s;
    index := q[at := r];
    assert multiset(index) == multiset(q) - multiset{s} + multiset{r};
    ImageRows(columns, n, index);
    ImageRows(columns, n, q);
    var rows := RowsOf(columns, n);
    assert Pick(rows, index) == Pick(rows, q);
    RowsDetermineColumns(Image(columns, n, index), Image(columns, n, q), n);
    assert multiset(index)[s] == 0;
  }

  /** Checking the order alone, on rows taken from the table, pins the image down only when all rows
      are the same: otherwise a constant image is in order and has lost rows. */
  lemma {:induction false} OrderAloneIsExactIff(columns: Columns, n: nat, ascending: seq<bool>, q: seq<nat>)
    requires HasRows(columns, n) && |ascending| == |columns| && SortsTable(columns, n, ascending, q)
    ensures (forall index: seq<nat> ::
               |index| == n && InRange(index, n) && Sorted(Selected(columns, n, index), ascending)
               ==> Image(columns, n, index) == Image(columns, n, q))
       <==> forall r, s :: 0 <= r < n && 0 <= s < n ==> RowsOf(columns, n)[r] == RowsOf(columns, n)[s]
  {
    var rows := RowsOf(columns, n);
    if r, s :| 0 <= r < n && 0 <= s < n && rows[r] != rows[s] {
      var index := seq(n, _ => r);
      forall i, j | 0 <= i < j < n
        ensures !RowLess(Selected(columns, n, index)[j], Selected(columns, n, index)[i], ascending, 0)
      {
        Irreflexive(rows[r], ascending, 0);
      }
      assert multiset(q)[s] == 1;
      var at :| 0 <= at < n && q[at] == s;
      ImageRows(columns, n, index);
      ImageRows(columns, n, q);
      assert Selected(columns, n, index)[at] == rows[r] && Selected(columns, n, q)[at] == rows[s];
      assert Image(columns, n, index) != Image(columns, n, q);
    } else {
      forall index: seq<nat> | |index| == n && InRange(index, n)
        ensures Image(columns, n, index) == Image(columns, n, q)
      {
        ImageRows(columns, n, index);
        ImageRows(columns, n, q);
        assert Selected(columns, n, index) == Selected(columns, n, q);
        RowsDetermineColumns(Image(columns, n, index), Image(columns, n, q), n);
      }
    }
  }

  // --- the checks, as written ---

  /** The first n values of every column. */
  function Firsts(columns: Columns, n: nat): (r: Columns)
    requires forall c :: 0 <= c < |columns| ==> n <= |columns[c]|
    ensures |r| == |columns| && HasRows(r, n)
    ensures forall c {:trigger r[c]} :: 0 <= c < |columns| ==> r[c] == columns[c][..n]
  {
    seq(|columns|, c requires 0 <= c < |columns| => columns[c][..n])
  }

  /** Applying index to every column reproduces as much of the reference as the index is long. */
  ghost predicate Matches(columns: Columns, reference: Columns, index: seq<nat>, n: nat)
    requires HasRows(columns, n) && HasRows(reference, n) && InRange(index, n) && |index| <= n
  {
    Image(columns, n, index) == Firsts(reference, |index|)
  }

  /** The value scan all three checks share. */
  method ImageMatches(columns: Columns, reference: Columns, index: seq<nat>, n: nat) returns (ok: bool)
    requires HasRows(columns, n) && |reference| == |columns| && HasRows(reference, n)
    requires InRange(index, n) && |index| <= n
    ensures ok <==> Matches(columns, reference, index, n)
  {
    ghost var goal := Firsts(reference, |index|);
    for column := 0 to |columns|
      invariant forall c :: 0 <= c < column ==> Pick(columns[c], index) == goal[c]
    {
      for at := 0 to |index|
        invariant forall i :: 0 <= i < at ==> columns[column][index[i]] == reference[column][i]
      {
        if columns[column][index[at]] != reference[column][at] {
          assert Image(columns, n, index)[column][at] != goal[column][at];
          return false;
        }
      }
      assert Pick(columns[column], index) == goal[column];
    }
    assert Image(columns, n, index) == goal;
    return true;
  }

  /** The `seen` loop: true exactly for a bijection on the row numbers. */
  method DeliversEveryRowOnce(index: seq<nat>) returns (ok: bool)
    ensures ok <==> IsPermutation(index, |index|)
  {
    var seen := new bool[|index|](_ => false);
    for k := 0 to |index|
      invariant forall r :: 0 <= r < |index| ==> (seen[r] <==> r in index[..k])
      invariant Distinct(index[..k]) && InRange(index[..k], |index|)
    {
      var at := index[k];
      if at >= seen.Length || seen[at] {
        if at < seen.Length {
          var j :| 0 <= j < k && index[..k][j] == at;
          DuplicateCounts(index, j, k);
          assert multiset(index)[at] != 1;
        }
        return false;
      }
      seen[at] := true;
      assert index[..k + 1] == index[..k] + [at];
    }
    assert index[..|index|] == index;
    DistinctInRangeIsPermutation(index, |index|);
    return true;
  }

  /** An index is accepted exactly when it is a bijection on the numbers of its own entries and applying it
      to every column gives as much of the reference. Any other index is refused before a column is read; a
      bijection longer than the table would be read past the columns' end. */
  method SortedImageOfAPermutation(columns: Columns, reference: Columns, index: seq<nat>, n: nat) returns (ok: bool)
    requires HasRows(columns, n) && |reference| == |columns| && HasRows(reference, n)
    requires IsPermutation(index, |index|) ==> |index| <= n
    ensures ok <==> IsPermutation(index, |index|) && Matches(columns, reference, index, n)
  {
    var once := DeliversEveryRowOnce(index);
    if !once {
      return false;
    }
    ok := ImageMatches(columns, reference, index, n);
  }

  /** The length is not compared: what was accepted is a bijection on all rows that gives the whole reference
      exactly when the index has an entry for every row. The empty index is accepted for any table. */
  lemma {:induction false} AcceptedIsCompleteIff(columns: Columns, reference: Columns, index: seq<nat>, n: nat)
    requires HasRows(columns, n) && |reference| == |columns| && HasRows(reference, n) && |index| <= n
    requires IsPermutation(index, |index|) && Matches(columns, reference, index, n)
    ensures IsPermutation(index, n) && Image(columns, n, index) == reference <==> |index| == n
    ensures IsPermutation([], 0) && Matches(columns, reference, [], n)
  {
    assert Image(columns, n, []) == Firsts(reference, 0);
    if |index| == n {
      forall c | 0 <= c < |reference| ensures Firsts(reference, n)[c] == reference[c] {
        assert reference[c][..n] == reference[c];
      }
      assert Firsts(reference, n) == reference;
    }
  }

  /** Rows left and right agree in the first k columns. */
  ghost predicate Tied(columns: Columns, n: nat, k: nat, left: nat, right: nat)
    requires HasRows(columns, n) && k <= |columns| && left < n && right < n
  {
    forall c :: 0 <= c < k ==> columns[c][left] == columns[c][right]
  }

  /** In every column up to and with the first where they differ, the values of the two rows do not go
      against the column's direction. */
  ghost predicate NotAfter(columns: Columns, n: nat, ascending: seq<bool>, left: nat, right: nat)
    requires HasRows(columns, n) && |ascending| == |columns| && left < n && right < n
  {
    forall k :: 0 <= k < |columns| && Tied(columns, n, k, left, right) ==>
      if ascending[k] then columns[k][left] <= columns[k][right] else columns[k][left] >= columns[k][right]
  }

  /** Every row against every later one. */
  ghost predicate TableInOrder(columns: Columns, n: nat, ascending: seq<bool>)
    requires HasRows(columns, n) && |ascending| == |columns|
  {
    forall r, s :: 0 <= r < s < n ==> NotAfter(columns, n, ascending, r, s)
  }

  /** The comparator in terms of the stored values. */
  lemma {:induction false} RowLessByColumns(columns: Columns, n: nat, ascending: seq<bool>, left: nat, right: nat)
    requires HasRows(columns, n) && |ascending| == |columns| && left < n && right < n
    ensures RowLess(RowOf(columns, n, left), RowOf(columns, n, right), ascending, 0) <==>
            exists k :: 0 <= k < |columns| && Tied(columns, n, k, left, right)
                        && if ascending[k] then columns[k][left] < columns[k][right]
                           else columns[k][left] > columns[k][right]
  {
    hide RowLess;
    hide Tied;
    var x, y := RowOf(columns, n, left), RowOf(columns, n, right);
    forall k | 0 <= k < |columns|
      ensures Tied(columns, n, k, left, right) <==> x[..k] == y[..k]
    {
      TiedIsPrefix(columns, n, k, left, right);
    }
    RowLessIff(x, y, ascending);
  }

  lemma {:induction false} TiedIsPrefix(columns: Columns, n: nat, k: nat, left: nat, right: nat)
    requires HasRows(columns, n) && k <= |columns| && left < n && right < n
    ensures Tied(columns, n, k, left, right) <==> RowOf(columns, n, left)[..k] == RowOf(columns, n, right)[..k]
  {
    var x, y := RowOf(columns, n, left), RowOf(columns, n, right);
    forall c | 0 <= c < k
      ensures x[..k][c] == columns[c][left] && y[..k][c] == columns[c][right]
    {
    }
  }

  /** Sorted rows in terms of the stored values. */
  lemma {:induction false} SortedByColumns(columns: Columns, n: nat, ascending: seq<bool>)
    requires HasRows(columns, n) && |ascending| == |columns|
    ensures Sorted(RowsOf(columns, n), ascending) <==> TableInOrder(columns, n, ascending)
  {
    hide RowLess;
    hide NotAfter;
    var rows := RowsOf(columns, n);
    forall r, s | 0 <= r < s < n
      ensures !RowLess(rows[s], rows[r], ascending, 0) <==> NotAfter(columns, n, ascending, r, s)
    {
      NotAfterByColumns(columns, n, ascending, r, s);
    }
  }

  lemma {:induction false} NotAfterByColumns(columns: Columns, n: nat, ascending: seq<bool>, left: nat, right: nat)
    requires HasRows(columns, n) && |ascending| == |columns| && left < n && right < n
    ensures !RowLess(RowOf(columns, n, right), RowOf(columns, n, left), ascending, 0)
       <==> NotAfter(columns, n, ascending, left, right)
  {
    hide RowLess;
    hide Tied;
    RowLessByColumns(columns, n, ascending, right, left);
    forall k | 0 <= k < |columns|
      ensures Tied(columns, n, k, left, right) <==> Tied(columns, n, k, right, left)
    {
      TiedIsSymmetric(columns, n, k, left, right);
    }
  }

  lemma {:induction false} TiedIsSymmetric(columns: Columns, n: nat, k: nat, left: nat, right: nat)
    requires HasRows(columns, n) && k <= |columns| && left < n && right < n
    ensures Tied(columns, n, k, left, right) <==> Tied(columns, n, k, right, left)
  {
  }

  /** What this says of the first column alone. */
  lemma {:induction false} FirstColumnInOrder(columns: Columns, n: nat, ascending: seq<bool>)
    requires HasRows(columns, n) && |ascending| == |columns| > 0 && TableInOrder(columns, n, ascending)
    ensures ascending[0] ==> forall r, s :: 0 <= r < s < n ==> columns[0][r] <= columns[0][s]
    ensures !ascending[0] ==> forall r, s :: 0 <= r < s < n ==> columns[0][r] >= columns[0][s]
  {
    forall r, s | 0 <= r < s < n
      ensures if ascending[0] then columns[0][r] <= columns[0][s] else columns[0][r] >= columns[0][s]
    {
      assert NotAfter(columns, n, ascending, r, s) && Tied(columns, n, 0, r, s);
    }
  }

  /** The comparator's loop over the columns: true exactly when, in the first column where the two rows
      differ, the left value is smaller and the column ascends, or larger and it descends. */
  method CompareRows(columns: Columns, n: nat, ascending: seq<bool>, left: nat, right: nat) returns (less: bool)
    requires HasRows(columns, n) && |ascending| == |columns| && left < n && right < n
    ensures less == RowLess(RowOf(columns, n, left), RowOf(columns, n, right), ascending, 0)
    ensures less <==> exists k :: 0 <= k < |columns| && Tied(columns, n, k, left, right)
                                  && if ascending[k] then columns[k][left] < columns[k][right]
                                     else columns[k][left] > columns[k][right]
  {
    RowLessByColumns(columns, n, ascending, left, right);
    ghost var x, y := RowOf(columns, n, left), RowOf(columns, n, right);
    for column := 0 to |columns|
      invariant RowLess(x, y, ascending, 0) == RowLess(x, y, ascending, column)
    {
      var a := columns[column][left];
      var b := columns[column][right];
      assert x[column] == a && y[column] == b;
      if a != b {
        return if ascending[column] then a < b else a > b;
      }
    }
    return false;
  }
}
