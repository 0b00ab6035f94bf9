/** Producing the sorted image: the reference oracle and the baseline co-sort, and the case object
    that checks results. test-sort/benchmarks: datagen/dataset_reference.hpp, cosort_bench.cpp,
    cosort_case.hpp. */
module BenchCase {
  import opened Permutations
  import opened RowOrder
  import opened Cosort

  // --- a sort with the library's usual contract ---

  /** r goes after every listed row that is not greater. */
  function InsertRow(rows: seq<Row>, ascending: seq<bool>, order: seq<nat>, r: nat): (s: seq<nat>)
    requires RowsHaveWidth(rows, |ascending|) && InRange(order, |rows|) && r < |rows|
    ensures |s| == |order| + 1 && InRange(s, |rows|)
    decreases |order|
  {
    if order == [] then [r]
    else if RowLess(rows[r], rows[order[|order| - 1]], ascending, 0) then
      InsertRow(rows, ascending, order[..|order| - 1], r) + [order[|order| - 1]]
    else order + [r]
  }

  lemma {:induction false} PickAppends(rows: seq<Row>, order: seq<nat>, r: nat)
    requires InRange(order, |rows|) && r < |rows|
    ensures InRange(order + [r], |rows|) && Pick(rows, order + [r]) == Pick(rows, order) + [rows[r]]
  {
  }

  lemma {:induction false} AdjacentAppends(sorted: seq<Row>, x: Row, ascending: seq<bool>)
    requires RowsHaveWidth(sorted, |ascending|) && |x| == |ascending| && AdjacentSorted(sorted, ascending)
    requires |sorted| > 0 ==> !RowLess(x, sorted[|sorted| - 1], ascending, 0)
    ensures RowsHaveWidth(sorted + [x], |ascending|) && AdjacentSorted(sorted + [x], ascending)
  {
  }

  lemma {:induction false} InsertKeepsEntries(rows: seq<Row>, ascending: seq<bool>, order: seq<nat>, r: nat)
    requires RowsHaveWidth(rows, |ascending|) && InRange(order, |rows|) && r < |rows|
    ensures multiset(InsertRow(rows, ascending, order, r)) == multiset(order) + multiset{r}
    decreases |order|
  {
    if |order| > 0 {
      var head, last := order[..|order| - 1], order[|order| - 1];
      assert order == head + [last];
      InsertKeepsEntries(rows, ascending, head, r);
    }
  }

  lemma {:induction false} HeadIsSorted(sorted: seq<Row>, ascending: seq<bool>, n: nat)
    requires RowsHaveWidth(sorted, |ascending|) && AdjacentSorted(sorted, ascending) && n < |sorted|
    ensures RowsHaveWidth(sorted[..n], |ascending|) && AdjacentSorted(sorted[..n], ascending)
    ensures n > 0 ==> !RowLess(sorted[n], sorted[n - 1], ascending, 0)
  {
    if n > 0 { assert !RowLess(sorted[n - 1 + 1], sorted[n - 1], ascending, 0); }
  }

  lemma {:induction false} InsertKeepsOrder(rows: seq<Row>, ascending: seq<bool>, order: seq<nat>, r: nat)
    requires RowsHaveWidth(rows, |ascending|) && InRange(order, |rows|) && r < |rows|
    requires AdjacentSorted(Pick(rows, order), ascending)
    ensures AdjacentSorted(Pick(rows, InsertRow(rows, ascending, order, r)), ascending)
    ensures var s := InsertRow(rows, ascending, order, r);
            s[|order|] == r || (|order| > 0 && s[|order|] == order[|order| - 1])
    decreases |order|
  {
    if |order| > 0 {
      var n := |order| - 1;
      var head, last := order[..n], order[n];
      if RowLess(rows[r], rows[last], ascending, 0) {
        HeadIsSorted(Pick(rows, order), ascending, n);
        assert Pick(rows, head) == Pick(rows, order)[..n];
        InsertKeepsOrder(rows, ascending, head, r);
        Asymmetric(rows[r], rows[last], ascending, 0);
        var s := InsertRow(rows, ascending, head, r);
        AdjacentAppends(Pick(rows, s), rows[last], ascending);
        PickAppends(rows, s, last);
      } else {
        AdjacentAppends(Pick(rows, order), rows[r], ascending);
        PickAppends(rows, order, r);
      }
    }
  }

  function SortRows(rows: seq<Row>, ascending: seq<bool>, order: seq<nat>): (s: seq<nat>)
    requires RowsHaveWidth(rows, |ascending|) && InRange(order, |rows|)
    ensures |s| == |order| && InRange(s, |rows|)
    decreases |order|
  {
    if order == [] then []
    else InsertRow(rows, ascending, SortRows(rows, ascending, order[..|order| - 1]), order[|order| - 1])
  }

  lemma {:induction false} SortRowsSorts(rows: seq<Row>, ascending: seq<bool>, order: seq<nat>)
    requires RowsHaveWidth(rows, |ascending|) && InRange(order, |rows|)
    ensures multiset(SortRows(rows, ascending, order)) == multiset(order)
    ensures AdjacentSorted(Pick(rows, SortRows(rows, ascending, order)), ascending)
    decreases |order|
  {
    if |order| > 0 {
      var head, last := order[..|order| - 1], order[|order| - 1];
      assert order == head + [last];
      SortRowsSorts(rows, ascending, head);
      InsertKeepsEntries(rows, ascending, SortRows(rows, ascending, head), last);
      InsertKeepsOrder(rows, ascending, SortRows(rows, ascending, head), last);
    }
  }

  /** std::sort of row numbers under the lexicographic comparator: only this contract is used. */
  method SortOrder(order: array<nat>, columns: Columns, n: nat, ascending: seq<bool>)
    requires HasRows(columns, n) && |ascending| == |columns| && InRange(order[..], n)
    modifies order
    ensures multiset(order[..]) == multiset(old(order[..]))
    ensures InRange(order[..], n) && Sorted(Selected(columns, n, order[..]), ascending)
    ensures TableInOrder(Image(columns, n, order[..]), order.Length, ascending)
  {
    var sorted := SortRows(RowsOf(columns, n), ascending, order[..]);
    SortRowsSorts(RowsOf(columns, n), ascending, order[..]);
    AdjacentSuffices(Selected(columns, n, sorted), ascending);
    forall i | 0 <= i < order.Length {
      order[i] := sorted[i];
    }
    assert order[..] == sorted;
    ImageRows(columns, n, sorted);
    SortedByColumns(Image(columns, n, sorted), |sorted|, ascending);
  }

  // --- the reference image ---

  /** The image of the table under some sorting permutation; by uniqueness there is just one. */
  ghost predicate IsSortedImage(columns: Columns, n: nat, ascending: seq<bool>, image: Columns)
    requires HasRows(columns, n) && |ascending| == |columns|
  {
    exists q: seq<nat> :: SortsTable(columns, n, ascending, q) && image == Image(columns, n, q)
  }

  lemma {:induction false} SortedImagesAgree(columns: Columns, n: nat, ascending: seq<bool>, a: Columns, b: Columns)
    requires HasRows(columns, n) && |ascending| == |columns|
    requires IsSortedImage(columns, n, ascending, a) && IsSortedImage(columns, n, ascending, b)
    ensures a == b
  {
    var p :| SortsTable(columns, n, ascending, p) && a == Image(columns, n, p);
    var q :| SortsTable(columns, n, ascending, q) && b == Image(columns, n, q);
    SortedImageIsUnique(columns, n, ascending, p, q);
  }

  /** The sorted image in terms of its stored values: each row against every later one, and the first
      column by itself. */
  lemma {:induction false} SortedImageInOrder(columns: Columns, n: nat, ascending: seq<bool>, image: Columns)
    requires HasRows(columns, n) && |ascending| == |columns| && IsSortedImage(columns, n, ascending, image)
    ensures |image| == |columns| && HasRows(image, n) && TableInOrder(image, n, ascending)
    ensures image != [] && ascending[0] ==> forall i, j :: 0 <= i < j < n ==> image[0][i] <= image[0][j]
    ensures image != [] && !ascending[0] ==> forall i, j :: 0 <= i < j < n ==> image[0][i] >= image[0][j]
  {
    hide Sorted;
    hide TableInOrder;
    var q :| SortsTable(columns, n, ascending, q) && image == Image(columns, n, q);
    ImageRows(columns, n, q);
    SortedByColumns(image, n, ascending);
    if |image| > 0 { FirstColumnInOrder(image, n, ascending); }
  }

  datatype Result<T> = Success(value: T) | Failure(message: string)

  method NewOrder(n: nat) returns (order: array<nat>)
    ensures fresh(order) && IsPermutation(order[..], n)
  {
    order := new nat[n](i => i);
    IdentityIsPermutation(n);
    assert order[..] == Identity(n);
  }

  /** tsl_sorted_image: sort row numbers, check that every row is consumed once, gather. The check
      never fires. */
  method SortedImage(source: Columns, n: nat, ascending: seq<bool>) returns (r: Result<Columns>)
    requires HasRows(source, n) && |ascending| == |source| && (source == [] ==> n == 0)
    ensures r.Success? && IsSortedImage(source, n, ascending, r.value)
    ensures |r.value| == |source| && HasRows(r.value, n) && TableInOrder(r.value, n, ascending)
    ensures source != [] && ascending[0] ==> forall i, j :: 0 <= i < j < n ==> r.value[0][i] <= r.value[0][j]
    ensures source != [] && !ascending[0] ==> forall i, j :: 0 <= i < j < n ==> r.value[0][i] >= r.value[0][j]
  {
    var order := NewOrder(n);
    ghost var start := order[..];
    SortOrder(order, source, n, ascending);
    ghost var p := order[..];
    RearrangedIsPermutation(start, p, n);
    PermutationIsDistinct(p, n);
    var seen := new bool[n](_ => false);
    for k := 0 to n
      invariant order[..] == p
      invariant forall r :: 0 <= r < n && seen[r] ==> r in p[..k]
    {
      if seen[order[k]] {
        return Failure("reference order is not a permutation");
      }
      seen[order[k]] := true;
      assert p[..k + 1] == p[..k] + [p[k]];
    }
    var image: Columns := [];
    for column := 0 to |source|
      invariant |image| == column
      invariant order[..] == p
      invariant forall c :: 0 <= c < column ==> image[c] == Pick(source[c], p)
    {
      image := image + [Pick(source[column], order[..])];
    }
    assert image == Image(source, n, p);
    SortedImageInOrder(source, n, ascending, image);
    return Success(image);
  }

  /** tsl_require_ordered: the scan over adjacent rows accepts exactly the sorted images. */
  method RequireOrdered(image: Columns, n: nat, ascending: seq<bool>) returns (ok: bool)
    requires HasRows(image, n) && |ascending| == |image|
    ensures ok <==> Sorted(RowsOf(image, n), ascending)
    ensures ok <==> TableInOrder(image, n, ascending)
    ensures ok && image != [] && ascending[0] ==> forall i, j :: 0 <= i < j < n ==> image[0][i] <= image[0][j]
    ensures ok && image != [] && !ascending[0] ==> forall i, j :: 0 <= i < j < n ==> image[0][i] >= image[0][j]
  {
    SortedByColumns(image, n, ascending);
    if image != [] && TableInOrder(image, n, ascending) { FirstColumnInOrder(image, n, ascending); }
    ghost var rows := RowsOf(image, n);
    AdjacentSuffices(rows, ascending);
    var row := 0;
    while row + 1 < n
      invariant forall i :: 0 <= i < row && i + 1 < n ==> !RowLess(rows[i + 1], rows[i], ascending, 0)
    {
      var after := CompareRows(image, n, ascending, row + 1, row);
      if after {
        assert RowLess(rows[row + 1], rows[row], ascending, 0);
        return false;
      }
      row := row + 1;
    }
    return true;
  }

  // --- the measured case ---

  datatype Verdict = Agrees | Differs(column: nat, row: nat) | NeverProduced

  /** (column, row) is the first place, column by column, where the two images differ. */
  ghost predicate FirstDifference(a: Columns, b: Columns, n: nat, column: nat, row: nat)
    requires HasRows(a, n) && HasRows(b, n) && |a| == |b|
  {
    && column < |a| && row < n
    && a[..column] == b[..column]
    && a[column][..row] == b[column][..row]
    && a[column][row] != b[column][row]
  }

  /** tsl_first_difference */
  method CompareImages(a: Columns, b: Columns, n: nat) returns (v: Verdict)
    requires HasRows(a, n) && HasRows(b, n) && |a| == |b|
    ensures v == Agrees <==> a == b
    ensures !v.NeverProduced?
    ensures v.Differs? ==> FirstDifference(a, b, n, v.column, v.row)
  {
    for column := 0 to |a|
      invariant a[..column] == b[..column]
    {
      if a[column] != b[column] {
        ghost var k: nat :| k < n && a[column][k] != b[column][k];
        var row := 0;
        while row < n && a[column][row] == b[column][row]
          invariant row <= k && a[column][..row] == b[column][..row]
        {
          row := row + 1;
        }
        return Differs(column, row);
      }
    }
    assert a == a[..|a|] && b == b[..|a|];
    return Agrees;
  }

  class Case {
    const pristine: Columns
    const n: nat
    const ascending: seq<bool>
    const reference: Columns
    var work: Columns
    var index: seq<nat>

    ghost predicate Valid()
      reads this
    {
      && HasRows(pristine, n) && |ascending| == |pristine| && (pristine == [] ==> n == 0)
      && IsSortedImage(pristine, n, ascending, reference)
      && |work| == |pristine| && HasRows(work, n)
    }

    constructor (pristine: Columns, n: nat, ascending: seq<bool>, reference: Columns)
      requires HasRows(pristine, n) && |ascending| == |pristine| && (pristine == [] ==> n == 0)
      requires IsSortedImage(pristine, n, ascending, reference)
      ensures Valid() && work == pristine && index == []
      ensures this.pristine == pristine && this.n == n && this.ascending == ascending && this.reference == reference
    {
      this.pristine, this.n, this.ascending, this.reference := pristine, n, ascending, reference;
      work, index := pristine, [];
    }

    /** Restores the input. */
    method Reset()
      requires Valid()
      modifies `work
      ensures Valid() && work == pristine
    {
      for column := 0 to |work|
        invariant Valid() && work[..column] == pristine[..column]
      {
        work := work[column := pristine[column]];
      }
      assert work == work[..|work|] && pristine == pristine[..|work|];
    }

    /** Exact oracle of the direct sorters. */
    method Verify() returns (v: Verdict)
      requires Valid()
      ensures v == Agrees <==> work == reference
      ensures v.Differs? ==> |reference| == |work| && HasRows(reference, n)
                             && FirstDifference(work, reference, n, v.column, v.row)
    {
      v := CompareImages(work, reference, n);
    }

    /** Oracle of the indirect sorter: compares the values the index selects. */
    method VerifyIndex() returns (v: Verdict)
      requires Valid() && InRange(index, n)
      ensures v == NeverProduced <==> |index| != n
      ensures |index| == n ==> (v == Agrees <==> Image(work, n, index) == reference)
      ensures v.Differs? ==> v.column < |work| == |reference| && HasRows(reference, n) && v.row < n == |index|
                             && work[v.column][index[v.row]] != reference[v.column][v.row]
    {
      if |index| != n {
        return NeverProduced;
      }
      for column := 0 to |work|
        invariant forall c :: 0 <= c < column ==> Pick(work[c], index) == reference[c]
      {
        for row := 0 to |index|
          invariant forall i :: 0 <= i < row ==> work[column][index[i]] == reference[column][i]
        {
          var selected := work[column][index[row]];
          if selected != reference[column][row] {
            assert Image(work, n, index)[column][row] != reference[column][row];
            return Differs(column, row);
          }
        }
        assert Pick(work[column], index) == reference[column];
      }
      assert Image(work, n, index) == reference;
      return Agrees;
    }

    /** One iteration of run_baseline: the columns end as the reference image, all moved by one
        sorting permutation. */
    method RunBaseline()
      requires Valid()
      modifies `work
      ensures Valid() && work == reference
      ensures |ascending| == |work| && HasRows(work, n) && TableInOrder(work, n, ascending)
      ensures work != [] && ascending[0] ==> forall i, j :: 0 <= i < j < n ==> work[0][i] <= work[0][j]
      ensures work != [] && !ascending[0] ==> forall i, j :: 0 <= i < j < n ==> work[0][i] >= work[0][j]
    {
      Reset();
      var order := NewOrder(n);
      ghost var start := order[..];
      SortOrder(order, work, n, ascending);
      ghost var p := order[..];
      RearrangedIsPermutation(start, p, n);
      for column := 0 to |work|
        invariant Valid() && order[..] == p
        invariant forall c :: 0 <= c < |work| ==>
                    work[c] == if c < column then Pick(pristine[c], p) else pristine[c]
      {
        var gather := new int[n](_ => 0);
        ghost var before := work;
        for row := 0 to n
          invariant order[..] == p && work == before
          invariant forall i :: 0 <= i < row ==> gather[i] == pristine[column][p[i]]
        {
          gather[row] := work[column][order[row]];
        }
        assert gather[..] == Pick(pristine[column], p);
        work := work[column := gather[..]];
      }
      assert work == Image(pristine, n, p);
      SortedImagesAgree(pristine, n, ascending, work, reference);
      SortedImageInOrder(pristine, n, ascending, work);
    }
  }
}
