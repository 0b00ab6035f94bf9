/** Permutations of row numbers, and the counting facts behind checking one with a `seen` array. */
module Permutations {

  /** Every row number below n occurs exactly once in index, and nothing else does. */
  ghost predicate IsPermutation(index: seq<nat>, n: nat) {
    && |index| == n
    && InRange(index, n)
    && (forall r :: 0 <= r < n ==> multiset(index)[r] == 1)
  }

  ghost predicate Distinct<T>(s: seq<T>) {
    forall i, j :: 0 <= i < j < |s| ==> s[i] != s[j]
  }

  ghost predicate InRange(index: seq<nat>, n: nat) {
    forall i :: 0 <= i < |index| ==> index[i] < n
  }

  lemma {:induction false} DistinctCounts<T>(s: seq<T>, x: T)
    requires Distinct(s)
    ensures multiset(s)[x] == if x in s then 1 else 0
    decreases |s|
  {
    if |s| > 0 {
      var head, last := s[..|s| - 1], s[|s| - 1];
      assert s == head + [last];
      assert last !in head;
      DistinctCounts(head, x);
    }
  }

  lemma {:induction false} DuplicateCounts<T>(s: seq<T>, i: nat, j: nat)
    requires i < j < |s| && s[i] == s[j]
    ensures multiset(s)[s[i]] >= 2
  {
    assert s == s[..j] + s[j..];
    assert s[i] in s[..j] && s[j] in s[j..];
    assert multiset(s) == multiset(s[..j]) + multiset(s[j..]);
  }

  function Below(n: nat): (r: set<nat>)
    ensures forall v: nat :: v in r <==> v < n
  {
    if n == 0 then {} else Below(n - 1) + {n - 1}
  }

  lemma {:induction false} BelowHasSize(n: nat)
    ensures |Below(n)| == n
  {
    if n > 0 {
      BelowHasSize(n - 1);
    }
  }

  function Elements(s: seq<nat>): (r: set<nat>)
    ensures forall v: nat :: v in r <==> v in s
  {
    set v: nat | v in s
  }

  lemma {:induction false} DistinctHasSize(s: seq<nat>)
    requires Distinct(s)
    ensures |Elements(s)| == |s|
    decreases |s|
  {
    if |s| > 0 {
      var head, last := s[..|s| - 1], s[|s| - 1];
      assert s == head + [last];
      assert last !in head;
      DistinctHasSize(head);
      assert Elements(s) == Elements(head) + {last};
    } else {
      assert Elements(s) == {};
    }
  }

  lemma {:induction false} SubsetOfSameSize(a: set<nat>, b: set<nat>)
    requires a <= b && |a| == |b|
    ensures a == b
  {
    assert b == (b - a) + a;
    assert |b| == |b - a| + |a|;
  }

  /** The pigeonhole step: n distinct row numbers below n are all of them. */
  lemma {:induction false} DistinctInRangeIsPermutation(index: seq<nat>, n: nat)
    requires |index| == n && Distinct(index) && InRange(index, n)
    ensures IsPermutation(index, n)
  {
    DistinctHasSize(index);
    BelowHasSize(n);
    SubsetOfSameSize(Elements(index), Below(n));
    forall r | 0 <= r < n
      ensures multiset(index)[r] == 1
    {
      assert r in Below(n);
      DistinctCounts(index, r);
    }
  }

  lemma {:induction false} PermutationIsDistinct(index: seq<nat>, n: nat)
    requires IsPermutation(index, n)
    ensures Distinct(index) && InRange(index, n)
  {
    forall i, j | 0 <= i < j < |index|
      ensures index[i] != index[j]
    {
      if index[i] == index[j] {
        DuplicateCounts(index, i, j);
      }
    }
  }

  /** Two permutations of the same rows are permutations of each other. */
  lemma {:induction false} PermutationsHaveSameRows(p: seq<nat>, q: seq<nat>, n: nat)
    requires IsPermutation(p, n) && IsPermutation(q, n)
    ensures multiset(p) == multiset(q)
  {
    PermutationIsDistinct(p, n);
    PermutationIsDistinct(q, n);
    forall x: nat
      ensures multiset(p)[x] == multiset(q)[x]
    {
      DistinctCounts(p, x);
      DistinctCounts(q, x);
      if x < n {
        assert multiset(p)[x] == 1 && multiset(q)[x] == 1;
      }
    }
  }

  lemma {:induction false} RearrangedIsPermutation(p: seq<nat>, q: seq<nat>, n: nat)
    requires IsPermutation(p, n) && multiset(q) == multiset(p)
    ensures IsPermutation(q, n)
  {
    assert |q| == |multiset(q)| == |multiset(p)| == |p|;
    forall i | 0 <= i < |q|
      ensures q[i] < n
    {
      assert q[i] in multiset(q);
      assert q[i] in multiset(p);
      assert q[i] in p;
    }
  }

  /** std::iota */
  function Identity(n: nat): (r: seq<nat>)
    ensures |r| == n && forall i {:trigger r[i]} :: 0 <= i < n ==> r[i] == i
  {
    seq(n, i => i)
  }

  lemma {:induction false} IdentityIsPermutation(n: nat)
    ensures IsPermutation(Identity(n), n)
  {
    DistinctInRangeIsPermutation(Identity(n), n);
  }

  // --- images ---

  function Pick<T>(rows: seq<T>, index: seq<nat>): (r: seq<T>)
    requires InRange(index, |rows|)
    ensures |r| == |index| && forall i {:trigger r[i]} :: 0 <= i < |index| ==> r[i] == rows[index[i]]
  {
    seq(|index|, i requires 0 <= i < |index| => rows[index[i]])
  }

  function Without<T>(s: seq<T>, i: nat): seq<T>
    requires i < |s|
  {
    s[..i] + s[i + 1..]
  }

  lemma {:induction false} WithoutCounts<T>(s: seq<T>, i: nat)
    requires i < |s|
    ensures multiset(Without(s, i)) == multiset(s) - multiset{s[i]}
    ensures multiset(s) == multiset(Without(s, i)) + multiset{s[i]}
  {
    assert s == s[..i] + [s[i]] + s[i + 1..];
  }

  /** Index vectors with the same entries pick the same rows, up to order. */
  lemma {:induction false} PickKeepsRows<T>(rows: seq<T>, p: seq<nat>, q: seq<nat>)
    requires InRange(p, |rows|) && InRange(q, |rows|) && multiset(p) == multiset(q)
    ensures multiset(Pick(rows, p)) == multiset(Pick(rows, q))
    decreases |p|
  {
    assert |p| == |multiset(p)| == |multiset(q)| == |q|;
    if |p| > 0 {
      assert p[0] in multiset(q);
      var j :| 0 <= j < |q| && q[j] == p[0];
      WithoutCounts(p, 0);
      WithoutCounts(q, j);
      PickKeepsRows(rows, Without(p, 0), Without(q, j));
      assert Pick(rows, Without(p, 0)) == Without(Pick(rows, p), 0);
      assert Pick(rows, Without(q, j)) == Without(Pick(rows, q), j);
      WithoutCounts(Pick(rows, p), 0);
      WithoutCounts(Pick(rows, q), j);
    } else {
      assert Pick(rows, p) == Pick(rows, q);
    }
  }
}
