/** The generator's row orders: rounding to basis points, the Fisher-Yates shuffle, and the three
    match distributions. research/intermediate-repr-src/src/datasets.cpp. */
module RowOrders {
  import opened Words
  import opened SplitMix
  import opened Permutations

  // --- rounded_count ---

  /** (total * bp + 5000) / 10000 in 64-bit unsigned arithmetic. */
  function RoundedCount(total: nat, basisPoints: nat): nat {
    ((total * basisPoints) % MODULUS + 5000) % MODULUS / 10000
  }

  lemma {:induction false} RemainderOfRemainder(x: nat)
    ensures (x % MODULUS + 5000) % MODULUS == (x + 5000) % MODULUS
  {
  }

  /** The 64-bit result is the rounded quotient exactly when the product does not wrap; otherwise it
      is too small. */
  lemma {:induction false} RoundedCountIsExactIff(total: nat, basisPoints: nat)
    ensures RoundedCount(total, basisPoints) <= (total * basisPoints + 5000) / 10000
    ensures RoundedCount(total, basisPoints) == (total * basisPoints + 5000) / 10000
       <==> total * basisPoints + 5000 < 0x1_0000_0000_0000_0000
  {
    RemainderOfRemainder(total * basisPoints);
  }

  /** Without wrap-around the count is within half a row of the exact share, ties going up. */
  lemma {:induction false} RoundedCountIsNearest(total: nat, basisPoints: nat)
    requires total * basisPoints + 5000 < MODULUS
    ensures -5000 < 10000 * RoundedCount(total, basisPoints) - total * basisPoints <= 5000
  {
    RoundedCountIsExactIff(total, basisPoints);
  }

  /** A share of at most 10000 basis points never selects more rows than there are. */
  lemma {:induction false} RoundedCountIsBounded(total: nat, basisPoints: nat)
    requires basisPoints <= 10000
    ensures RoundedCount(total, basisPoints) <= total
  {
    hide RoundedCount;
    RoundedCountIsExactIff(total, basisPoints);
    assert total * basisPoints <= total * 10000;
  }

  // --- the shuffle ---

  function Swap<T>(s: seq<T>, i: nat, j: nat): (r: seq<T>)
    requires i < |s| && j < |s|
    ensures |r| == |s|
  {
    s[i := s[j]][j := s[i]]
  }

  lemma {:induction false} SwapRearranges<T>(s: seq<T>, i: nat, j: nat)
    requires i < |s| && j < |s|
    ensures multiset(Swap(s, i, j)) == multiset(s)
    ensures Swap(s, i, j)[i] == s[j]
    ensures forall k :: 0 <= k < |s| && k != i && k != j ==> Swap(s, i, j)[k] == s[k]
  {
  }

  /** The shuffle from position i - 1 down, with the number drawn at each position given. */
  function Arrange<T>(values: seq<T>, draws: seq<nat>, i: nat): (r: seq<T>)
    requires i <= |values| == |draws| && ValidDraws(draws)
    ensures |r| == |values|
    decreases i
  {
    if i <= 1 then values else Arrange(Swap(values, i - 1, draws[i - 1]), draws, i - 1)
  }

  /** At position j a number from 0 to j is drawn; position 0 draws nothing. */
  ghost predicate ValidDraws(draws: seq<nat>) {
    forall j :: 0 <= j < |draws| ==> draws[j] <= j
  }

  /** The numbers the generator supplies for positions i - 1 down to 1, in that order. */
  function DrawsFrom(state: Word, i: nat): (draws: seq<nat>)
    ensures |draws| == i && ValidDraws(draws)
    decreases i
  {
    if i == 0 then []
    else if i == 1 then [0]
    else DrawsFrom(Advance(state), i - 1) + [Draw(state) % i]
  }

  function StateAfterDraws(state: Word, i: nat): Word
    decreases i
  {
    if i <= 1 then state else StateAfterDraws(Advance(state), i - 1)
  }

  lemma {:induction false} ArrangeIgnoresTail<T>(values: seq<T>, d1: seq<nat>, d2: seq<nat>, i: nat)
    requires i <= |values| == |d1| == |d2| && ValidDraws(d1) && ValidDraws(d2)
    requires forall j :: 0 <= j < i ==> d1[j] == d2[j]
    ensures Arrange(values, d1, i) == Arrange(values, d2, i)
    decreases i
  {
    if i > 1 { ArrangeIgnoresTail(Swap(values, i - 1, d1[i - 1]), d1, d2, i - 1); }
  }

  /** In terms of the generator's own sequence: positions are served from the last down, position j with the
      next number modulo j + 1. */
  lemma {:induction false} DrawnNumbers(state: Word, i: nat, j: nat)
    requires 1 <= j < i
    ensures DrawsFrom(state, i)[j] == Output(state, i - 1 - j) % (j + 1)
    decreases i
  {
    hide Draw;
    hide Advance;
    if j < i - 1 {
      DrawnNumbers(Advance(state), i - 1, j);
      WalkFromNext(state, i - 2 - j);
    }
  }

  lemma {:induction false} WalkFromNext(state: Word, n: nat)
    ensures Walk(Advance(state), n) == Walk(state, n + 1)
  {
    if n > 0 { WalkFromNext(state, n - 1); }
  }

  /** A shuffle of i values draws i - 1 numbers, and none when there is nothing to shuffle. */
  lemma {:induction false} DrawsTaken(state: Word, i: nat)
    ensures StateAfterDraws(state, i) == Walk(state, if i <= 1 then 0 else i - 1)
    decreases i
  {
    hide Advance;
    if i > 1 {
      DrawsTaken(Advance(state), i - 1);
      WalkFromNext(state, i - 2);
    }
  }

  /** The first swap of the shuffle is final: the last position holds the value the first number chose. */
  lemma {:induction false} LastIsChosenFirst<T>(values: seq<T>, draws: seq<nat>, i: nat)
    requires 1 < i <= |values| == |draws| && ValidDraws(draws)
    ensures Arrange(values, draws, i)[i - 1] == values[draws[i - 1]]
  {
    ArrangeKeepsEnd(Swap(values, i - 1, draws[i - 1]), draws, i - 1, i - 1);
  }

  lemma {:induction false} ArrangeKeepsEnd<T>(values: seq<T>, draws: seq<nat>, i: nat, at: nat)
    requires i <= at < |values| == |draws| && ValidDraws(draws)
    ensures Arrange(values, draws, i)[at] == values[at]
    decreases i
  {
    if i > 1 { ArrangeKeepsEnd(Swap(values, i - 1, draws[i - 1]), draws, i - 1, at); }
  }

  /** The result of the shuffle: values arranged by the generator's draws. */
  function Shuffled(values: seq<nat>, state: Word): seq<nat> {
    Arrange(values, DrawsFrom(state, |values|), |values|)
  }

  lemma {:induction false} NextDraw(draws: seq<nat>, state: Word, i: nat)
    requires 1 < i <= |draws| && draws[..i] == DrawsFrom(state, i)
    ensures draws[i - 1] == Draw(state) % i
    ensures draws[..i - 1] == DrawsFrom(Advance(state), i - 1)
  {
    hide Draw;
    hide Advance;
    assert draws[i - 1] == draws[..i][i - 1];
    assert draws[..i - 1] == draws[..i][..i - 1];
  }

  method Shuffle(values: array<nat>, random: Generator)
    modifies values, random
    ensures values[..] == Shuffled(old(values[..]), old(random.state))
    ensures random.state == StateAfterDraws(old(random.state), values.Length)
  {
    hide Draw;
    hide Advance;
    hide DrawsFrom;
    var i := values.Length;
    ghost var draws := DrawsFrom(random.state, values.Length);
    while i > 1
      invariant 0 <= i <= values.Length
      invariant draws[..i] == DrawsFrom(random.state, i)
      invariant Arrange(values[..], draws, i) == Arrange(old(values[..]), draws, values.Length)
      invariant StateAfterDraws(random.state, i) == StateAfterDraws(old(random.state), values.Length)
    {
      ghost var before := values[..];
      NextDraw(draws, random.state, i);
      var drawn := random.Next();
      var other := drawn % i;
      values[i - 1], values[other] := values[other], values[i - 1];
      assert values[..] == Swap(before, i - 1, other);
      i := i - 1;
    }
  }

  lemma {:induction false} ArrangeRearranges<T>(values: seq<T>, draws: seq<nat>, i: nat)
    requires i <= |values| == |draws| && ValidDraws(draws)
    ensures multiset(Arrange(values, draws, i)) == multiset(values)
    decreases i
  {
    if i > 1 {
      SwapRearranges(values, i - 1, draws[i - 1]);
      ArrangeRearranges(Swap(values, i - 1, draws[i - 1]), draws, i - 1);
    }
  }

  lemma {:induction false} ArrangeKeepsRest<T>(values: seq<T>, draws: seq<nat>, i: nat, k: nat)
    requires i <= |values| == |draws| && ValidDraws(draws) && i <= k < |values|
    ensures Arrange(values, draws, i)[k] == values[k]
    decreases i
  {
    if i > 1 { ArrangeKeepsRest(Swap(values, i - 1, draws[i - 1]), draws, i - 1, k); }
  }

  /** Different draws give different arrangements of distinct values. */
  lemma {:induction false} DrawsAreDetermined<T>(values: seq<T>, d1: seq<nat>, d2: seq<nat>, i: nat)
    requires i <= |values| == |d1| == |d2| && ValidDraws(d1) && ValidDraws(d2) && Distinct(values)
    requires Arrange(values, d1, i) == Arrange(values, d2, i)
    ensures forall j :: 0 <= j < i ==> d1[j] == d2[j]
    decreases i
  {
    if i > 1 {
      var v1, v2 := Swap(values, i - 1, d1[i - 1]), Swap(values, i - 1, d2[i - 1]);
      ArrangeKeepsRest(v1, d1, i - 1, i - 1);
      ArrangeKeepsRest(v2, d2, i - 1, i - 1);
      assert values[d1[i - 1]] == values[d2[i - 1]];
      assert d1[i - 1] == d2[i - 1];
      SwapKeepsDistinct(values, i - 1, d1[i - 1]);
      DrawsAreDetermined(v1, d1, d2, i - 1);
    }
  }

  lemma {:induction false} SwapKeepsDistinct<T>(s: seq<T>, i: nat, j: nat)
    requires i < |s| && j < |s| && Distinct(s)
    ensures Distinct(Swap(s, i, j))
  {
  }

  /** Every arrangement of the first i values, the rest in place, is reached by some draws. */
  lemma {:induction false} DrawsExist<T>(values: seq<T>, target: seq<T>, i: nat) returns (draws: seq<nat>)
    requires i <= |values| == |target| && multiset(target) == multiset(values)
    requires forall k :: i <= k < |values| ==> target[k] == values[k]
    ensures |draws| == |values| && ValidDraws(draws)
    ensures Arrange(values, draws, i) == target
    decreases i
  {
    hide Swap;
    if i <= 1 {
      draws := Zeroes(|values|);
      LastValueIsForced(values, target);
    } else {
      var other := FindInFront(values, target, i);
      var swapped := Swap(values, i - 1, other);
      SwapRearranges(values, i - 1, other);
      assert forall k :: i - 1 <= k < |values| ==> target[k] == swapped[k];
      var d := DrawsExist(swapped, target, i - 1);
      draws := d[i - 1 := other];
      ArrangeIgnoresTail(swapped, d, draws, i - 1);
    }
  }

  lemma {:induction false} LastValueIsForced<T>(values: seq<T>, target: seq<T>)
    requires |values| == |target| && multiset(target) == multiset(values)
    requires forall k :: 1 <= k < |values| ==> target[k] == values[k]
    ensures values == target
  {
    if |values| > 0 {
      var rest := values[1..];
      assert rest == target[1..];
      assert values == [values[0]] + rest && target == [target[0]] + rest;
      assert multiset(values) == multiset{values[0]} + multiset(rest);
      assert multiset(target) == multiset{target[0]} + multiset(rest);
      SameSingleton(values[0], target[0], multiset(rest));
    }
  }

  function Zeroes(n: nat): (z: seq<nat>)
    ensures |z| == n && ValidDraws(z)
  {
    seq(n, _ => 0)
  }

  lemma {:induction false} SameSingleton<T>(x: T, y: T, m: multiset<T>)
    requires multiset{x} + m == multiset{y} + m
    ensures x == y
  {
    assert (multiset{x} + m)[x] == (multiset{y} + m)[x];
  }

  /** The target's value at i - 1 sits somewhere in the first i values. */
  lemma {:induction false} FindInFront<T>(values: seq<T>, target: seq<T>, i: nat) returns (other: nat)
    requires 0 < i <= |values| == |target| && multiset(target) == multiset(values)
    requires forall k :: i <= k < |values| ==> target[k] == values[k]
    ensures other < i && values[other] == target[i - 1]
  {
    assert values == values[..i] + values[i..] && target == target[..i] + target[i..];
    assert values[i..] == target[i..];
    assert multiset(values) == multiset(values[..i]) + multiset(values[i..]);
    assert multiset(target) == multiset(target[..i]) + multiset(target[i..]);
    assert multiset(target[..i]) == multiset(target) - multiset(target[i..]);
    assert multiset(values[..i]) == multiset(values) - multiset(values[i..]);
    assert target[i - 1] in target[..i];
    assert target[i - 1] in multiset(values[..i]);
    other :| 0 <= other < i && values[..i][other] == target[i - 1];
  }

  /** Each order of distinct values arises from exactly one sequence of numbers drawn. How often the generator
      supplies a number is another matter: DrawFrequency. */
  lemma {:induction false} EachOrderFromOneDraw<T>(values: seq<T>, target: seq<T>)
    requires Distinct(values) && multiset(target) == multiset(values)
    ensures exists draws: seq<nat> ::
              |draws| == |values| && ValidDraws(draws) && Arrange(values, draws, |values|) == target
    ensures forall d1: seq<nat>, d2: seq<nat> ::
              (|d1| == |d2| == |values| && ValidDraws(d1) && ValidDraws(d2)
               && Arrange(values, d1, |values|) == target && Arrange(values, d2, |values|) == target) ==> d1 == d2
  {
    assert |target| == |multiset(target)| == |multiset(values)| == |values|;
    var draws := DrawsExist(values, target, |values|);
    forall d1: seq<nat>, d2: seq<nat> |
      |d1| == |d2| == |values| && ValidDraws(d1) && ValidDraws(d2)
      && Arrange(values, d1, |values|) == target && Arrange(values, d2, |values|) == target
      ensures d1 == d2
    {
      DrawsAreDetermined(values, d1, d2, |values|);
    }
  }

  // --- how often a number is drawn ---

  /** The words below n that give number d at position i - 1. */
  function WordsDrawing(i: nat, d: nat, n: nat): nat
    requires i > 0
  {
    if n == 0 then 0 else WordsDrawing(i, d, n - 1) + if (n - 1) % i == d then 1 else 0
  }

  lemma {:induction false} NextQuotient(n: nat, i: nat)
    requires i > 0
    ensures if n % i + 1 == i then (n + 1) / i == n / i + 1 && (n + 1) % i == 0
            else (n + 1) / i == n / i && (n + 1) % i == n % i + 1
  {
    var q, r := n / i, n % i;
    assert n == q * i + r;
    if r + 1 == i {
      assert n + 1 == (q + 1) * i + 0;
      DivisionIsUnique(n + 1, i, q + 1, 0);
    } else {
      DivisionIsUnique(n + 1, i, q, r + 1);
    }
  }

  lemma {:induction false} FrequencyBelow(i: nat, d: nat, n: nat)
    requires d < i
    ensures WordsDrawing(i, d, n) == n / i + if d < n % i then 1 else 0
    decreases n
  {
    if n == 0 {
      DivisionIsUnique(0, i, 0, 0);
    } else {
      FrequencyBelow(i, d, n - 1);
      NextQuotient(n - 1, i);
    }
  }

  /** Of the 2^64 words, exactly this many give number d when taken modulo i: the first 2^64 mod i numbers
      come from one word more than the others. */
  lemma {:induction false} DrawFrequency(i: nat, d: nat, words: nat)
    requires d < i && words == MODULUS
    ensures WordsDrawing(i, d, words) == MODULUS / i + if d < MODULUS % i then 1 else 0
  {
    FrequencyBelow(i, d, words);
  }

  /** All numbers at a position are drawn by equally many words exactly when their count divides 2^64. */
  lemma {:induction false} DrawsAreEvenIff(i: nat, words: nat)
    requires i > 0 && words == MODULUS
    ensures (forall d, e :: 0 <= d < i && 0 <= e < i ==> WordsDrawing(i, d, words) == WordsDrawing(i, e, words))
       <==> MODULUS % i == 0
  {
    forall d | 0 <= d < i
      ensures WordsDrawing(i, d, words) == MODULUS / i + if d < MODULUS % i then 1 else 0
    {
      DrawFrequency(i, d, words);
    }
    hide WordsDrawing;
    var rest := MODULUS % i;
    assert rest <= i - 1;
    if rest != 0 {
      assert WordsDrawing(i, 0, words) == MODULUS / i + 1;
      assert WordsDrawing(i, i - 1, words) == MODULUS / i;
    }
  }

  // --- the three orders ---

  datatype Distribution = Random | Clustered | Alternating

  const BLOCK_ROWS := 64

  /** start, start + 2, ... below rows */
  function EveryOther(start: nat, rows: nat): (r: seq<nat>)
    ensures |r| == if start < rows then (rows - start + 1) / 2 else 0
    ensures forall k {:trigger r[k]} :: 0 <= k < |r| ==> r[k] == start + 2 * k
    decreases rows - start
  {
    if start >= rows then [] else [start] + EveryOther(start + 2, rows)
  }

  /** The rows of one block, the last block possibly short. */
  function BlockRows(block: nat, rows: nat): (r: seq<nat>)
    ensures |r| == if (block + 1) * BLOCK_ROWS <= rows then BLOCK_ROWS
                   else if block * BLOCK_ROWS <= rows then rows - block * BLOCK_ROWS else 0
    ensures forall k {:trigger r[k]} :: 0 <= k < |r| ==> r[k] == block * BLOCK_ROWS + k
  {
    var begin := block * BLOCK_ROWS;
    var end := if rows < begin + BLOCK_ROWS then rows else begin + BLOCK_ROWS;
    if begin <= end then seq(end - begin, k => begin + k) else []
  }

  function Expand(blocks: seq<nat>, rows: nat): seq<nat> {
    if blocks == [] then [] else Expand(blocks[..|blocks| - 1], rows) + BlockRows(blocks[|blocks| - 1], rows)
  }

  function BlockCount(rows: nat): nat {
    (rows + BLOCK_ROWS - 1) / BLOCK_ROWS
  }

  /** The order make_order returns from a generator in the given state. */
  function Order(rows: nat, distribution: Distribution, state: Word): seq<nat> {
    match distribution
    case Alternating => EveryOther(0, rows) + EveryOther(1, rows)
    case Clustered => Expand(Shuffled(Identity(BlockCount(rows)), state), rows)
    case Random => Shuffled(Identity(rows), state)
  }

  /** The numbers make_order draws. */
  function DrawsFor(rows: nat, distribution: Distribution): nat {
    match distribution
    case Alternating => 0
    case Clustered => if rows <= 64 then 0 else (rows + 63) / 64 - 1
    case Random => if rows <= 1 then 0 else rows - 1
  }

  lemma {:induction false} OrderDraws(rows: nat, distribution: Distribution, state: Word)
    ensures StateAfterOrder(rows, distribution, state) == Walk(state, DrawsFor(rows, distribution))
    ensures distribution == Alternating ==> StateAfterOrder(rows, distribution, state) == state
    ensures distribution == Clustered && rows > 64 ==>
              StateAfterOrder(rows, distribution, state) == Walk(state, (rows + 63) / 64 - 1)
    ensures distribution == Random && rows > 1 ==> StateAfterOrder(rows, distribution, state) == Walk(state, rows - 1)
  {
    DrawsTaken(state, BlockCount(rows));
    DrawsTaken(state, rows);
  }

  function StateAfterOrder(rows: nat, distribution: Distribution, state: Word): Word {
    match distribution
    case Alternating => state
    case Clustered => StateAfterDraws(state, BlockCount(rows))
    case Random => StateAfterDraws(state, rows)
  }

  method PushEveryOther(order: seq<nat>, start: nat, rows: nat) returns (r: seq<nat>)
    ensures r == order + EveryOther(start, rows)
  {
    r := order;
    var row := start;
    while row < rows
      invariant r + EveryOther(row, rows) == order + EveryOther(start, rows)
    {
      assert r + EveryOther(row, rows) == (r + [row]) + EveryOther(row + 2, rows);
      r := r + [row];
      row := row + 2;
    }
    assert EveryOther(row, rows) == [];
  }

  /** The rows of the listed blocks. */
  method ExpandBlocks(blocks: array<nat>, rows: nat) returns (order: seq<nat>)
    ensures order == Expand(blocks[..], rows)
  {
    hide BlockRows;
    order := [];
    for b := 0 to blocks.Length
      invariant order == Expand(blocks[..b], rows)
    {
      order := order + BlockRows(blocks[b], rows);
      assert blocks[..b + 1][..b] == blocks[..b];
    }
    assert blocks[..blocks.Length] == blocks[..];
  }

  method MakeOrder(rows: nat, distribution: Distribution, random: Generator) returns (order: seq<nat>)
    modifies random
    ensures order == Order(rows, distribution, old(random.state))
    ensures random.state == StateAfterOrder(rows, distribution, old(random.state))
  {
    hide Shuffled;
    hide Expand;
    hide StateAfterDraws;
    order := [];
    if distribution == Alternating {
      order := PushEveryOther(order, 0, rows);
      order := PushEveryOther(order, 1, rows);
      return order;
    }
    if distribution == Clustered {
      var blockCount := (rows + BLOCK_ROWS - 1) / BLOCK_ROWS;
      var blocks := new nat[blockCount](i => i);
      assert blocks[..] == Identity(blockCount);
      Shuffle(blocks, random);
      order := ExpandBlocks(blocks, rows);
      return order;
    }
    var values := new nat[rows](i => i);
    assert values[..] == Identity(rows);
    Shuffle(values, random);
    return values[..];
  }

  // --- every order is a permutation ---

  lemma {:induction false} ExpandAppends(blocks: seq<nat>, front: seq<nat>, last: nat, rows: nat)
    requires |blocks| > 0 && blocks[..|blocks| - 1] == front && blocks[|blocks| - 1] == last
    ensures Expand(blocks, rows) == Expand(front, rows) + BlockRows(last, rows)
  {
  }

  lemma {:induction false} NoBlocksNoRows(rows: nat)
    ensures Expand([], rows) == []
  {
  }

  lemma {:induction false} ExpandConcat(a: seq<nat>, b: seq<nat>, rows: nat)
    ensures Expand(a + b, rows) == Expand(a, rows) + Expand(b, rows)
    decreases |b|
  {
    hide Expand;
    if |b| == 0 {
      assert a + b == a;
      NoBlocksNoRows(rows);
    } else {
      var front, last := b[..|b| - 1], b[|b| - 1];
      ExpandConcat(a, front, rows);
      ExpandAppends(b, front, last, rows);
      assert (a + b)[..|a + b| - 1] == a + front;
      ExpandAppends(a + b, a + front, last, rows);
      assert (Expand(a, rows) + Expand(front, rows)) + BlockRows(last, rows)
          == Expand(a, rows) + (Expand(front, rows) + BlockRows(last, rows));
    }
  }

  lemma {:induction false} ExpandOne(block: nat, rows: nat)
    ensures Expand([block], rows) == BlockRows(block, rows)
  {
    assert [block][..0] == [];
    assert Expand([block][..0], rows) == [];
  }

  lemma {:induction false} ExpandWithout(blocks: seq<nat>, i: nat, rows: nat)
    requires i < |blocks|
    ensures multiset(Expand(blocks, rows))
         == multiset(Expand(Without(blocks, i), rows)) + multiset(BlockRows(blocks[i], rows))
  {
    var a, b := blocks[..i], blocks[i + 1..];
    assert blocks == (a + [blocks[i]]) + b;
    ExpandConcat(a + [blocks[i]], b, rows);
    ExpandConcat(a, [blocks[i]], rows);
    ExpandOne(blocks[i], rows);
    ExpandConcat(a, b, rows);
  }

  /** Expanding the blocks in another order lists the same rows. */
  lemma {:induction false} ExpandRearranged(p: seq<nat>, q: seq<nat>, rows: nat)
    requires multiset(p) == multiset(q)
    ensures multiset(Expand(p, rows)) == multiset(Expand(q, rows))
    decreases |p|
  {
    assert |p| == |multiset(p)| == |multiset(q)| == |q|;
    if |p| > 0 {
      assert p[0] in multiset(q);
      var j :| 0 <= j < |q| && q[j] == p[0];
      WithoutCounts(p, 0);
      WithoutCounts(q, j);
      ExpandRearranged(Without(p, 0), Without(q, j), rows);
      ExpandWithout(p, 0, rows);
      ExpandWithout(q, j, rows);
    }
  }

  lemma {:induction false} ExpandInOrder(n: nat, rows: nat)
    ensures Expand(Identity(n), rows) == Identity(if n * BLOCK_ROWS <= rows then n * BLOCK_ROWS else rows)
    decreases n
  {
    if n > 0 {
      assert Identity(n)[..n - 1] == Identity(n - 1);
      ExpandInOrder(n - 1, rows);
    }
  }

  lemma {:induction false} AlternatingIsPermutation(rows: nat)
    ensures IsPermutation(EveryOther(0, rows) + EveryOther(1, rows), rows)
  {
    DistinctInRangeIsPermutation(EveryOther(0, rows) + EveryOther(1, rows), rows);
  }

  /** make_order returns a permutation of the row numbers for every distribution and seed. */
  lemma {:induction false} OrderIsPermutation(rows: nat, distribution: Distribution, state: Word)
    ensures IsPermutation(Order(rows, distribution, state), rows)
  {
    match distribution {
      case Alternating =>
        AlternatingIsPermutation(rows);
      case Clustered =>
        var n := BlockCount(rows);
        ArrangeRearranges(Identity(n), DrawsFrom(state, n), n);
        ExpandRearranged(Shuffled(Identity(n), state), Identity(n), rows);
        ExpandInOrder(n, rows);
        IdentityIsPermutation(rows);
        RearrangedIsPermutation(Identity(rows), Order(rows, Clustered, state), rows);
      case Random =>
        ArrangeRearranges(Identity(rows), DrawsFrom(state, rows), rows);
        IdentityIsPermutation(rows);
        RearrangedIsPermutation(Identity(rows), Order(rows, Random, state), rows);
    }
  }

  /** In the clustered order every block of 64 rows appears contiguously and in row order. */
  lemma {:induction false} BlocksStayTogether(rows: nat, state: Word, block: nat) returns (at: nat)
    requires 64 * block < rows
    ensures var order := Order(rows, Clustered, state);
            at + |BlockRows(block, rows)| <= |order|
            && order[at..at + |BlockRows(block, rows)|] == BlockRows(block, rows)
    ensures |BlockRows(block, rows)| == if 64 * block + 64 <= rows then 64 else rows - 64 * block
    ensures forall k :: 0 <= k < |BlockRows(block, rows)| ==> BlockRows(block, rows)[k] == 64 * block + k
  {
    hide Expand;
    hide Arrange;
    hide BlockRows;
    var n := BlockCount(rows);
    var blocks := Shuffled(Identity(n), state);
    ArrangeRearranges(Identity(n), DrawsFrom(state, n), n);
    assert Identity(n)[block] == block;
    assert block in multiset(Identity(n));
    assert block in multiset(blocks);
    var i :| 0 <= i < |blocks| && blocks[i] == block;
    var a, b := blocks[..i], blocks[i + 1..];
    assert blocks == (a + [block]) + b;
    ExpandConcat(a + [block], b, rows);
    ExpandConcat(a, [block], rows);
    ExpandOne(block, rows);
    at := |Expand(a, rows)|;
  }

  /** The alternating order: the even rows, then the odd ones, each in row order. */
  lemma {:induction false} AlternatingOrder(rows: nat, state: Word, k: nat)
    requires k < rows
    ensures |Order(rows, Alternating, state)| == rows
    ensures Order(rows, Alternating, state)[k]
         == if k < (rows + 1) / 2 then 2 * k else 2 * (k - (rows + 1) / 2) + 1
  {
  }

  /** The random order: the identity with position j exchanged, from the last down, with the position the
      generator's next number gives modulo j + 1. The first number decides the last row. */
  lemma {:induction false} RandomOrder(rows: nat, state: Word) returns (draws: seq<nat>)
    ensures |draws| == rows && ValidDraws(draws)
    ensures forall j :: 1 <= j < rows ==> draws[j] == Output(state, rows - 1 - j) % (j + 1)
    ensures Order(rows, Random, state) == Arrange(Identity(rows), draws, rows)
    ensures rows > 1 ==> Order(rows, Random, state)[rows - 1] == Output(state, 0) % rows
  {
    hide DrawsFrom;
    hide Output;
    hide Arrange;
    draws := DrawsFrom(state, rows);
    forall j | 1 <= j < rows
      ensures draws[j] == Output(state, rows - 1 - j) % (j + 1)
    {
      DrawnNumbers(state, rows, j);
    }
    if rows > 1 { LastIsChosenFirst(Identity(rows), draws, rows); }
  }
}
