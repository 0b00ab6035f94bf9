/** The SplitMix64 generator: research/intermediate-repr-src/src/datasets.cpp, class splitmix64. */
module SplitMix {
  import opened Words

  const BITS := 64
  const MODULUS := 0x1_0000_0000_0000_0000
  const GAMMA := 0x9e3779b97f4a7c15
  const FIRST_FACTOR := 0xbf58476d1ce4e5b9
  const SECOND_FACTOR := 0x94d049bb133111eb

  /** std::uint64_t. */
  type Word = w: nat | w < 0x1_0000_0000_0000_0000

  lemma {:induction false} ModulusIsPow2()
    ensures Pow2(BITS) == MODULUS
  {
    assert Pow2(4) == 16;
    Pow2Adds(4, 4);
    assert Pow2(8) == 256;
    Pow2Adds(8, 8);
    assert Pow2(16) == 65536;
    Pow2Adds(16, 16);
    assert Pow2(32) == 0x1_0000_0000;
    Pow2Adds(32, 32);
  }

  function Times(x: Word, factor: Word): Word {
    x * factor % MODULUS
  }

  /** value ^ (value >> k) */
  function XorShift(x: Word, k: nat): (y: Word) {
    XorShiftIsWord(x, k);
    Xor(x, Shr(x, k))
  }

  lemma {:induction false} XorShiftIsWord(x: Word, k: nat)
    ensures Xor(x, Shr(x, k)) < MODULUS
  {
    ModulusIsPow2();
    ShrBelow(x, k, BITS);
    XorBelow(x, Shr(x, k), BITS);
  }

  function Advance(state: Word): Word {
    (state + GAMMA) % MODULUS
  }

  /** The three-stage finaliser applied to the advanced state. */
  function Mix(state: Word): Word {
    XorShift(Times(XorShift(Times(XorShift(state, 30), FIRST_FACTOR), 27), SECOND_FACTOR), 31)
  }

  function Draw(state: Word): Word {
    Mix(Advance(state))
  }

  /** The three distances the finaliser shifts by are these divisions. */
  lemma {:induction false} ShiftsAreDivisions(x: nat)
    ensures Shr(x, 30) == x / 0x4000_0000 && Shr(x, 27) == x / 0x800_0000 && Shr(x, 31) == x / 0x8000_0000
  {
    assert Pow2(9) == 512;
    Pow2Adds(9, 9);
    Pow2Adds(18, 9);
    assert Pow2(27) == 0x800_0000;
    assert Pow2(30) == 8 * Pow2(27) && Pow2(31) == 16 * Pow2(27);
    hide Pow2;
    ShrIsDivision(x, 30);
    ShrIsDivision(x, 27);
    ShrIsDivision(x, 31);
  }

  /** One draw in numbers: the state moves on first, and the new state is mixed. */
  lemma {:induction false} DrawInNumbers(state: Word)
    ensures Advance(state) == (state + 0x9e3779b97f4a7c15) % 0x1_0000_0000_0000_0000
    ensures var s := Advance(state);
            var first := Xor(s, s / 0x4000_0000) * 0xbf58476d1ce4e5b9 % 0x1_0000_0000_0000_0000;
            var second := Xor(first, first / 0x800_0000) * 0x94d049bb133111eb % 0x1_0000_0000_0000_0000;
            Draw(state) == Xor(second, second / 0x8000_0000)
  {
    hide Xor;
    hide Shr;
    var s := Advance(state);
    ShiftsAreDivisions(s);
    var first := Times(XorShift(s, 30), FIRST_FACTOR);
    ShiftsAreDivisions(first);
    ShiftsAreDivisions(Times(XorShift(first, 27), SECOND_FACTOR));
  }

  class Generator {
    var state: Word

    constructor (seed: Word)
      ensures state == seed
    {
      state := seed;
    }

    method Next() returns (r: Word)
      modifies this
      ensures state == Advance(old(state))
      ensures r == Draw(old(state))
      ensures state == (old(state) + 0x9e3779b97f4a7c15) % 0x1_0000_0000_0000_0000
      ensures var first := Xor(state, state / 0x4000_0000) * 0xbf58476d1ce4e5b9 % 0x1_0000_0000_0000_0000;
              var second := Xor(first, first / 0x800_0000) * 0x94d049bb133111eb % 0x1_0000_0000_0000_0000;
              r == Xor(second, second / 0x8000_0000)
      ensures Unmix(r) == state
    {
      DrawInNumbers(state);
      MixIsBijective(Advance(state));
      state := (state + 0x9e3779b97f4a7c15) % MODULUS;
      var value := state;
      value := Times(XorShift(value, 30), 0xbf58476d1ce4e5b9);
      value := Times(XorShift(value, 27), 0x94d049bb133111eb);
      r := XorShift(value, 31);
    }
  }

  // --- every stage is invertible, hence so is the finaliser ---

  const GAMMA_INVERSE := 0xf1de83e19937733d
  const FIRST_INVERSE := 0x96de1b173f119089
  const SECOND_INVERSE := 0x319642b2d24d8ec3

  /** Undoes XorShift by k when 3k >= 64. */
  function UnXorShift(y: Word, k: nat): Word {
    XorShiftIsWord(y, k);
    ModulusIsPow2();
    ShrBelow(y, 2 * k, BITS);
    XorBelow(Xor(y, Shr(y, k)), Shr(y, 2 * k), BITS);
    Xor(Xor(y, Shr(y, k)), Shr(y, 2 * k))
  }

  lemma {:induction false} UnXorShiftInverts(x: Word, k: nat)
    requires 3 * k >= BITS
    ensures UnXorShift(XorShift(x, k), k) == x
    ensures XorShift(UnXorShift(x, k), k) == x
  {
    ModulusIsPow2();
    var a, b := Shr(x, k), Shr(x, 2 * k);
    ShrTwice(x, k, k);
    ShrTwice(x, 2 * k, k);
    ShrTwice(x, k, 2 * k);
    ShrBelow(x, 3 * k, BITS);
    // forwards, then back
    var y := Xor(x, a);
    ShrOfXor(x, a, k);
    assert Shr(y, k) == Xor(a, b);
    ShrOfXor(x, a, 2 * k);
    XorZero(b);
    assert Shr(y, 2 * k) == b;
    Cancels(x, a, b);
    // back, then forwards
    var z := Xor(Xor(x, a), b);
    ShrOfXor(Xor(x, a), b, k);
    XorZero(Xor(a, b));
    assert Shr(z, k) == Xor(a, b);
    CancelsBack(x, a, b);
  }

  lemma {:induction false} Cancels(x: nat, a: nat, b: nat)
    ensures Xor(Xor(Xor(x, a), Xor(a, b)), b) == x
  {
    XorAssociates(Xor(x, a), Xor(a, b), b);
    XorAssociates(a, b, b);
    XorSelf(b);
    XorZero(a);
    XorAssociates(x, a, a);
    XorSelf(a);
    XorZero(x);
  }

  lemma {:induction false} CancelsBack(x: nat, a: nat, b: nat)
    ensures Xor(Xor(Xor(x, a), b), Xor(a, b)) == x
  {
    XorAssociates(x, a, b);
    XorAssociates(x, Xor(a, b), Xor(a, b));
    XorSelf(Xor(a, b));
    XorZero(x);
  }

  /** Multiplication modulo 2^64 is undone by the factor's inverse. */
  lemma {:induction false} TimesInverts(x: Word, factor: Word, inverse: Word)
    requires factor * inverse % MODULUS == 1
    ensures Times(Times(x, factor), inverse) == x
  {
    var q, t := x * factor / MODULUS, factor * inverse / MODULUS;
    var r := Times(x, factor);
    assert x * factor == q * MODULUS + r;
    assert factor * inverse == t * MODULUS + 1;
    calc {
      r * inverse;
      (x * factor - q * MODULUS) * inverse;
      x * (factor * inverse) - q * MODULUS * inverse;
      x * (t * MODULUS + 1) - q * MODULUS * inverse;
      (x * t - q * inverse) * MODULUS + x;
    }
    DivisionIsUnique(r * inverse, MODULUS, x * t - q * inverse, x);
  }

  lemma {:induction false} Regroup(h: nat, p: nat)
    ensures 2 * h * p == h * (2 * p)
  {
  }

  /** An inverse modulo p becomes one modulo 2p, as it is or with p added. */
  lemma {:induction false} NextBit(factor: nat, x: nat, t: nat, p: nat) returns (inverse: nat, times: nat)
    requires factor % 2 == 1 && factor * x == t * p + 1
    ensures inverse == x || inverse == x + p
    ensures factor * inverse == times * (2 * p) + 1
  {
    if t % 2 == 0 {
      inverse, times := x, t / 2;
      assert t == 2 * times;
    } else {
      inverse, times := x + p, (t + factor) / 2;
      calc {
        factor * (x + p);
        factor * x + factor * p;
        t * p + factor * p + 1;
        (t + factor) * p + 1;
      }
    }
    Regroup(times, p);
  }

  /** An odd factor's inverse modulo 2^k, one bit at a time. */
  lemma {:induction false} OddHasInverse(factor: nat, k: nat) returns (inverse: nat, times: nat)
    requires factor % 2 == 1 && k >= 1
    ensures inverse < Pow2(k) && factor * inverse == times * Pow2(k) + 1
    decreases k
  {
    if k == 1 {
      inverse, times := 1, factor / 2;
    } else {
      var x, t := OddHasInverse(factor, k - 1);
      inverse, times := NextBit(factor, x, t, Pow2(k - 1));
    }
  }

  lemma {:induction false} EvenIsNotOne(half: nat)
    ensures 2 * half % MODULUS != 1
  {
  }

  /** A factor can be divided out modulo 2^64 exactly when it is odd. */
  lemma {:induction false} InvertibleIffOdd(factor: Word)
    ensures (exists inverse: Word :: factor * inverse % MODULUS == 1) <==> factor % 2 == 1
  {
    if factor % 2 == 1 {
      ModulusIsPow2();
      hide Pow2;
      var inverse, times := OddHasInverse(factor, BITS);
      DivisionIsUnique(factor * inverse, MODULUS, times, 1);
    } else {
      var h := factor / 2;
      forall inverse: Word
        ensures factor * inverse % MODULUS != 1
      {
        assert factor == 2 * h && 2 * h * inverse == 2 * (h * inverse);
        EvenIsNotOne(h * inverse);
      }
    }
  }

  /** Multiplication by any odd factor modulo 2^64 is a bijection on words. */
  lemma {:induction false} OddTimesIsBijective(factor: Word) returns (inverse: Word)
    requires factor % 2 == 1
    ensures forall x: Word {:trigger Times(x, factor)} :: Times(Times(x, factor), inverse) == x
    ensures forall x: Word {:trigger Times(x, inverse)} :: Times(Times(x, inverse), factor) == x
  {
    InvertibleIffOdd(factor);
    inverse :| factor * inverse % MODULUS == 1;
    assert inverse * factor % MODULUS == 1;
    forall x: Word
      ensures Times(Times(x, factor), inverse) == x && Times(Times(x, inverse), factor) == x
    {
      TimesInverts(x, factor, inverse);
      TimesInverts(x, inverse, factor);
    }
  }

  lemma {:induction false} FactorsAreInvertible()
    ensures FIRST_FACTOR * FIRST_INVERSE % MODULUS == 1
    ensures SECOND_FACTOR * SECOND_INVERSE % MODULUS == 1
    ensures GAMMA * GAMMA_INVERSE % MODULUS == 1
    ensures FIRST_INVERSE * FIRST_FACTOR % MODULUS == 1
    ensures SECOND_INVERSE * SECOND_FACTOR % MODULUS == 1
  {
  }

  function Unmix(output: Word): Word {
    UnXorShift(Times(UnXorShift(Times(UnXorShift(output, 31), SECOND_INVERSE), 27), FIRST_INVERSE), 30)
  }

  /** The finaliser is a bijection on 64-bit words, with the inverse written out. */
  lemma {:induction false} MixIsBijective(state: Word)
    ensures Unmix(Mix(state)) == state
    ensures Mix(Unmix(state)) == state
  {
    FactorsAreInvertible();
    var s1 := XorShift(state, 30);
    var m1 := Times(s1, FIRST_FACTOR);
    var s2 := XorShift(m1, 27);
    var m2 := Times(s2, SECOND_FACTOR);
    UnXorShiftInverts(state, 30);
    UnXorShiftInverts(m1, 27);
    UnXorShiftInverts(m2, 31);
    TimesInverts(s1, FIRST_FACTOR, FIRST_INVERSE);
    TimesInverts(s2, SECOND_FACTOR, SECOND_INVERSE);
    var u1 := UnXorShift(state, 31);
    var n1 := Times(u1, SECOND_INVERSE);
    var u2 := UnXorShift(n1, 27);
    var n2 := Times(u2, FIRST_INVERSE);
    UnXorShiftInverts(state, 31);
    UnXorShiftInverts(n1, 27);
    UnXorShiftInverts(n2, 30);
    TimesInverts(u1, SECOND_INVERSE, SECOND_FACTOR);
    TimesInverts(u2, FIRST_INVERSE, FIRST_FACTOR);
  }

  // --- the walk over the states ---

  /** The state after n calls. */
  function Walk(seed: Word, n: nat): Word {
    if n == 0 then seed else Advance(Walk(seed, n - 1))
  }

  lemma {:induction false} WalkClosedForm(seed: Word, n: nat)
    ensures Walk(seed, n) == (seed + n * GAMMA) % MODULUS
  {
    if n > 0 {
      WalkClosedForm(seed, n - 1);
      var a := seed + (n - 1) * GAMMA;
      var q, r := a / MODULUS, a % MODULUS;
      var q', r' := (r + GAMMA) / MODULUS, (r + GAMMA) % MODULUS;
      assert seed + n * GAMMA == a + GAMMA == (q + q') * MODULUS + r';
      DivisionIsUnique(seed + n * GAMMA, MODULUS, q + q', r');
    }
  }

  /** The walk has full period: two positions hold one state iff they differ by a multiple of 2^64. */
  lemma {:induction false} FullPeriod(seed: Word, i: nat, j: nat)
    requires i <= j
    ensures Walk(seed, i) == Walk(seed, j) <==> (j - i) % MODULUS == 0
  {
    WalkClosedForm(seed, i);
    WalkClosedForm(seed, j);
    var a, b := seed + i * GAMMA, seed + j * GAMMA;
    var d := j - i;
    assert b - a == d * GAMMA;
    if d % MODULUS == 0 {
      var m := d / MODULUS;
      assert d == m * MODULUS;
      assert b == (a / MODULUS + m * GAMMA) * MODULUS + a % MODULUS;
      DivisionIsUnique(b, MODULUS, a / MODULUS + m * GAMMA, a % MODULUS);
    }
    if a % MODULUS == b % MODULUS {
      var m := b / MODULUS - a / MODULUS;
      assert d * GAMMA == m * MODULUS;
      var t := GAMMA * GAMMA_INVERSE / MODULUS;
      FactorsAreInvertible();
      assert GAMMA * GAMMA_INVERSE == t * MODULUS + 1;
      calc {
        d * (t * MODULUS + 1);
        d * (GAMMA * GAMMA_INVERSE);
        d * GAMMA * GAMMA_INVERSE;
        m * MODULUS * GAMMA_INVERSE;
      }
      assert d == (m * GAMMA_INVERSE - d * t) * MODULUS + 0;
      DivisionIsUnique(d, MODULUS, m * GAMMA_INVERSE - d * t, 0);
    }
  }

  /** The n-th number (from zero) a generator seeded with `seed` returns. */
  function Output(seed: Word, n: nat): Word {
    Draw(Walk(seed, n))
  }

  lemma {:induction false} WalkAdds(seed: Word, m: nat, n: nat)
    ensures Walk(Walk(seed, m), n) == Walk(seed, m + n)
    ensures Output(Walk(seed, m), n) == Output(seed, m + n)
  {
    hide Draw;
    hide Advance;
    if n > 0 { WalkAdds(seed, m, n - 1); }
  }

  /** The n-th number in terms of the seed alone. */
  lemma {:induction false} OutputInNumbers(seed: Word, n: nat)
    ensures var s := (seed + (n + 1) * 0x9e3779b97f4a7c15) % 0x1_0000_0000_0000_0000;
            var first := Xor(s, s / 0x4000_0000) * 0xbf58476d1ce4e5b9 % 0x1_0000_0000_0000_0000;
            var second := Xor(first, first / 0x800_0000) * 0x94d049bb133111eb % 0x1_0000_0000_0000_0000;
            Output(seed, n) == Xor(second, second / 0x8000_0000)
  {
    hide Xor;
    hide Draw;
    WalkClosedForm(seed, n + 1);
    DrawInNumbers(Walk(seed, n));
  }

  /** No output repeats within a period, and the outputs have exactly that period. */
  lemma {:induction false} OutputsAreDistinct(seed: Word, i: nat, j: nat)
    requires i <= j
    ensures Output(seed, i) == Output(seed, j) <==> (j - i) % MODULUS == 0
  {
    hide Mix;
    hide Unmix;
    MixIsBijective(Walk(seed, i + 1));
    MixIsBijective(Walk(seed, j + 1));
    FullPeriod(seed, i, j);
    FullPeriod(seed, i + 1, j + 1);
  }

  /** Every 64-bit word is the first output of exactly one seed. */
  lemma {:induction false} EverySeedHasItsOutput(output: Word)
    ensures exists seed: Word :: Draw(seed) == output
    ensures forall s: Word, t: Word :: Draw(s) == output && Draw(t) == output ==> s == t
  {
    var seed := Retreat(Unmix(output));
    MixIsBijective(output);
    RetreatInverts(Unmix(output));
    assert Draw(seed) == output;
    forall s: Word, t: Word | Draw(s) == output && Draw(t) == output
      ensures s == t
    {
      MixIsBijective(Advance(s));
      MixIsBijective(Advance(t));
      RetreatInverts(s);
      RetreatInverts(t);
    }
  }

  function Retreat(state: Word): Word {
    if state >= GAMMA then state - GAMMA else state + MODULUS - GAMMA
  }

  lemma {:induction false} RetreatInverts(state: Word)
    ensures Advance(Retreat(state)) == state
    ensures Retreat(Advance(state)) == state
  {
  }
}
