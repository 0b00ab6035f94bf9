/** Machine words as naturals: powers of two, shifts, exclusive or, and the population count. */
module Words {

  function Pow2(k: nat): (p: nat)
    ensures p >= 1
  {
    if k == 0 then 1 else 2 * Pow2(k - 1)
  }

  lemma {:induction false} Pow2Monotone(a: nat, b: nat)
    requires a <= b
    ensures Pow2(a) <= Pow2(b)
    decreases b
  {
    if a < b { Pow2Monotone(a, b - 1); }
  }

  lemma {:induction false} Pow2Adds(a: nat, b: nat)
    ensures Pow2(a + b) == Pow2(a) * Pow2(b)
  {
    if a > 0 {
      Pow2Adds(a - 1, b);
      assert Pow2(a + b) == 2 * Pow2(a - 1 + b);
    }
  }

  // --- bitwise exclusive or, low bit first ---

  function XorBit(a: nat, b: nat): nat {
    if a == b then 0 else 1
  }

  function Xor(x: nat, y: nat): nat
    decreases x + y
  {
    if x == 0 && y == 0 then 0 else 2 * Xor(x / 2, y / 2) + XorBit(x % 2, y % 2)
  }

  lemma {:induction false} XorHalves(x: nat, y: nat)
    ensures Xor(x, y) / 2 == Xor(x / 2, y / 2)
    ensures Xor(x, y) % 2 == XorBit(x % 2, y % 2)
  {
    if x == 0 && y == 0 {
      assert Xor(x, y) == 0;
    }
  }

  lemma {:induction false} XorZero(x: nat)
    ensures Xor(x, 0) == x
    decreases x
  {
    if x > 0 { XorZero(x / 2); }
  }

  lemma {:induction false} XorSelf(x: nat)
    ensures Xor(x, x) == 0
    decreases x
  {
    if x > 0 { XorSelf(x / 2); }
  }

  lemma {:induction false} XorAssociates(x: nat, y: nat, z: nat)
    ensures Xor(Xor(x, y), z) == Xor(x, Xor(y, z))
    decreases x + y + z
  {
    if x > 0 || y > 0 || z > 0 {
      XorAssociates(x / 2, y / 2, z / 2);
      XorHalves(x, y);
      XorHalves(y, z);
      XorHalves(Xor(x, y), z);
      XorHalves(x, Xor(y, z));
    }
  }

  lemma {:induction false} XorBelow(x: nat, y: nat, k: nat)
    requires x < Pow2(k) && y < Pow2(k)
    ensures Xor(x, y) < Pow2(k)
    decreases k
  {
    if k > 0 {
      XorBelow(x / 2, y / 2, k - 1);
      XorHalves(x, y);
    }
  }

  lemma {:induction false} XorUndoes(x: nat, y: nat)
    ensures Xor(Xor(x, y), y) == x
  {
    XorAssociates(x, y, y);
    XorSelf(y);
    XorZero(x);
  }

  lemma {:induction false} XorAppendsOne(x: nat, y: nat)
    ensures Xor(2 * x, 2 * y + 1) == 2 * Xor(x, y) + 1
  {
    XorHalves(2 * x, 2 * y + 1);
  }

  lemma {:induction false} DoubleProduct(x: nat, y: nat)
    ensures x * (2 * y) == 2 * (x * y)
  {
  }

  /** Exclusive or with ones fills low bits that were zero, and clears them again. */
  lemma {:induction false} XorFillsLowBits(high: nat, k: nat)
    ensures Xor(high * Pow2(k), Pow2(k) - 1) == high * Pow2(k) + Pow2(k) - 1
    ensures Xor(high * Pow2(k) + Pow2(k) - 1, Pow2(k) - 1) == high * Pow2(k)
    decreases k
  {
    hide Xor;
    if k == 0 {
      XorZero(high);
    } else {
      var p := Pow2(k - 1);
      XorFillsLowBits(high, k - 1);
      DoubleProduct(high, p);
      XorAppendsOne(high * p, p - 1);
    }
    XorUndoes(high * Pow2(k), Pow2(k) - 1);
  }

  // --- logical shift right ---

  function Shr(x: nat, k: nat): nat
    decreases x, k
  {
    if k == 0 then x else Shr(x / 2, k - 1)
  }

  lemma {:induction false} HalvingTwice(x: nat, p: nat)
    requires p > 0
    ensures x / 2 / p == x / (2 * p)
  {
    var h := x / 2;
    var q, r := h / p, h % p;
    assert h == q * p + r;
    assert x == q * (2 * p) + (2 * r + x % 2);
    DivisionIsUnique(x, 2 * p, q, 2 * r + x % 2);
  }

  lemma {:induction false} ShrIsDivision(x: nat, k: nat)
    ensures Shr(x, k) == x / Pow2(k)
    decreases k
  {
    if k > 0 {
      ShrIsDivision(x / 2, k - 1);
      HalvingTwice(x, Pow2(k - 1));
    }
  }

  lemma {:induction false} DivisionIsUnique(x: int, d: int, q: int, r: int)
    requires d > 0 && x == q * d + r && 0 <= r < d
    ensures x / d == q && x % d == r
  {
    var k := x / d - q;
    assert k * d == r - x % d;
    SmallMultipleIsZero(k, d);
  }

  lemma {:induction false} SmallMultipleIsZero(k: int, d: int)
    requires d > 0 && -d < k * d < d
    ensures k == 0
  {
    MultipleAtLeast(k, d);
  }

  lemma {:induction false} MultipleAtLeast(k: int, d: int)
    requires d > 0
    ensures k >= 1 ==> k * d >= d
    ensures k <= -1 ==> k * d <= -d
  {
    if k >= 1 {
      assert (k - 1) * d >= 0;
    }
    if k <= -1 {
      assert (-k - 1) * d >= 0;
    }
  }

  lemma {:induction false} ShrBelow(x: nat, k: nat, n: nat)
    requires x < Pow2(n)
    ensures Shr(x, k) < Pow2(n)
    ensures k >= n ==> Shr(x, k) == 0
    decreases k
  {
    if k > 0 && n > 0 {
      ShrBelow(x / 2, k - 1, n - 1);
    } else if k > 0 {
      ShrBelow(x / 2, k - 1, n);
    }
  }

  lemma {:induction false} ShrTwice(x: nat, a: nat, b: nat)
    ensures Shr(Shr(x, a), b) == Shr(x, a + b)
    decreases a
  {
    if a > 0 { ShrTwice(x / 2, a - 1, b); }
  }

  lemma {:induction false} ShrOfXor(x: nat, y: nat, k: nat)
    ensures Shr(Xor(x, y), k) == Xor(Shr(x, k), Shr(y, k))
    decreases k
  {
    if k > 0 {
      XorHalves(x, y);
      ShrOfXor(x / 2, y / 2, k - 1);
    }
  }

  /** Exclusive or, bit by bit: bit k of the result is set exactly when the two bits differ. */
  lemma {:induction false} XorIsBitwise(x: nat, y: nat, k: nat)
    ensures Xor(x, y) / Pow2(k) % 2 == if x / Pow2(k) % 2 == y / Pow2(k) % 2 then 0 else 1
  {
    ShrIsDivision(x, k);
    ShrIsDivision(y, k);
    ShrIsDivision(Xor(x, y), k);
    ShrOfXor(x, y, k);
    XorHalves(Shr(x, k), Shr(y, k));
  }

  /** Exclusive or with k ones: the high part stays, and the low k bits become what was missing from ones. */
  lemma {:induction false} XorComplements(x: nat, k: nat)
    ensures Xor(x, Pow2(k) - 1) / Pow2(k) == x / Pow2(k)
    ensures Xor(x, Pow2(k) - 1) % Pow2(k) == Pow2(k) - 1 - x % Pow2(k)
    decreases k
  {
    hide Xor;
    if k == 0 {
      XorZero(x);
    } else {
      var p := Pow2(k - 1);
      var ones := 2 * p - 1;
      XorComplements(x / 2, k - 1);
      XorHalves(x, ones);
      assert ones / 2 == p - 1 && ones % 2 == 1;
      ComplementGrows(x, Xor(x, ones), p);
    }
  }

  lemma {:induction false} ComplementGrows(x: nat, y: nat, p: nat)
    requires p > 0 && y % 2 == 1 - x % 2
    requires y / 2 / p == x / 2 / p && y / 2 % p == p - 1 - x / 2 % p
    ensures y / (2 * p) == x / (2 * p) && y % (2 * p) == 2 * p - 1 - x % (2 * p)
  {
    RemainderTwice(x, p);
    RemainderTwice(y, p);
  }

  lemma {:induction false} RemainderTwice(x: nat, p: nat)
    requires p > 0
    ensures x / (2 * p) == x / 2 / p
    ensures x % (2 * p) == 2 * (x / 2 % p) + x % 2
  {
    var h := x / 2;
    var q, r := h / p, h % p;
    assert h == q * p + r;
    assert x == q * (2 * p) + (2 * r + x % 2);
    DivisionIsUnique(x, 2 * p, q, 2 * r + x % 2);
  }

  // --- wrap-around of an unsigned word ---

  /** x modulo m, by repeated subtraction: the value an unsigned word of m values holds for x. */
  function Wrap(x: nat, m: nat): (r: nat)
    requires m > 0
    ensures r < m
    decreases x
  {
    if x < m then x else Wrap(x - m, m)
  }

  lemma {:induction false} WrapIsRemainder(x: nat, m: nat)
    requires m > 0
    ensures Wrap(x, m) == x % m
    decreases x
  {
    if x >= m {
      WrapIsRemainder(x - m, m);
      DivisionIsUnique(x, m, (x - m) / m + 1, (x - m) % m);
    } else {
      DivisionIsUnique(x, m, 0, x);
    }
  }

  lemma {:induction false} WrapAdds(x: nat, y: nat, m: nat)
    requires m > 0
    ensures Wrap(Wrap(x, m) + y, m) == Wrap(x + y, m)
    decreases x
  {
    if x >= m { WrapAdds(x - m, y, m); }
  }

  lemma {:induction false} WrapOfSmall(x: nat, m: nat)
    requires x < m
    ensures Wrap(x, m) == x
  {
  }

  // --- population count ---

  function PopCount(x: nat): nat {
    if x == 0 then 0 else x % 2 + PopCount(x / 2)
  }

  /** Setting a bit above all others adds exactly one to the count. */
  lemma {:induction false} PopCountOfHighBit(x: nat, k: nat)
    requires x < Pow2(k)
    ensures PopCount(x + Pow2(k)) == PopCount(x) + 1
    decreases k
  {
    if k == 0 {
      assert PopCount(1) == 1 + PopCount(0);
    } else {
      PopCountOfHighBit(x / 2, k - 1);
      var y := x + Pow2(k);
      assert y / 2 == x / 2 + Pow2(k - 1) && y % 2 == x % 2;
    }
  }
}
