/** Strings with a separator, and numbers written in decimal. */
module Text {

  /** The position of the first c, or the length when there is none: std::string::find. */
  function Find(s: string, c: char): (r: nat)
    ensures r <= |s| && c !in s[..r] && (r < |s| ==> s[r] == c)
  {
    if s == [] || s[0] == c then 0 else
      var r := 1 + Find(s[1..], c);
      assert s[..r] == [s[0]] + s[1..][..r - 1];
      r
  }

  lemma {:induction false} FindInSplit(h: string, c: char, t: string)
    requires c !in h
    ensures Find(h + [c] + t, c) == |h|
  {
    if h != [] {
      FindInSplit(h[1..], c, t);
      assert (h + [c] + t)[1..] == h[1..] + [c] + t;
    }
  }

  lemma {:induction false} FindNothing(s: string, c: char)
    requires c !in s
    ensures Find(s, c) == |s|
  {
    if s != [] {
      FindNothing(s[1..], c);
    }
  }

  /** The first separator splits a string in one way. */
  lemma {:induction false} SplitsAgree(h: string, t: string, g: string, u: string, c: char)
    requires c !in h && c !in g && h + [c] + t == g + [c] + u
    ensures h == g && t == u
  {
    FindInSplit(h, c, t);
    FindInSplit(g, c, u);
    var s := h + [c] + t;
    assert h == s[..|h|] && g == s[..|g|];
    assert t == s[|h| + 1..] && u == s[|g| + 1..];
  }

  /** So does the last one. */
  lemma {:induction false} LastSplitsAgree(h: string, t: string, g: string, u: string, c: char)
    requires c !in t && c !in u && h + [c] + t == g + [c] + u
    ensures h == g && t == u
    decreases |t|
  {
    var s := h + [c] + t;
    assert s[|s| - 1] == if t == [] then c else t[|t| - 1];
    assert s[|s| - 1] == if u == [] then c else u[|u| - 1];
    if t == [] || u == [] {
      assert h == s[..|s| - 1] && g == s[..|s| - 1];
    } else {
      assert h + [c] + t[..|t| - 1] == s[..|s| - 1] == g + [c] + u[..|u| - 1];
      LastSplitsAgree(h, t[..|t| - 1], g, u[..|u| - 1], c);
      assert t == t[..|t| - 1] + [t[|t| - 1]] && u == u[..|u| - 1] + [u[|u| - 1]];
    }
  }

  // --- decimal numbers ---

  predicate IsDigit(c: char) {
    '0' <= c <= '9'
  }

  predicate AllDigits(s: string) {
    forall i :: 0 <= i < |s| ==> IsDigit(s[i])
  }

  function Digit(d: nat): (r: char)
    requires d < 10
    ensures IsDigit(r) && DigitValue(r) == d
  {
    '0' + d as char
  }

  function DigitValue(c: char): (r: nat)
    requires IsDigit(c)
    ensures r < 10
  {
    (c - '0') as nat
  }

  /** std::to_string of a non-negative number. */
  function Decimal(n: nat): (r: string)
    ensures |r| > 0 && AllDigits(r)
  {
    if n < 10 then [Digit(n)] else Decimal(n / 10) + [Digit(n % 10)]
  }

  /** The text digit by digit, without leading zeros. */
  lemma {:induction false} DecimalDigits(n: nat, d: nat)
    requires d < 10
    ensures Decimal(d) == ["0123456789"[d]]
    ensures n > 0 ==> Decimal(10 * n + d) == Decimal(n) + ["0123456789"[d]]
  {
    assert "0123456789"[d] == Digit(d);
    assert (10 * n + d) / 10 == n && (10 * n + d) % 10 == d;
  }

  function Number(s: string): (r: nat)
    requires AllDigits(s)
  {
    if s == [] then 0 else 10 * Number(s[..|s| - 1]) + DigitValue(s[|s| - 1])
  }

  lemma {:induction false} NumberOfDecimal(n: nat)
    ensures Number(Decimal(n)) == n
  {
    var r := Decimal(n);
    if n < 10 {
      assert r[..0] == [];
    } else {
      NumberOfDecimal(n / 10);
      assert r[..|r| - 1] == Decimal(n / 10);
    }
  }

  /** How many digits a string starts with. */
  function DigitsPrefix(s: string): (r: nat)
    ensures r <= |s| && AllDigits(s[..r]) && (r < |s| ==> !IsDigit(s[r]))
  {
    if s == [] || !IsDigit(s[0]) then 0 else
      var r := 1 + DigitsPrefix(s[1..]);
      assert s[..r] == [s[0]] + s[1..][..r - 1];
      r
  }

  lemma {:induction false} AllOfItIsPrefix(s: string)
    requires AllDigits(s)
    ensures DigitsPrefix(s) == |s|
  {
    if s != [] {
      AllOfItIsPrefix(s[1..]);
    }
  }
}
