/**
 Bit operations on unsigned machine words, given by recursion on the bits: bit 0 is the
 parity and the remaining bits are those of the half.
 */
module Bits {

  function Pow2(n: nat): (r: nat)
    ensures r >= 1
  {
    if n == 0 then 1 else 2 * Pow2(n - 1)
  }

  predicate Bit(x: nat, k: nat) {
    if k == 0 then x % 2 == 1 else Bit(x / 2, k - 1)
  }

  function BitOr(x: nat, y: nat): nat {
    if x == 0 && y == 0 then 0
    else 2 * BitOr(x / 2, y / 2) + (if x % 2 == 1 || y % 2 == 1 then 1 else 0)
  }

  function BitAnd(x: nat, y: nat): nat {
    if x == 0 && y == 0 then 0
    else 2 * BitAnd(x / 2, y / 2) + (if x % 2 == 1 && y % 2 == 1 then 1 else 0)
  }

  /** The complement of an n-bit word. */
  function BitNot(x: nat, n: nat): (r: nat)
    requires x < Pow2(n)
    ensures r < Pow2(n)
  {
    Pow2(n) - 1 - x
  }

  /** Bit k is the parity of x divided by 2 to the power k. */
  lemma {:induction false} BitMeans(x: nat, k: nat)
    ensures Bit(x, k) <==> (x / Pow2(k)) % 2 == 1
  {
    if k > 0 {
      BitMeans(x / 2, k - 1);
      HalvedBy(x, Pow2(k - 1));
    }
  }

  lemma HalvedBy(x: nat, p: nat)
    requires p >= 1
    ensures x / 2 / p == x / (2 * p)
  {
    var q, r := x / 2 / p, x / 2 % p;
    assert x / 2 == p * q + r;
    var s := 2 * r + x % 2;
    assert x == 2 * (x / 2) + x % 2 == 2 * p * q + s && 0 <= s < 2 * p;
    Division(x, 2 * p, q, s);
  }

  lemma Monotonic(d: nat, a: nat, b: nat)
    requires a <= b
    ensures d * a <= d * b
  {
  }

  lemma Division(x: nat, d: nat, q: nat, r: nat)
    requires x == d * q + r && r < d
    ensures x / d == q
  {
    var q' := x / d;
    assert x == d * q' + x % d;
    if q' < q {
      Monotonic(d, q' + 1, q);
    } else if q' > q {
      Monotonic(d, q + 1, q');
    }
  }

  /** The bits of a number whose low n bits are x: those of x, and then those of y. */
  lemma {:induction false} BitOfSum(x: nat, y: nat, n: nat, k: nat)
    requires x < Pow2(n)
    ensures Bit(x + Pow2(n) * y, k) <==> if k < n then Bit(x, k) else Bit(y, k - n)
  {
    if n > 0 {
      var p := Pow2(n - 1);
      assert Pow2(n) * y == 2 * (p * y);
      assert (x + 2 * (p * y)) / 2 == x / 2 + p * y && (x + 2 * (p * y)) % 2 == x % 2;
      if k > 0 { BitOfSum(x / 2, y, n - 1, k - 1); }
    }
  }

  lemma {:induction false} OrBit(x: nat, y: nat, k: nat)
    ensures Bit(BitOr(x, y), k) <==> Bit(x, k) || Bit(y, k)
  {
    if x == 0 && y == 0 {
      ZeroBit(k);
    } else if k > 0 {
      OrBit(x / 2, y / 2, k - 1);
    }
  }

  lemma {:induction false} AndBit(x: nat, y: nat, k: nat)
    ensures Bit(BitAnd(x, y), k) <==> Bit(x, k) && Bit(y, k)
  {
    if x == 0 && y == 0 {
      ZeroBit(k);
    } else if k > 0 {
      AndBit(x / 2, y / 2, k - 1);
    }
  }

  lemma ZeroBit(k: nat)
    ensures !Bit(0, k)
  {
    if k > 0 { ZeroBit(k - 1); }
  }

  lemma {:induction false} Pow2Bit(n: nat, k: nat)
    ensures Bit(Pow2(n), k) <==> k == n
  {
    if n == 0 {
      if k > 0 { ZeroBit(k - 1); }
    } else if k > 0 {
      Pow2Bit(n - 1, k - 1);
    }
  }

  lemma {:induction false} NotBit(x: nat, n: nat, k: nat)
    requires x < Pow2(n) && k < n
    ensures Bit(BitNot(x, n), k) <==> !Bit(x, k)
  {
    if k > 0 {
      assert BitNot(x, n) / 2 == BitNot(x / 2, n - 1);
      NotBit(x / 2, n - 1, k - 1);
    }
  }

  lemma {:induction false} OrBound(x: nat, y: nat, n: nat)
    requires x < Pow2(n) && y < Pow2(n)
    ensures BitOr(x, y) < Pow2(n)
  {
    if n > 0 && (x > 0 || y > 0) { OrBound(x / 2, y / 2, n - 1); }
  }

  lemma {:induction false} AndBound(x: nat, y: nat, n: nat)
    requires x < Pow2(n)
    ensures BitAnd(x, y) < Pow2(n)
    decreases n, y
  {
    if n > 0 && (x > 0 || y > 0) {
      AndBound(x / 2, y / 2, n - 1);
    } else if n == 0 && y > 0 {
      AndBound(0, y / 2, 0);
    }
  }

  lemma Pow2Below(k: nat, n: nat)
    requires k < n
    ensures Pow2(k) < Pow2(n)
  {
    if k < n - 1 { Pow2Below(k, n - 1); }
  }

  /** The mask test `w & (1 << k)` is non-zero exactly when bit k of w is set. */
  lemma {:induction false} MaskTest(w: nat, k: nat)
    ensures BitAnd(w, Pow2(k)) != 0 <==> Bit(w, k)
  {
    if k == 0 {
      AndZero(w / 2);
    } else {
      MaskTest(w / 2, k - 1);
    }
  }

  lemma {:induction false} AndZero(w: nat)
    ensures BitAnd(w, 0) == 0
  {
    if w > 0 { AndZero(w / 2); }
  }

  lemma Pow2Word()
    ensures Pow2(32) == 0x1_0000_0000
  {
    assert Pow2(8) == 0x100;
    assert Pow2(16) == 0x1_0000;
    assert Pow2(24) == 0x100_0000;
  }
}
