/** Multiplication in the MIPS simulator: shift and add over two 32-bit words, stopping at a's last one-bit. */
module Multiplication {
  import opened Bits
  import opened Bytes

  /** Unary minus on a 32-bit machine: the most negative number is its own negative. */
  function Negated(x: Int32): Int32 {
    if x == -0x8000_0000 then x else -x
  }

  function Double(hi: Word, lo: Word): nat {
    hi * 0x1_0000_0000 + lo
  }

  function SignedDouble(hi: Word, lo: Word): int {
    if hi < 0x8000_0000 then Double(hi, lo) else Double(hi, lo) - 0x1_0000_0000_0000_0000
  }

  function Wrap(x: nat): Word {
    x % 0x1_0000_0000
  }

  lemma WrapMeans(x: nat)
    requires x < 0x2_0000_0000
    ensures Wrap(x) == if x < 0x1_0000_0000 then x else x - 0x1_0000_0000
  {
  }

  /** One round's addition, with its carry: exact, if the sum fits. */
  method AddDouble(hi: Word, lo: Word, bHi: Word, bLo: Word) returns (hi': Word, lo': Word)
    requires Double(hi, lo) + Double(bHi, bLo) < 0x1_0000_0000_0000_0000
    ensures Double(hi', lo') == Double(hi, lo) + Double(bHi, bLo)
  {
    hide Wrap;
    WrapMeans(lo + bLo);
    lo' := Wrap(lo + bLo);
    hi' := hi;
    if lo' < bLo {
      WrapMeans(hi' + 1);
      hi' := Wrap(hi' + 1);
    }
    WrapMeans(hi' + bHi);
    hi' := Wrap(hi' + bHi);
  }

  method ShiftDouble(bHi: Word, bLo: Word) returns (bHi': Word, bLo': Word)
    requires 2 * Double(bHi, bLo) < 0x1_0000_0000_0000_0000
    ensures Double(bHi', bLo') == 2 * Double(bHi, bLo)
  {
    bHi' := Wrap(bHi * 2);
    if bLo >= 0x8000_0000 { bHi' := bHi' + 1; }
    bLo' := Wrap(bLo * 2);
  }

  method NegateDouble(hi: Word, lo: Word) returns (hi': Word, lo': Word)
    ensures Double(hi', lo') == (0x1_0000_0000_0000_0000 - Double(hi, lo)) % 0x1_0000_0000_0000_0000
  {
    hi' := 0xFFFF_FFFF - hi;
    lo' := 0xFFFF_FFFF - lo;
    lo' := Wrap(lo' + 1);
    if lo' == 0 { hi' := Wrap(hi' + 1); }
  }

  lemma ProductBound(x: nat, y: nat, m: nat, n: nat)
    requires x <= m && y <= n
    ensures x * y <= m * n
  {
    assert x * y <= m * y;
    assert m * y <= m * n;
  }

  /**
   The loop: a is shifted right arithmetically, so a negative one never runs out of one-bits, and the
   32 rounds consume exactly its 32 bits.
   */
  method Accumulate(a0: Int32, b: Word) returns (hi: Word, lo: Word)
    ensures Double(hi, lo) == Unsigned(a0) * b
  {
    var a: int, bLo: Word, bHi: Word := a0, b, 0;
    hi, lo := 0, 0;
    // p is 2 to the power i, and r the low i bits of a0
    ghost var p: nat, r: nat := 1, 0;
    var i := 0;
    while i < 32
      invariant 0 <= i <= 32 && p == Pow2(i)
      invariant a0 == a * p + r && r < p
      invariant Double(bHi, bLo) == p * b
      invariant Double(hi, lo) == r * b
      decreases 32 - i
    {
      RoundFits(i, r, p, b);
      RoundStep(a0, a, p, r, b);
      if a % 2 == 1 {
        hi, lo := AddDouble(hi, lo, bHi, bLo);
        if a == 1 { return; }
      }
      bHi, bLo := ShiftDouble(bHi, bLo);
      r := LowBits(a, p, r);
      p := 2 * p;
      a := a / 2;
      i := i + 1;
    }
    assert p == 0x1_0000_0000 by { Pow2Word(); }
    assert Unsigned(a0) == r;
  }

  /** One more bit of a0 taken into r. */
  ghost function LowBits(a: int, p: nat, r: nat): nat {
    if a % 2 == 1 then r + p else r
  }

  lemma Distributes(x: int, y: int, z: int)
    ensures (x + y) * z == x * z + y * z
  {
  }

  /** Moving one bit from a to r. */
  lemma Halved(a: int, p: nat)
    ensures a * p == (a / 2) * (2 * p) + if a % 2 == 1 then p else 0
  {
    var q, bit := a / 2, a % 2;
    assert a == q + q + bit;
    Distributes(q + q, bit, p);
    Distributes(q, q, p);
    assert q * (2 * p) == q * p + q * p;
    assert bit == 0 || bit == 1;
  }

  lemma RoundStep(a0: Int32, a: int, p: nat, r: nat, b: Word)
    requires a0 == a * p + r && r < p
    ensures a0 == (a / 2) * (2 * p) + LowBits(a, p, r) && LowBits(a, p, r) < 2 * p
    ensures (2 * p) * b == 2 * (p * b)
    ensures LowBits(a, p, r) * b == r * b + if a % 2 == 1 then p * b else 0
    ensures a == 1 ==> Unsigned(a0) == LowBits(a, p, r)
  {
    Halved(a, p);
    Distributes(r, p, b);
    Distributes(p, p, b);
  }

  lemma RoundFits(i: nat, r: nat, p: nat, b: Word)
    requires i < 32 && p == Pow2(i) && r < p
    ensures p <= 0x8000_0000
    ensures 2 * (p * b) < 0x1_0000_0000_0000_0000
    ensures r * b + p * b < 0x1_0000_0000_0000_0000
  {
    Pow2Bound(i);
    ProductBound(p, b, 0x8000_0000, 0xFFFF_FFFF);
    ProductBound(r, b, p, b);
  }

  lemma {:induction false} Pow2Bound(i: nat)
    requires i < 32
    ensures Pow2(i) <= 0x8000_0000
  {
    Pow2Growth(i, 31);
    Pow2Word();
  }

  lemma {:induction false} Pow2Growth(i: nat, j: nat)
    requires i <= j
    ensures Pow2(i) <= Pow2(j)
  {
    if i < j { Pow2Growth(i, j - 1); }
  }

  /** MULT and MULTU: the words hi and lo together are the exact product, of signed or of unsigned operands. */
  method Mult(a: Int32, b: Int32, signedArith: bool) returns (hiWord: Int32, loWord: Int32)
    ensures signedArith ==> SignedDouble(Unsigned(hiWord), Unsigned(loWord)) == a * b
    ensures !signedArith ==> Double(Unsigned(hiWord), Unsigned(loWord)) == Unsigned(a) * Unsigned(b)
  {
    if a == 0 || b == 0 { return 0, 0; }
    hide Double, SignedDouble;
    var negative, a', b' := false, a, b;
    if signedArith {
      if a' < 0 {
        negative := !negative;
        a' := Negated(a');
      }
      if b' < 0 {
        negative := !negative;
        b' := Negated(b');
      }
    }
    var hi, lo := Accumulate(a', Unsigned(b'));
    if signedArith {
      SignedProduct(a, b, Unsigned(a'), Unsigned(b'));
      MagnitudeBound(a', b');
    }
    ghost var product := Double(hi, lo);
    if negative {
      hi, lo := NegateDouble(hi, lo);
    }
    if signedArith { SignedMeans(hi, lo, product, negative); }
    hiWord, loWord := Signed(hi), Signed(lo);
  }

  /** A double word that holds a product, or its negation, read as a signed number. */
  lemma SignedMeans(hi: Word, lo: Word, product: int, negative: bool)
    requires 0 < product <= 0x4000_0000_0000_0000
    requires Double(hi, lo) ==
      if negative then (0x1_0000_0000_0000_0000 - product) % 0x1_0000_0000_0000_0000 else product
    ensures SignedDouble(hi, lo) == if negative then -product else product
  {
  }

  lemma SignedProduct(a: int, b: int, x: nat, y: nat)
    requires x == (if a < 0 then -a else a) && y == (if b < 0 then -b else b)
    ensures a * b == if (a < 0) != (b < 0) then -(x * y) else x * y
  {
  }

  lemma MagnitudeBound(a: Int32, b: Int32)
    requires Unsigned(a) <= 0x8000_0000 && Unsigned(b) <= 0x8000_0000
    requires a != 0 && b != 0
    ensures 0 < Unsigned(a) * Unsigned(b) <= 0x4000_0000_0000_0000
  {
    ProductBound(Unsigned(a), Unsigned(b), 0x8000_0000, 0x8000_0000);
  }
}
