/**
  Bytes, 16-bit words and exclusive or, on integers.

  The C operators `^`, `<<`, `>>` and `& 0xff` on unsigned values are arithmetic here: a shift
  by k is a multiplication or division by 2^k, a mask of the low k bits is a remainder by 2^k.
 */
module Bits {

  type byte = x: int | 0 <= x < 0x100
  type u16 = x: int | 0 <= x < 0x10000

  function Pow2(n: nat): (p: nat)
    ensures p > 0
  {
    if n == 0 then 1 else 2 * Pow2(n - 1)
  }

  lemma Pow2Values()
    ensures Pow2(8) == 0x100 && Pow2(15) == 0x8000 && Pow2(16) == 0x10000
  {
    assert Pow2(4) == 16;
    assert Pow2(12) == 0x1000;
  }

  /** Bitwise exclusive or. */
  function Xor(a: nat, b: nat): (x: nat)
    decreases a
  {
    if a == 0 then b else 2 * Xor(a / 2, b / 2) + (if a % 2 == b % 2 then 0 else 1)
  }

  /** Both arguments give up their lowest bit, whichever of them is zero. */
  lemma {:induction false} XorStep(a: nat, b: nat)
    ensures Xor(a, b) == 2 * Xor(a / 2, b / 2) + (if a % 2 == b % 2 then 0 else 1)
  {}

  lemma {:induction false} XorZero(a: nat)
    ensures Xor(a, 0) == a
    ensures Xor(0, a) == a
  {
    if a > 0 { XorZero(a / 2); }
  }

  lemma {:induction false} XorSelf(a: nat)
    ensures Xor(a, a) == 0
  {
    if a > 0 { XorSelf(a / 2); }
  }

  lemma {:induction false} XorCommutes(a: nat, b: nat)
    ensures Xor(a, b) == Xor(b, a)
    decreases a
  {
    if a == 0 {
      XorZero(b);
    } else {
      XorCommutes(a / 2, b / 2);
      XorStep(b, a);
    }
  }

  lemma {:induction false} XorAssociates(a: nat, b: nat, c: nat)
    ensures Xor(Xor(a, b), c) == Xor(a, Xor(b, c))
    decreases a
  {
    if a > 0 {
      var left, right := Xor(a, b), Xor(b, c);
      XorAssociates(a / 2, b / 2, c / 2);
      XorStep(b, c);
      XorStep(left, c);
      assert left / 2 == Xor(a / 2, b / 2) && right / 2 == Xor(b / 2, c / 2);
    }
  }

  /** (a ^ b) ^ (c ^ d) == (a ^ c) ^ (b ^ d) */
  lemma XorSwap(a: nat, b: nat, c: nat, d: nat)
    ensures Xor(Xor(a, b), Xor(c, d)) == Xor(Xor(a, c), Xor(b, d))
  {
    XorAssociates(a, b, Xor(c, d));
    XorAssociates(b, c, d);
    XorCommutes(b, c);
    XorAssociates(c, b, d);
    XorAssociates(a, c, Xor(b, d));
  }

  lemma XorZeroMeansEqual(a: nat, b: nat)
    requires Xor(a, b) == 0
    ensures a == b
  {
    XorAssociates(a, b, b);
    XorSelf(b);
    XorZero(a);
    XorZero(b);
  }

  lemma XorDouble(a: nat, b: nat)
    ensures Xor(2 * a, 2 * b) == 2 * Xor(a, b)
  {
    XorStep(2 * a, 2 * b);
  }

  /** Adding a low bit to an even number is exclusive or with it. */
  lemma XorLowBit(a: nat, b: nat)
    requires a % 2 == 0 && b < 2
    ensures Xor(a, b) == a + b
  {
    XorStep(a, b);
    XorZero(a / 2);
  }

  lemma {:induction false} XorBound(a: nat, b: nat, n: nat)
    requires a < Pow2(n) && b < Pow2(n)
    ensures Xor(a, b) < Pow2(n)
    decreases n
  {
    if n > 0 {
      XorStep(a, b);
      XorBound(a / 2, b / 2, n - 1);
    }
  }

  /** Bit n of the result is set when it is set in exactly one argument. */
  lemma {:induction false} XorTop(a: nat, b: nat, n: nat)
    requires a < Pow2(n) && b < Pow2(n)
    ensures Xor(a + Pow2(n), b) == Xor(a, b) + Pow2(n)
    decreases n
  {
    if n == 0 {
      XorZero(1);
    } else {
      var p := Pow2(n - 1);
      Halves(a, p);
      XorTop(a / 2, b / 2, n - 1);
      XorStep(a, b);
      XorStep(a + 2 * p, b);
    }
  }

  lemma XorTops(a: nat, b: nat, n: nat)
    requires a < Pow2(n) && b < Pow2(n)
    ensures Xor(a + Pow2(n), b + Pow2(n)) == Xor(a, b)
  {
    var p := Pow2(n);
    XorTop(0, a, n);
    XorTop(0, b, n);
    XorZero(a);
    XorZero(b);
    XorSwap(p, a, p, b);
    XorSelf(p);
    XorZero(Xor(a, b));
  }

  lemma Halves(a: nat, p: nat)
    ensures (a + 2 * p) / 2 == a / 2 + p && (a + 2 * p) % 2 == a % 2
  {}

  /** True when the number of one bits is odd. */
  predicate Odd(a: nat) {
    if a == 0 then false else Odd(a / 2) != (a % 2 == 1)
  }

  lemma {:induction false} OddXor(a: nat, b: nat)
    ensures Odd(Xor(a, b)) == (Odd(a) != Odd(b))
    decreases a
  {
    if a > 0 {
      OddXor(a / 2, b / 2);
      var x := Xor(a, b);
      assert x / 2 == Xor(a / 2, b / 2);
    }
  }

  lemma {:induction false} OddTop(a: nat, n: nat)
    requires a < Pow2(n)
    ensures Odd(a + Pow2(n)) != Odd(a)
  {
    if n > 0 {
      var p := Pow2(n - 1);
      Halves(a, p);
      OddTop(a / 2, n - 1);
    }
  }

  // ---------------------------------------------------------------------------------------
  // Bytes of a word, most significant first
  // ---------------------------------------------------------------------------------------

  function High(v: u16): byte { v / 0x100 }

  function Low(v: u16): byte { v % 0x100 }

  function BigEndian(high: byte, low: byte): u16 { 0x100 * high + low }

  function Xor8(a: byte, b: byte): byte
  {
    Pow2Values();
    XorBound(a, b, 8);
    Xor(a, b)
  }

  function Xor16(a: u16, b: u16): u16
  {
    Pow2Values();
    XorBound(a, b, 16);
    Xor(a, b)
  }
}
