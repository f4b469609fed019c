/**
  Two flipped bits, at any distance: the CRC misses them exactly when the distance is a multiple of
  32767, which is the order of x modulo the generator.
 */
module CrcTwoBitErrors {
  import opened Bits
  import opened Crc16
  import opened CrcDetection

  // ---------------------------------------------------------------------------------------
  // Polynomials modulo the generator, coefficient by coefficient
  // ---------------------------------------------------------------------------------------

  datatype Word = Word(
    b0: bool, b1: bool, b2: bool, b3: bool, b4: bool, b5: bool, b6: bool, b7: bool,
    b8: bool, b9: bool, b10: bool, b11: bool, b12: bool, b13: bool, b14: bool, b15: bool)

  const T := true
  const F := false
  const ONE := Word(T, F, F, F, F, F, F, F, F, F, F, F, F, F, F, F)

  function ByX(w: Word): Word {
    Word(w.b15, w.b0, w.b1, w.b2, w.b3, w.b4 != w.b15, w.b5, w.b6,
         w.b7, w.b8, w.b9, w.b10, w.b11 != w.b15, w.b12, w.b13, w.b14)
  }

  function Power(n: nat): Word { if n == 0 then ONE else ByX(Power(n - 1)) }

  /** The square: coefficient i goes to place 2i, and from place 16 on is reduced. */
  function Square(w: Word): Word {
    Word(
      ((((w.b0 != w.b8) != w.b10) != w.b12) != w.b14), w.b14,
      ((((w.b1 != w.b9) != w.b11) != w.b13) != w.b15), w.b15,
      (((w.b2 != w.b10) != w.b12) != w.b14), (((w.b8 != w.b10) != w.b12) != w.b14),
      ((((w.b3 != w.b11) != w.b13) != w.b14) != w.b15), (((w.b9 != w.b11) != w.b13) != w.b15),
      (((w.b4 != w.b12) != w.b14) != w.b15), ((w.b10 != w.b12) != w.b14),
      ((w.b5 != w.b13) != w.b15), ((w.b11 != w.b13) != w.b15),
      (((w.b6 != w.b8) != w.b10) != w.b12), w.b12,
      (((w.b7 != w.b9) != w.b11) != w.b13), w.b13)
  }

  lemma {:induction false} SameWord(v: Word, w: Word)
    requires v.b0 == w.b0 && v.b1 == w.b1 && v.b2 == w.b2 && v.b3 == w.b3
    requires v.b4 == w.b4 && v.b5 == w.b5 && v.b6 == w.b6 && v.b7 == w.b7
    requires v.b8 == w.b8 && v.b9 == w.b9 && v.b10 == w.b10 && v.b11 == w.b11
    requires v.b12 == w.b12 && v.b13 == w.b13 && v.b14 == w.b14 && v.b15 == w.b15
    ensures v == w
  {}

  lemma {:induction false} SquareByXFrom0(w: Word)
    ensures var r, s := Square(ByX(w)), ByX(ByX(Square(w)));
      r.b0 == s.b0 && r.b1 == s.b1 && r.b2 == s.b2 && r.b3 == s.b3
  {}

  lemma {:induction false} SquareByXFrom4(w: Word)
    ensures var r, s := Square(ByX(w)), ByX(ByX(Square(w)));
      r.b4 == s.b4 && r.b5 == s.b5
  {}

  lemma {:induction false} SquareByXFrom6(w: Word)
    ensures var r, s := Square(ByX(w)), ByX(ByX(Square(w)));
      r.b6 == s.b6 && r.b7 == s.b7
  {}

  lemma {:induction false} SquareByXFrom8(w: Word)
    ensures var r, s := Square(ByX(w)), ByX(ByX(Square(w)));
      r.b8 == s.b8 && r.b9 == s.b9 && r.b10 == s.b10 && r.b11 == s.b11
  {}

  lemma {:induction false} SquareByXFrom12(w: Word)
    ensures var r, s := Square(ByX(w)), ByX(ByX(Square(w)));
      r.b12 == s.b12 && r.b13 == s.b13 && r.b14 == s.b14 && r.b15 == s.b15
  {}

  lemma {:induction false} SquareByX(w: Word)
    ensures Square(ByX(w)) == ByX(ByX(Square(w)))
  {
    hide Square, ByX;
    SquareByXFrom0(w);
    SquareByXFrom4(w);
    SquareByXFrom6(w);
    SquareByXFrom8(w);
    SquareByXFrom12(w);
    SameWord(Square(ByX(w)), ByX(ByX(Square(w))));
  }

  lemma {:induction false} PowerTwice(n: nat)
    ensures Power(2 * n) == Square(Power(n))
  {
    hide Square, ByX;
    if n == 0 {
      assert Square(ONE) == ONE by { SquareOne(); }
    } else {
      PowerTwice(n - 1);
      SquareByX(Power(n - 1));
      assert Power(2 * n) == ByX(ByX(Power(2 * (n - 1))));
    }
  }

  lemma SquareOne()
    ensures Square(ONE) == ONE
  {}

  /** One digit more in the exponent. */
  lemma {:induction false} Digit(n: nat, digit: bool, v: Word)
    requires Power(n) == v
    ensures Power(2 * n + if digit then 1 else 0) == if digit then ByX(Square(v)) else Square(v)
  {
    hide Square, ByX;
    PowerTwice(n);
  }

  // The powers on the way to the exponents below, digit by digit.
  const X8 := Word(F, F, F, F, F, F, F, F, T, F, F, F, F, F, F, F)
  const X9 := Word(F, F, F, F, F, F, F, F, F, T, F, F, F, F, F, F)
  const X13 := Word(F, F, F, F, F, F, F, F, F, F, F, F, F, T, F, F)
  const X16 := Word(T, F, F, F, F, T, F, F, F, F, F, F, T, F, F, F)
  const X18 := Word(F, F, T, F, F, F, F, T, F, F, F, F, F, F, T, F)
  const X27 := Word(T, F, F, T, F, T, F, T, T, F, F, T, F, F, F, T)
  const X32 := Word(F, F, F, F, T, T, F, F, T, T, T, F, T, T, F, F)
  const X33 := Word(F, F, F, F, F, T, T, F, F, T, T, T, F, T, T, F)
  const X36 := Word(T, T, F, F, F, T, T, F, T, T, F, F, F, F, T, F)
  const X54 := Word(F, F, F, T, F, T, T, F, T, F, F, F, T, F, F, F)
  const X64 := Word(T, F, F, F, F, T, T, F, F, F, F, T, T, T, F, T)
  const X66 := Word(F, T, T, F, F, F, T, T, T, F, F, F, F, F, T, T)
  const X73 := Word(F, T, T, F, F, T, F, T, T, T, T, T, F, F, F, T)
  const X108 := Word(F, F, F, F, T, F, T, F, T, T, T, F, T, T, F, F)
  const X128 := Word(F, F, T, T, T, T, T, T, F, T, T, T, F, T, F, T)
  const X132 := Word(F, T, F, T, F, F, F, T, F, T, T, T, F, F, T, F)
  const X146 := Word(F, F, F, T, F, F, F, T, T, T, F, F, F, F, T, F)
  const X217 := Word(T, T, F, F, F, T, T, T, F, F, F, T, F, F, T, F)
  const X256 := Word(T, F, F, T, F, T, F, F, F, T, T, T, F, F, F, T)
  const X264 := Word(F, T, T, F, F, F, T, F, T, F, F, T, T, F, T, F)
  const X292 := Word(F, T, T, F, T, F, F, T, T, T, F, F, T, F, F, F)
  const X512 := Word(F, F, T, T, T, T, T, T, T, T, F, F, T, F, F, F)
  const X528 := Word(T, T, F, F, T, T, F, T, F, F, F, T, T, T, T, F)
  const X585 := Word(F, F, F, F, F, F, F, F, T, F, T, F, F, F, T, F)
  const X1024 := Word(F, F, T, F, F, F, T, T, F, T, T, F, T, T, F, F)
  const X1057 := Word(T, T, T, T, F, T, F, T, F, T, F, F, T, T, T, T)
  const X1170 := Word(T, T, F, F, F, T, T, F, T, F, F, F, F, F, F, F)
  const X2048 := Word(F, F, F, F, T, F, T, F, T, F, T, T, T, T, T, T)
  const X2340 := Word(F, F, T, F, F, T, F, F, F, F, T, F, F, F, F, F)
  const X4096 := Word(F, T, T, T, T, F, F, T, F, T, F, T, F, T, F, T)
  const X4681 := Word(F, T, F, F, F, F, T, F, F, F, T, T, F, T, F, F)
  const X8192 := Word(F, F, T, T, T, F, F, F, F, F, F, T, F, F, F, T)
  const X16384 := Word(F, F, F, T, T, F, T, F, F, F, T, F, F, F, T, F)
  const X32768 := Word(F, T, F, F, F, F, F, F, F, F, F, F, F, F, F, F)

  lemma SmallPowers()
    ensures Power(8) == X8 && Power(9) == X9 && Power(13) == X13 && Power(16) == X16
  {
    assert Power(4) == Word(F, F, F, F, T, F, F, F, F, F, F, F, F, F, F, F);
    assert Power(12) == Word(F, F, F, F, F, F, F, F, F, F, F, F, T, F, F, F);
  }

  lemma Power217()
    ensures Power(217) == X217
  {
    hide Power;
    SmallPowers();
    Digit(13, true, X13);
    assert X27 == ByX(Square(X13));
    Digit(27, false, X27);
    assert X54 == Square(X27);
    Digit(54, false, X54);
    assert X108 == Square(X54);
    Digit(108, true, X108);
    assert X217 == ByX(Square(X108));
  }

  lemma Power1057()
    ensures Power(1057) == X1057
  {
    hide Power;
    SmallPowers();
    Digit(8, false, X8);
    assert X16 == Square(X8);
    Digit(16, true, X16);
    assert X33 == ByX(Square(X16));
    Digit(33, false, X33);
    assert X66 == Square(X33);
    Digit(66, false, X66);
    assert X132 == Square(X66);
    Digit(132, false, X132);
    assert X264 == Square(X132);
    Digit(264, false, X264);
    assert X528 == Square(X264);
    Digit(528, true, X528);
    assert X1057 == ByX(Square(X528));
  }

  lemma Power4681()
    ensures Power(4681) == X4681
  {
    hide Power;
    SmallPowers();
    Digit(9, false, X9);
    assert X18 == Square(X9);
    Digit(18, false, X18);
    assert X36 == Square(X18);
    Digit(36, true, X36);
    assert X73 == ByX(Square(X36));
    Digit(73, false, X73);
    assert X146 == Square(X73);
    Digit(146, false, X146);
    assert X292 == Square(X146);
    Digit(292, true, X292);
    assert X585 == ByX(Square(X292));
    Digit(585, false, X585);
    assert X1170 == Square(X585);
    Digit(1170, false, X1170);
    assert X2340 == Square(X1170);
    Digit(2340, true, X2340);
    assert X4681 == ByX(Square(X2340));
  }

  lemma Power32768()
    ensures Power(32768) == X32768
  {
    hide Power;
    SmallPowers();
    Digit(16, false, X16);
    assert X32 == Square(X16);
    Digit(32, false, X32);
    assert X64 == Square(X32);
    Digit(64, false, X64);
    assert X128 == Square(X64);
    Digit(128, false, X128);
    assert X256 == Square(X128);
    Digit(256, false, X256);
    assert X512 == Square(X256);
    Digit(512, false, X512);
    assert X1024 == Square(X512);
    Digit(1024, false, X1024);
    assert X2048 == Square(X1024);
    Digit(2048, false, X2048);
    assert X4096 == Square(X2048);
    Digit(4096, false, X4096);
    assert X8192 == Square(X4096);
    Digit(8192, false, X8192);
    assert X16384 == Square(X8192);
    Digit(16384, false, X16384);
    assert X32768 == Square(X16384);
  }

  // ---------------------------------------------------------------------------------------
  // The order of x
  // ---------------------------------------------------------------------------------------

  predicate Period(n: nat) { Power(n) == ONE }

  lemma {:induction false} ByXInjective(v: Word, w: Word)
    requires ByX(v) == ByX(w)
    ensures v == w
  {
    SameWord(v, w);
  }

  lemma {:induction false} PeriodPlus(m: nat, n: nat)
    requires Period(m)
    ensures Power(m + n) == Power(n)
  {
    hide ByX;
    if n > 0 { PeriodPlus(m, n - 1); }
  }

  lemma {:induction false} PeriodTimes(m: nat, k: nat, r: nat)
    requires Period(m)
    ensures Power(m * k + r) == Power(r)
    decreases k
  {
    hide Power;
    if k == 0 {
      assert m * k == 0;
    } else {
      assert m * k + r == m + (m * (k - 1) + r);
      PeriodPlus(m, m * (k - 1) + r);
      PeriodTimes(m, k - 1, r);
    }
  }

  /** x to the 32768 is x again. */
  lemma PeriodIs32767()
    ensures Period(32767)
  {
    hide Power;
    Power32768();
    PowerNext(32767);
    assert X32768 == ByX(ONE);
    ByXInjective(Power(32767), ONE);
  }

  lemma {:induction false} PowerNext(n: nat)
    ensures Power(n + 1) == ByX(Power(n))
  {}

  lemma {:induction false} LeastPeriod(from: nat) returns (g: nat)
    requires 0 < from <= 32767 && forall n :: 0 < n < from ==> !Period(n)
    ensures 0 < g <= 32767 && Period(g) && forall n :: 0 < n < g ==> !Period(n)
    decreases 32767 - from
  {
    hide Period;
    PeriodIs32767();
    if Period(from) { g := from; } else { g := LeastPeriod(from + 1); }
  }

  /** The prime factors of 32767. */
  predicate PrimeFactor(p: nat) { p == 7 || p == 31 || p == 151 }

  lemma {:induction false} SmallFactor(p: nat, i: nat, c: nat)
    requires PrimeFactor(p) && 2 <= i <= 12 && i < p
    ensures i * c != p
  {
    if i == 2 {} else if i == 3 {} else if i == 4 {} else if i == 5 {} else if i == 6 {} else if i == 7 {}
    else if i == 8 {} else if i == 9 {} else if i == 10 {} else if i == 11 {} else {}
  }

  lemma {:induction false} NoFactor(p: nat, i: nat, c: nat)
    requires PrimeFactor(p) && 1 < i < p
    ensures i * c != p
  {
    if i <= 12 {
      SmallFactor(p, i, c);
    } else if c <= 1 {
      assert i * c <= i;
    } else if c <= 12 {
      SmallFactor(p, c, i);
      assert i * c == c * i;
    } else {
      assert i * c >= 13 * 13;
    }
  }

  lemma {:induction false} Split(n: nat, m: nat) returns (q: nat, r: nat)
    requires m > 0
    ensures n == m * q + r && r < m
    decreases n
  {
    if n < m {
      q, r := 0, n;
    } else {
      q, r := Split(n - m, m);
      assert m * (q + 1) == m * q + m;
      q := q + 1;
    }
  }

  lemma {:induction false} PrimeDivides(p: nat, i: nat, y: int, k: int) returns (b: int)
    requires PrimeFactor(p) && 0 < i < p && i * y == p * k
    ensures y == p * b
    decreases i
  {
    if i == 1 {
      b := k;
    } else {
      var c, s := Split(p, i);
      if s == 0 { NoFactor(p, i, c); }
      assert s * y == p * (y - c * k) by {
        assert s * y == (p - i * c) * y == p * y - c * (i * y) == p * y - c * (p * k) == p * (y - c * k);
      }
      b := PrimeDivides(p, s, y, y - c * k);
    }
  }

  /** A prime that divides a product divides a factor. */
  lemma {:induction false} Euclid(p: nat, x: nat, y: nat, n: nat) returns (first: bool, a: nat)
    requires PrimeFactor(p) && x * y == p * n
    ensures (if first then x else y) == p * a
  {
    var q, i := Split(x, p);
    if i == 0 {
      first, a := true, q;
    } else {
      assert i * y == (x - p * q) * y == x * y - p * (q * y) == p * (n - q * y);
      var b := PrimeDivides(p, i, y, n - q * y);
      assert b < 0 ==> p * b < 0;
      first, a := false, b;
    }
  }

  lemma {:induction false} NoPeriod(n: nat)
    requires n == 217 || n == 1057 || n == 4681
    ensures !Period(n)
  {
    hide Power;
    Power217();
    Power1057();
    Power4681();
  }

  lemma {:induction false} MultipleOfPeriod(g: nat, k: nat)
    requires Period(g)
    ensures Period(g * k)
  {
    PeriodTimes(g, k, 0);
  }

  /** A divisor of 32767 that is a period is all of it: it cannot lack one of the three prime factors. */
  lemma {:induction false} NoSmallerPeriod(g: nat, h: nat)
    requires Period(g) && g * h == 32767
    ensures g == 32767
  {
    hide Period;
    NoPeriod(217);
    NoPeriod(1057);
    NoPeriod(4681);
    var first, a := Euclid(7, g, h, 4681);
    if !first { Cancel(7, g, a, 4681); MultipleOfPeriod(g, a); }
    var second, b := Euclid(31, g, h, 1057);
    if !second { Cancel(31, g, b, 1057); MultipleOfPeriod(g, b); }
    var third, c := Euclid(151, g, h, 217);
    if !third { Cancel(151, g, c, 217); MultipleOfPeriod(g, c); }
    assert g == 7 * a == 31 * b == 151 * c;
    AllThree(g, a, b, c, h);
  }

  lemma {:induction false} Cancel(p: nat, g: nat, a: nat, n: nat)
    requires p > 0 && g * (p * a) == p * n
    ensures g * a == n
  {
    assert g * (p * a) == p * (g * a);
  }

  lemma {:induction false} AllThree(g: nat, a: nat, b: nat, c: nat, h: nat)
    requires g == 7 * a == 31 * b == 151 * c && g * h == 32767
    ensures g == 32767
  {
    assert g % 7 == 0 && g % 31 == 0 && g % 151 == 0;
    assert g % 32767 == 0;
    assert g == 0 ==> g * h == 0;
    assert h == 0 ==> g * h == 0;
    assert h > 0 ==> g * h >= g;
  }

  lemma {:induction false} PeriodsExactly(n: nat)
    ensures Period(n) <==> n % 32767 == 0
  {
    hide Power, Period;
    PeriodIs32767();
    var g := LeastPeriod(1);
    var h := Remainder(g, 32767);
    NoSmallerPeriod(g, h);
    if Period(n) {
      var k := Remainder(g, n);
      assert n == 32767 * k;
    }
    if n % 32767 == 0 {
      assert 32767 * (n / 32767) == n;
      MultipleOfPeriod(32767, n / 32767);
    }
  }

  lemma {:induction false} Remainder(g: nat, n: nat) returns (k: nat)
    requires g > 0 && Period(g) && Period(n) && forall m :: 0 < m < g ==> !Period(m)
    ensures n == g * k
  {
    hide Power;
    var r: nat;
    k, r := Split(n, g);
    PeriodTimes(g, k, r);
    assert Period(r);
  }

  // ---------------------------------------------------------------------------------------
  // Coefficients and numbers
  // ---------------------------------------------------------------------------------------

  predicate Has(w: Word, k: nat) {
    match k
    case 0 => w.b0
    case 1 => w.b1
    case 2 => w.b2
    case 3 => w.b3
    case 4 => w.b4
    case 5 => w.b5
    case 6 => w.b6
    case 7 => w.b7
    case 8 => w.b8
    case 9 => w.b9
    case 10 => w.b10
    case 11 => w.b11
    case 12 => w.b12
    case 13 => w.b13
    case 14 => w.b14
    case _ => w.b15
  }

  function Digit01(w: Word, k: nat): (digit: nat)
    ensures digit <= 1
  {
    if Has(w, k) then 1 else 0
  }

  // The digits of the number, as the polynomial cuts them.
  function Lower4(w: Word): nat { Digit01(w, 0) + 2 * Digit01(w, 1) + 4 * Digit01(w, 2) + 8 * Digit01(w, 3) }

  function Middle6(w: Word): nat {
    Digit01(w, 5) + 2 * Digit01(w, 6) + 4 * Digit01(w, 7) + 8 * Digit01(w, 8)
      + 0x10 * Digit01(w, 9) + 0x20 * Digit01(w, 10)
  }

  function Upper3(w: Word): nat { Digit01(w, 12) + 2 * Digit01(w, 13) + 4 * Digit01(w, 14) }

  lemma {:induction false} CutBounds(w: Word)
    ensures Lower4(w) < 0x10 && Middle6(w) < 0x40 && Upper3(w) < 8
  {
    hide Digit01;
  }

  /** The number whose binary digits are the coefficients. */
  function Value(w: Word): u16 {
    CutBounds(w);
    Lower4(w) + 0x10 * Digit01(w, 4) + 0x20 * Middle6(w) + 0x800 * Digit01(w, 11)
      + 0x1000 * Upper3(w) + 0x8000 * Digit01(w, 15)
  }

  lemma {:induction false} FlipCut(low: nat, m: nat, h: nat)
    requires low < 0x10 && m < 0x80 && h < 0x10
    ensures FlipPolynomial(2 * low + 0x20 * m + 0x1000 * h) == 2 * low + 0x20 * m + 0x1000 * h
      + 1 + (if m % 2 == 1 then -0x20 else 0x20) + (if h % 2 == 1 then -0x1000 else 0x1000)
  {
    var even := 2 * low + 0x20 * m + 0x1000 * h;
    assert even / 0x20 == m + 0x80 * h && even / 0x1000 == h;
  }

  lemma {:induction false} DigitsMove(w: Word, k: nat)
    requires k < 15 && k != 4 && k != 11
    ensures Digit01(ByX(w), k + 1) == Digit01(w, k)
  {}

  lemma {:induction false} DigitsFlip(w: Word)
    ensures Digit01(ByX(w), 0) == Digit01(w, 15)
    ensures Digit01(ByX(w), 5) == if Digit01(w, 15) == 1 then 1 - Digit01(w, 4) else Digit01(w, 4)
    ensures Digit01(ByX(w), 12) == if Digit01(w, 15) == 1 then 1 - Digit01(w, 11) else Digit01(w, 11)
  {}

  lemma {:induction false} ValueByX(w: Word)
    ensures var c, d := Digit01(ByX(w), 5), Digit01(ByX(w), 12);
      Value(ByX(w)) == Digit01(w, 15) + 2 * Lower4(w) + 0x20 * c + 0x40 * Middle6(w) + 0x1000 * d + 0x2000 * Upper3(w)
  {
    hide Digit01, ByX;
    DigitsFlip(w);
    forall k | 0 <= k < 15 && k != 4 && k != 11 ensures Digit01(ByX(w), k + 1) == Digit01(w, k) { DigitsMove(w, k); }
  }

  /** Multiplication by x on the pieces of a number, without and with its highest digit. */
  lemma {:induction false} MulXCut(low: nat, d4: nat, middle: nat, d11: nat, upper: nat, d15: nat)
    requires low < 0x10 && middle < 0x40 && upper < 8 && d4 <= 1 && d11 <= 1 && d15 <= 1
    ensures var c, d := if d15 == 1 then 1 - d4 else d4, if d15 == 1 then 1 - d11 else d11;
      MulX(low + 0x10 * d4 + 0x20 * middle + 0x800 * d11 + 0x1000 * upper + 0x8000 * d15)
        == d15 + 2 * low + 0x20 * c + 0x40 * middle + 0x1000 * d + 0x2000 * upper
  {
    hide FlipPolynomial, Xor;
    if d15 == 1 {
      var m, h := d4 + 2 * middle, d11 + 2 * upper;
      FlipCut(low, m, h);
      FlipIsXor(2 * low + 0x20 * m + 0x1000 * h);
    }
  }

  lemma {:induction false} ByXIsMulX(w: Word)
    ensures Value(ByX(w)) == MulX(Value(w))
  {
    hide ByX, Lower4, Middle6, Upper3, Digit01, MulX;
    ValueByX(w);
    CutBounds(w);
    DigitsFlip(w);
    MulXCut(Lower4(w), Digit01(w, 4), Middle6(w), Digit01(w, 11), Upper3(w), Digit01(w, 15));
  }

  lemma {:induction false} PowerIsShift(n: nat)
    ensures Value(Power(n)) == Shift(1, n)
  {
    hide ByX, Value, MulX;
    if n == 0 {
      assert Value(ONE) == 1 by { ValueOfOne(ONE); }
    } else {
      PowerIsShift(n - 1);
      ByXIsMulX(Power(n - 1));
      ShiftMulX(1, n - 1);
    }
  }

  lemma {:induction false} DigitsOfOne(w: Word)
    requires Value(w) == 1
    ensures Digit01(w, 0) == 1 && forall k :: 1 <= k < 16 ==> Digit01(w, k) == 0
  {
    hide Digit01;
    CutBounds(w);
    forall k | 1 <= k < 16 ensures Digit01(w, k) == 0 {
      assert k in [1, 2, 3, 4, 5, 6, 7, 8, 9, 10, 11, 12, 13, 14, 15];
    }
  }

  lemma {:induction false} ValueOfOne(w: Word)
    ensures Value(w) == 1 <==> w == ONE
  {
    if Value(w) == 1 {
      DigitsOfOne(w);
      SameWord(w, ONE);
    }
  }

  // ---------------------------------------------------------------------------------------
  // Two flipped bits
  // ---------------------------------------------------------------------------------------

  lemma {:induction false} ShiftShift(c: u16, m: nat, n: nat)
    ensures Shift(Shift(c, m), n) == Shift(c, m + n)
    decreases m
  {
    if m > 0 { ShiftShift(MulX(c), m - 1, n); }
  }

  /** What two ones at distance `d` leave in the register. */
  lemma {:induction false} TwoOnes(d: nat)
    requires d > 0
    ensures FeedAll(0, [true] + (Zeros(d - 1) + [true])) == Shift(Xor16(Shift(1, d), 1), 16)
  {
    hide MulX, Shift, Xor, FeedAll;
    FeedAllAppend(0, [true], Zeros(d - 1) + [true]);
    FeedOne(0);
    FeedOne(Shift(POLYNOMIAL, d - 1));
    assert MulX(0) == 0 by { ShiftZeroOnce(); }
    XorZero(POLYNOMIAL);
    FeedAllAppend(POLYNOMIAL, Zeros(d - 1), [true]);
    FeedZeros(POLYNOMIAL, d - 1);
    ShiftNext(POLYNOMIAL, d - 1);
    ShiftOne();
    ShiftShift(1, 16, d);
    ShiftShift(1, d, 16);
    ShiftLinear(Shift(1, d), 1, 16);
  }

  lemma {:induction false} FeedOne(c: u16)
    ensures FeedAll(c, [true]) == Xor16(MulX(c), POLYNOMIAL)
  {
    assert [true][1..] == [];
  }

  lemma ShiftZeroOnce()
    ensures MulX(0) == 0
  {}

  lemma {:induction false} ShiftNext(c: u16, n: nat)
    ensures MulX(Shift(c, n)) == Shift(c, n + 1)
  {
    ShiftMulX(c, n);
  }

  /** Exactly the bits `p` and `q` of the two messages differ. */
  predicate DifferAt(a: seq<byte>, b: seq<byte>, p: nat, q: nat)
    requires |a| == |b|
  {
    forall k :: 0 <= k < 8 * |a| ==> (MessageBits(a)[k] != MessageBits(b)[k] <==> k == p || k == q)
  }

  /**
    Messages of one length, whatever it is, that differ in exactly two bits have the same CRC if
    and only if the distance of these bits is a multiple of 32767.
   */
  lemma {:induction false} TwoBitErrorsExactly(a: seq<byte>, b: seq<byte>, p: nat, q: nat)
    requires |a| == |b| && p < q < 8 * |a| && DifferAt(a, b, p, q)
    ensures Crc(a) == Crc(b) <==> (q - p) % 32767 == 0
  {
    hide Shift, Xor, FeedAll, Crc, MessageBits;
    var d, x := q - p, XorBits(MessageBits(a), MessageBits(b));
    var burst := [true] + (Zeros(d - 1) + [true]);
    assert x == Zeros(p) + (burst + Zeros(|x| - q - 1));
    CrcEqualIff(a, b);
    CrcOfBits(XorBytes(a, b));
    MessageBitsXor(a, b);
    ZerosAround(p, burst, |x| - q - 1);
    TwoOnes(d);
    ZeroExactly(FeedAll(0, burst), |x| - q - 1);
    ZeroExactly(Xor16(Shift(1, d), 1), 16);
    XorSelf(1);
    if Xor16(Shift(1, d), 1) == 0 { XorZeroMeansEqual(Shift(1, d), 1); }
    PowerIsShift(d);
    ValueOfOne(Power(d));
    PeriodsExactly(d);
  }

  lemma {:induction false} CrcOfBits(m: seq<byte>)
    ensures Crc(m) == FeedAll(0, MessageBits(m))
  {
    CrcFromIsFeed(0, m);
  }

  lemma {:induction false} ZeroExactly(c: u16, n: nat)
    ensures Shift(c, n) == 0 <==> c == 0
  {
    ShiftZero(n);
    if Shift(c, n) == 0 { ShiftKernel(c, n); }
  }
}
