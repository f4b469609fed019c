/**
  The CRC-16 of the UART link layer: table driven, generator x^16 + x^12 + x^5 + 1
  (the polynomial of section 2 of ITU-T V.41), zero initial value, no reflection.

  The byte loop over the table is proved equal to bit-by-bit polynomial long division,
  and the error-detection facts the frame layer needs are proved from that.
 */
module Crc16 {
  import opened Bits

  // ---------------------------------------------------------------------------------------
  // The table and the byte loop
  // ---------------------------------------------------------------------------------------

  // The 256-entry table, in rows of eight.
  const ROW_0: seq<u16> := [0x0000, 0x1021, 0x2042, 0x3063, 0x4084, 0x50a5, 0x60c6, 0x70e7]
  const ROW_1: seq<u16> := [0x8108, 0x9129, 0xa14a, 0xb16b, 0xc18c, 0xd1ad, 0xe1ce, 0xf1ef]
  const ROW_2: seq<u16> := [0x1231, 0x0210, 0x3273, 0x2252, 0x52b5, 0x4294, 0x72f7, 0x62d6]
  const ROW_3: seq<u16> := [0x9339, 0x8318, 0xb37b, 0xa35a, 0xd3bd, 0xc39c, 0xf3ff, 0xe3de]
  const ROW_4: seq<u16> := [0x2462, 0x3443, 0x0420, 0x1401, 0x64e6, 0x74c7, 0x44a4, 0x5485]
  const ROW_5: seq<u16> := [0xa56a, 0xb54b, 0x8528, 0x9509, 0xe5ee, 0xf5cf, 0xc5ac, 0xd58d]
  const ROW_6: seq<u16> := [0x3653, 0x2672, 0x1611, 0x0630, 0x76d7, 0x66f6, 0x5695, 0x46b4]
  const ROW_7: seq<u16> := [0xb75b, 0xa77a, 0x9719, 0x8738, 0xf7df, 0xe7fe, 0xd79d, 0xc7bc]
  const ROW_8: seq<u16> := [0x48c4, 0x58e5, 0x6886, 0x78a7, 0x0840, 0x1861, 0x2802, 0x3823]
  const ROW_9: seq<u16> := [0xc9cc, 0xd9ed, 0xe98e, 0xf9af, 0x8948, 0x9969, 0xa90a, 0xb92b]
  const ROW_10: seq<u16> := [0x5af5, 0x4ad4, 0x7ab7, 0x6a96, 0x1a71, 0x0a50, 0x3a33, 0x2a12]
  const ROW_11: seq<u16> := [0xdbfd, 0xcbdc, 0xfbbf, 0xeb9e, 0x9b79, 0x8b58, 0xbb3b, 0xab1a]
  const ROW_12: seq<u16> := [0x6ca6, 0x7c87, 0x4ce4, 0x5cc5, 0x2c22, 0x3c03, 0x0c60, 0x1c41]
  const ROW_13: seq<u16> := [0xedae, 0xfd8f, 0xcdec, 0xddcd, 0xad2a, 0xbd0b, 0x8d68, 0x9d49]
  const ROW_14: seq<u16> := [0x7e97, 0x6eb6, 0x5ed5, 0x4ef4, 0x3e13, 0x2e32, 0x1e51, 0x0e70]
  const ROW_15: seq<u16> := [0xff9f, 0xefbe, 0xdfdd, 0xcffc, 0xbf1b, 0xaf3a, 0x9f59, 0x8f78]
  const ROW_16: seq<u16> := [0x9188, 0x81a9, 0xb1ca, 0xa1eb, 0xd10c, 0xc12d, 0xf14e, 0xe16f]
  const ROW_17: seq<u16> := [0x1080, 0x00a1, 0x30c2, 0x20e3, 0x5004, 0x4025, 0x7046, 0x6067]
  const ROW_18: seq<u16> := [0x83b9, 0x9398, 0xa3fb, 0xb3da, 0xc33d, 0xd31c, 0xe37f, 0xf35e]
  const ROW_19: seq<u16> := [0x02b1, 0x1290, 0x22f3, 0x32d2, 0x4235, 0x5214, 0x6277, 0x7256]
  const ROW_20: seq<u16> := [0xb5ea, 0xa5cb, 0x95a8, 0x8589, 0xf56e, 0xe54f, 0xd52c, 0xc50d]
  const ROW_21: seq<u16> := [0x34e2, 0x24c3, 0x14a0, 0x0481, 0x7466, 0x6447, 0x5424, 0x4405]
  const ROW_22: seq<u16> := [0xa7db, 0xb7fa, 0x8799, 0x97b8, 0xe75f, 0xf77e, 0xc71d, 0xd73c]
  const ROW_23: seq<u16> := [0x26d3, 0x36f2, 0x0691, 0x16b0, 0x6657, 0x7676, 0x4615, 0x5634]
  const ROW_24: seq<u16> := [0xd94c, 0xc96d, 0xf90e, 0xe92f, 0x99c8, 0x89e9, 0xb98a, 0xa9ab]
  const ROW_25: seq<u16> := [0x5844, 0x4865, 0x7806, 0x6827, 0x18c0, 0x08e1, 0x3882, 0x28a3]
  const ROW_26: seq<u16> := [0xcb7d, 0xdb5c, 0xeb3f, 0xfb1e, 0x8bf9, 0x9bd8, 0xabbb, 0xbb9a]
  const ROW_27: seq<u16> := [0x4a75, 0x5a54, 0x6a37, 0x7a16, 0x0af1, 0x1ad0, 0x2ab3, 0x3a92]
  const ROW_28: seq<u16> := [0xfd2e, 0xed0f, 0xdd6c, 0xcd4d, 0xbdaa, 0xad8b, 0x9de8, 0x8dc9]
  const ROW_29: seq<u16> := [0x7c26, 0x6c07, 0x5c64, 0x4c45, 0x3ca2, 0x2c83, 0x1ce0, 0x0cc1]
  const ROW_30: seq<u16> := [0xef1f, 0xff3e, 0xcf5d, 0xdf7c, 0xaf9b, 0xbfba, 0x8fd9, 0x9ff8]
  const ROW_31: seq<u16> := [0x6e17, 0x7e36, 0x4e55, 0x5e74, 0x2e93, 0x3eb2, 0x0ed1, 0x1ef0]

  function Row(k: int): (row: seq<u16>)
    ensures |row| == 8
  {
    match k
    case 0 => ROW_0
    case 1 => ROW_1
    case 2 => ROW_2
    case 3 => ROW_3
    case 4 => ROW_4
    case 5 => ROW_5
    case 6 => ROW_6
    case 7 => ROW_7
    case 8 => ROW_8
    case 9 => ROW_9
    case 10 => ROW_10
    case 11 => ROW_11
    case 12 => ROW_12
    case 13 => ROW_13
    case 14 => ROW_14
    case 15 => ROW_15
    case 16 => ROW_16
    case 17 => ROW_17
    case 18 => ROW_18
    case 19 => ROW_19
    case 20 => ROW_20
    case 21 => ROW_21
    case 22 => ROW_22
    case 23 => ROW_23
    case 24 => ROW_24
    case 25 => ROW_25
    case 26 => ROW_26
    case 27 => ROW_27
    case 28 => ROW_28
    case 29 => ROW_29
    case 30 => ROW_30
    case _ => ROW_31
  }

  function Table(x: byte): u16 { Row(x / 8)[x % 8] }

  /** One iteration of the byte loop. */
  function CrcStep(crc: u16, b: byte): u16 {
    Xor16((crc * 0x100) % 0x10000, Table(Xor8(crc / 0x100, b)))
  }

  function CrcFrom(crc: u16, message: seq<byte>): u16
    decreases |message|
  {
    if message == [] then crc else CrcFrom(CrcStep(crc, message[0]), message[1..])
  }

  function Crc(message: seq<byte>): u16 { CrcFrom(0, message) }

  /** The loop of the source. */
  method ComputeCrc(message: array<byte>, len: nat) returns (crc: u16)
    requires len <= message.Length
    ensures crc == Crc(message[..len])
  {
    crc := 0;
    for counter := 0 to len
      invariant CrcFrom(crc, message[counter..len]) == Crc(message[..len])
    {
      assert message[counter..len][1..] == message[counter + 1..len];
      crc := CrcStep(crc, message[counter]);
    }
  }

  // ---------------------------------------------------------------------------------------
  // Bit strings, and long division by the generator
  // ---------------------------------------------------------------------------------------

  const GENERATOR := 0x11021

  /** The generator without its leading term. */
  const POLYNOMIAL: u16 := 0x1021

  function Bit(b: bool): nat { if b then 1 else 0 }

  /** The `n` low bits of `v`, most significant first. */
  function BitsOf(v: nat, n: nat): (bits: seq<bool>)
    ensures |bits| == n
  {
    if n == 0 then [] else BitsOf(v / 2, n - 1) + [v % 2 == 1]
  }

  function MessageBits(message: seq<byte>): (bits: seq<bool>)
    ensures |bits| == 8 * |message|
  {
    if message == [] then [] else BitsOf(message[0], 8) + MessageBits(message[1..])
  }

  function Zeros(n: nat): (zeros: seq<bool>)
    ensures |zeros| == n
  {
    seq(n, _ => false)
  }

  /** Bring down the next bit of the dividend, and subtract the generator if it fits. */
  function DivideStep(remainder: u16, b: bool): u16 {
    var dividend := 2 * remainder + Bit(b);
    if dividend < 0x10000 then dividend else ReducedIsWord(dividend); Xor(dividend, GENERATOR)
  }

  lemma ReducedIsWord(dividend: nat)
    requires 0x10000 <= dividend < 0x20000
    ensures Xor(dividend, GENERATOR) == Xor(dividend - 0x10000, POLYNOMIAL)
    ensures Xor(dividend, GENERATOR) < 0x10000
  {
    Pow2Values();
    XorTops(dividend - 0x10000, POLYNOMIAL, 16);
    XorBound(dividend - 0x10000, POLYNOMIAL, 16);
  }

  /** The remainder of long division, over GF(2), of a bit string by the generator. */
  function Divide(remainder: u16, bits: seq<bool>): u16
    decreases |bits|
  {
    if bits == [] then remainder else Divide(DivideStep(remainder, bits[0]), bits[1..])
  }

  // ---------------------------------------------------------------------------------------
  // The shift register: the same division, with the 16 trailing zero bits folded in
  // ---------------------------------------------------------------------------------------

  /** Multiplication by x modulo the generator. */
  function MulX(c: u16): u16 {
    if c < 0x8000 then 2 * c else Xor16(2 * c - 0x10000, POLYNOMIAL)
  }

  function Shift(c: u16, n: nat): u16
    decreases n
  {
    if n == 0 then c else Shift(MulX(c), n - 1)
  }

  function Feed(c: u16, b: bool): u16 {
    Xor16(MulX(c), if b then POLYNOMIAL else 0)
  }

  function FeedAll(c: u16, bits: seq<bool>): u16
    decreases |bits|
  {
    if bits == [] then c else FeedAll(Feed(c, bits[0]), bits[1..])
  }

  /** What comes back when the top bit is shifted out. */
  function Carry(c: u16): u16 { if c < 0x8000 then 0 else POLYNOMIAL }

  function Lower(c: u16): u16 { if c < 0x8000 then c else c - 0x8000 }

  lemma MulXSplits(c: u16)
    ensures MulX(c) == Xor(2 * Lower(c), Carry(c))
  {
    XorZero(2 * c);
  }

  lemma TopBitCases(a: nat, b: nat)
    requires a < 0x8000 && b < 0x8000
    ensures Xor(a, b) < 0x8000
    ensures Xor(a + 0x8000, b) == Xor(a, b + 0x8000) == Xor(a, b) + 0x8000
    ensures Xor(a + 0x8000, b + 0x8000) == Xor(a, b)
  {
    Pow2Values();
    XorBound(a, b, 15);
    XorTop(a, b, 15);
    XorTops(a, b, 15);
    XorTop(b, a, 15);
    XorCommutes(a, b + 0x8000);
    XorCommutes(a, b);
  }

  lemma TopBitXor(a: u16, b: u16)
    ensures Xor(a, b) < 0x10000
    ensures Lower(Xor(a, b)) == Xor(Lower(a), Lower(b))
    ensures Xor(a, b) < 0x8000 <==> (a < 0x8000 <==> b < 0x8000)
  {
    TopBitCases(Lower(a), Lower(b));
  }

  lemma CarryXor(a: u16, b: u16)
    ensures Carry(Xor16(a, b)) == Xor(Carry(a), Carry(b))
  {
    TopBitXor(a, b);
    XorSelf(POLYNOMIAL);
    XorZero(POLYNOMIAL);
  }

  lemma MulXLinear(a: u16, b: u16)
    ensures MulX(Xor16(a, b)) == Xor16(MulX(a), MulX(b))
  {
    MulXSplits(a);
    MulXSplits(b);
    MulXSplits(Xor16(a, b));
    TopBitXor(a, b);
    CarryXor(a, b);
    XorDouble(Lower(a), Lower(b));
    XorSwap(2 * Lower(a), Carry(a), 2 * Lower(b), Carry(b));
  }

  lemma MulXKernel(c: u16)
    requires MulX(c) == 0
    ensures c == 0
  {
    MulXSplits(c);
    XorZeroMeansEqual(2 * Lower(c), Carry(c));
  }

  lemma {:induction false} ShiftLinear(a: u16, b: u16, n: nat)
    ensures Shift(Xor16(a, b), n) == Xor16(Shift(a, n), Shift(b, n))
    decreases n
  {
    if n > 0 {
      MulXLinear(a, b);
      ShiftLinear(MulX(a), MulX(b), n - 1);
    }
  }

  lemma {:induction false} ShiftKernel(c: u16, n: nat)
    requires Shift(c, n) == 0
    ensures c == 0
    decreases n
  {
    if n > 0 {
      ShiftKernel(MulX(c), n - 1);
      MulXKernel(c);
    }
  }

  lemma {:induction false} FeedAllLinear(c: u16, d: u16, s: seq<bool>, t: seq<bool>)
    requires |s| == |t|
    ensures FeedAll(Xor16(c, d), XorBits(s, t)) == Xor16(FeedAll(c, s), FeedAll(d, t))
    decreases |s|
  {
    if s != [] {
      FeedLinear(c, d, s[0], t[0]);
      assert XorBits(s, t)[1..] == XorBits(s[1..], t[1..]);
      FeedAllLinear(Feed(c, s[0]), Feed(d, t[0]), s[1..], t[1..]);
    }
  }

  function XorBits(s: seq<bool>, t: seq<bool>): (x: seq<bool>)
    requires |s| == |t|
    ensures |x| == |s|
  {
    seq(|s|, i requires 0 <= i < |s| => s[i] != t[i])
  }

  lemma FeedLinear(c: u16, d: u16, s: bool, t: bool)
    ensures Feed(Xor16(c, d), s != t) == Xor16(Feed(c, s), Feed(d, t))
  {
    var ps, pt := if s then POLYNOMIAL else 0, if t then POLYNOMIAL else 0;
    MulXLinear(c, d);
    XorSelf(POLYNOMIAL);
    XorZero(POLYNOMIAL);
    XorSwap(MulX(c), ps, MulX(d), pt);
  }

  lemma {:induction false} FeedAllAppend(c: u16, s: seq<bool>, t: seq<bool>)
    ensures FeedAll(c, s + t) == FeedAll(FeedAll(c, s), t)
    decreases |s|
  {
    if s == [] {
      assert s + t == t;
    } else {
      assert (s + t)[1..] == s[1..] + t;
      FeedAllAppend(Feed(c, s[0]), s[1..], t);
    }
  }

  lemma {:induction false} FeedZeros(c: u16, n: nat)
    ensures FeedAll(c, Zeros(n)) == Shift(c, n)
    decreases n
  {
    if n > 0 {
      XorZero(MulX(c));
      assert Zeros(n)[1..] == Zeros(n - 1);
      FeedZeros(MulX(c), n - 1);
    }
  }

  /** The register after `bits` is the shifted old contents plus what the bits leave in a zero register. */
  lemma FeedAllSplits(c: u16, bits: seq<bool>)
    ensures FeedAll(c, bits) == Xor16(Shift(c, |bits|), FeedAll(0, bits))
  {
    var zeros := Zeros(|bits|);
    FeedAllLinear(c, 0, zeros, bits);
    FeedZeros(c, |bits|);
    XorZero(c);
    assert XorBits(zeros, bits) == bits;
  }

  // ---------------------------------------------------------------------------------------
  // Long division and the shift register agree
  // ---------------------------------------------------------------------------------------

  lemma DivideStepIsMulX(r: u16, b: bool)
    ensures DivideStep(r, b) == Xor(MulX(r), Bit(b))
  {
    hide Xor;
    if r < 0x8000 {
      XorLowBit(2 * r, Bit(b));
    } else {
      var low := 2 * r - 0x10000;
      ReducedIsWord(low + Bit(b) + 0x10000);
      XorLowBit(low, Bit(b));
      XorAssociates(low, Bit(b), POLYNOMIAL);
      XorCommutes(Bit(b), POLYNOMIAL);
      XorAssociates(low, POLYNOMIAL, Bit(b));
    }
  }

  lemma {:induction false} ShiftMulX(c: u16, n: nat)
    ensures Shift(MulX(c), n) == MulX(Shift(c, n))
    decreases n
  {
    if n > 0 { ShiftMulX(MulX(c), n - 1); }
  }

  lemma ShiftOne()
    ensures Shift(1, 16) == POLYNOMIAL
  {
    assert Shift(1, 16) == Shift(0x10, 12) == Shift(0x100, 8) == Shift(0x1000, 4) == Shift(0x8000, 1);
    XorZero(POLYNOMIAL);
  }

  /** Sixteen zero bits after the message turn the remainder into the register. */
  lemma {:induction false} DivideThenShift(r: u16, bits: seq<bool>)
    ensures Shift(Divide(r, bits), 16) == FeedAll(Shift(r, 16), bits)
    decreases |bits|
  {
    if bits != [] {
      var b := bits[0];
      DivideStepIsMulX(r, b);
      ShiftLinear(MulX(r), Bit(b), 16);
      ShiftMulX(r, 16);
      ShiftOne();
      ShiftZero(16);
      DivideThenShift(DivideStep(r, b), bits[1..]);
    }
  }

  lemma {:induction false} ShiftZero(n: nat)
    ensures Shift(0, n) == 0
  {
    if n > 0 { ShiftZero(n - 1); }
  }

  lemma {:induction false} DivideZeros(r: u16, n: nat)
    ensures Divide(r, Zeros(n)) == Shift(r, n)
    decreases n
  {
    if n > 0 {
      DivideStepIsMulX(r, false);
      XorZero(MulX(r));
      assert Zeros(n)[1..] == Zeros(n - 1);
      DivideZeros(MulX(r), n - 1);
    }
  }

  lemma {:induction false} DivideAppend(r: u16, s: seq<bool>, t: seq<bool>)
    ensures Divide(r, s + t) == Divide(Divide(r, s), t)
    decreases |s|
  {
    if s == [] {
      assert s + t == t;
    } else {
      assert (s + t)[1..] == s[1..] + t;
      DivideAppend(DivideStep(r, s[0]), s[1..], t);
    }
  }

  /** The register is the remainder of the message with 16 zero bits appended. */
  lemma RegisterIsRemainder(bits: seq<bool>)
    ensures FeedAll(0, bits) == Divide(0, bits + Zeros(16))
  {
    DivideAppend(0, bits, Zeros(16));
    DivideZeros(Divide(0, bits), 16);
    DivideThenShift(0, bits);
    ShiftZero(16);
  }

  // ---------------------------------------------------------------------------------------
  // The table
  // ---------------------------------------------------------------------------------------

  /** Exclusive or with the polynomial: bits 0, 5 and 12 are flipped. */
  function FlipPolynomial(c: int): int {
    c + (if c % 2 == 1 then -1 else 1)
      + (if (c / 0x20) % 2 == 1 then -0x20 else 0x20)
      + (if (c / 0x1000) % 2 == 1 then -0x1000 else 0x1000)
  }

  lemma FlipIsXor(c: u16)
    ensures FlipPolynomial(c) == Xor(c, POLYNOMIAL)
  {
    assert Xor(c, 0x1021) == 0x20 * Xor(c / 0x20, 0x81) + c % 0x20 + (if c % 2 == 1 then -1 else 1) by {
      XorStep(c, 0x1021);
      XorShift16(c / 2, 0x81);
      assert c / 2 / 16 == c / 0x20;
    }
    FlipHighBits(c / 0x20);
    assert c / 0x20 / 0x80 == c / 0x1000;
  }

  lemma FlipHighBits(d: nat)
    ensures Xor(d, 0x81) == d + (if d % 2 == 1 then -1 else 1) + (if (d / 0x80) % 2 == 1 then -0x80 else 0x80)
  {
    XorStep(d, 0x81);
    XorShift16(d / 2, 4);
    XorShift4(d / 0x20, 1);
    assert d / 2 / 16 == d / 0x20;
    assert d / 0x20 / 4 == d / 0x80;
    XorStep(d / 0x80, 1);
    XorZero(d / 0x80 / 2);
  }

  lemma XorShift4(c: nat, g: nat)
    ensures Xor(c, 4 * g) == 4 * Xor(c / 4, g) + c % 4
  {
    assert 2 * (2 * g) == 4 * g && c / 2 / 2 == c / 4;
    XorStep(c, 2 * (2 * g));
    XorStep(c / 2, 2 * g);
  }

  lemma XorShift16(c: nat, g: nat)
    ensures Xor(c, 16 * g) == 16 * Xor(c / 16, g) + c % 16
  {
    assert 4 * (4 * g) == 16 * g && c / 4 / 4 == c / 16;
    XorShift4(c, 4 * g);
    XorShift4(c / 4, g);
  }

  /** The entries at twice an index, and next to it, come from one more multiplication by x. */
  predicate Doubled(entry: u16, even: u16, odd: u16) {
    && even == (if entry < 0x8000 then 2 * entry else FlipPolynomial(2 * entry - 0x10000))
    && odd == FlipPolynomial(even)
  }

  predicate Doubles(e: seq<u16>, d: seq<u16>, f: seq<u16>)
    requires |e| == |d| == |f| == 8
  {
    && Doubled(e[0], d[0], d[1]) && Doubled(e[1], d[2], d[3]) && Doubled(e[2], d[4], d[5]) && Doubled(e[3], d[6], d[7])
    && Doubled(e[4], f[0], f[1]) && Doubled(e[5], f[2], f[3]) && Doubled(e[6], f[4], f[5]) && Doubled(e[7], f[6], f[7])
  }

  lemma Doubles0() ensures Doubles(ROW_0, ROW_0, ROW_1) {}
  lemma Doubles1() ensures Doubles(ROW_1, ROW_2, ROW_3) {}
  lemma Doubles2() ensures Doubles(ROW_2, ROW_4, ROW_5) {}
  lemma Doubles3() ensures Doubles(ROW_3, ROW_6, ROW_7) {}
  lemma Doubles4() ensures Doubles(ROW_4, ROW_8, ROW_9) {}
  lemma Doubles5() ensures Doubles(ROW_5, ROW_10, ROW_11) {}
  lemma Doubles6() ensures Doubles(ROW_6, ROW_12, ROW_13) {}
  lemma Doubles7() ensures Doubles(ROW_7, ROW_14, ROW_15) {}
  lemma Doubles8() ensures Doubles(ROW_8, ROW_16, ROW_17) {}
  lemma Doubles9() ensures Doubles(ROW_9, ROW_18, ROW_19) {}
  lemma Doubles10() ensures Doubles(ROW_10, ROW_20, ROW_21) {}
  lemma Doubles11() ensures Doubles(ROW_11, ROW_22, ROW_23) {}
  lemma Doubles12() ensures Doubles(ROW_12, ROW_24, ROW_25) {}
  lemma Doubles13() ensures Doubles(ROW_13, ROW_26, ROW_27) {}
  lemma Doubles14() ensures Doubles(ROW_14, ROW_28, ROW_29) {}
  lemma Doubles15() ensures Doubles(ROW_15, ROW_30, ROW_31) {}

  lemma RowDoubles(k: int)
    requires 0 <= k < 16
    ensures Doubles(Row(k), Row(2 * k), Row(2 * k + 1))
  {
    match k
    case 0 => Doubles0();
    case 1 => Doubles1();
    case 2 => Doubles2();
    case 3 => Doubles3();
    case 4 => Doubles4();
    case 5 => Doubles5();
    case 6 => Doubles6();
    case 7 => Doubles7();
    case 8 => Doubles8();
    case 9 => Doubles9();
    case 10 => Doubles10();
    case 11 => Doubles11();
    case 12 => Doubles12();
    case 13 => Doubles13();
    case 14 => Doubles14();
    case _ => Doubles15();
  }

  lemma DoubledAt(e: seq<u16>, d: seq<u16>, f: seq<u16>, j: nat)
    requires |e| == |d| == |f| == 8 && Doubles(e, d, f) && j < 8
    ensures j < 4 ==> Doubled(e[j], d[2 * j], d[2 * j + 1])
    ensures j >= 4 ==> Doubled(e[j], f[2 * j - 8], f[2 * j - 7])
  {
    hide Doubled;
  }

  lemma TableDoubles(i: byte)
    requires i < 0x80
    ensures Doubled(Table(i), Table(2 * i), Table(2 * i + 1))
  {
    hide Row, Doubles, Doubled;
    var k, j := i / 8, i % 8;
    RowDoubles(k);
    DoubledAt(Row(k), Row(2 * k), Row(2 * k + 1), j);
    if j < 4 {
      assert (2 * i) / 8 == (2 * i + 1) / 8 == 2 * k && (2 * i) % 8 == 2 * j;
    } else {
      assert (2 * i) / 8 == (2 * i + 1) / 8 == 2 * k + 1 && (2 * i) % 8 == 2 * j - 8;
    }
  }

  /** Each entry continues the entry of half its index by one more message bit. */
  lemma TableFeeds(x: byte)
    ensures Table(x) == Feed(Table(x / 2), x % 2 == 1)
  {
    hide Table, FlipPolynomial;
    var entry: u16 := Table(x / 2);
    TableDoubles(x / 2);
    if entry >= 0x8000 { FlipIsXor(2 * entry - 0x10000); }
    FlipIsXor(MulX(entry));
    XorZero(MulX(entry));
  }

  /** Every entry is what the shift register holds after the bits of its index. */
  lemma {:induction false} TableIsRegister(x: byte, n: nat)
    requires n <= 8 && x < Pow2(n)
    ensures Table(x) == FeedAll(0, BitsOf(x, n))
    decreases n
  {
    if n == 0 {
      assert Table(0) == 0;
    } else {
      hide Table;
      TableIsRegister(x / 2, n - 1);
      FeedAllAppend(0, BitsOf(x / 2, n - 1), [x % 2 == 1]);
      TableFeeds(x);
    }
  }

  /** Every entry is the remainder of its index, moved up 16 places, by the generator. */
  lemma TableIsRemainder(x: byte)
    ensures Table(x) == Divide(0, BitsOf(x, 8) + Zeros(16))
  {
    hide Table;
    Pow2Values();
    TableIsRegister(x, 8);
    RegisterIsRemainder(BitsOf(x, 8));
  }

  lemma {:induction false} BitsXor(a: nat, b: nat, n: nat)
    ensures BitsOf(Xor(a, b), n) == XorBits(BitsOf(a, n), BitsOf(b, n))
    decreases n
  {
    if n > 0 {
      XorStep(a, b);
      BitsXor(a / 2, b / 2, n - 1);
    }
  }

  lemma TableLinear(x: byte, y: byte)
    ensures Table(Xor8(x, y)) == Xor(Table(x), Table(y))
  {
    hide Table;
    Pow2Values();
    TableIsRegister(x, 8);
    TableIsRegister(y, 8);
    TableIsRegister(Xor8(x, y), 8);
    BitsXor(x, y, 8);
    XorZero(0);
    FeedAllLinear(0, 0, BitsOf(x, 8), BitsOf(y, 8));
  }

  // ---------------------------------------------------------------------------------------
  // A bit string placed at the top of the register
  // ---------------------------------------------------------------------------------------

  /** `bits` as the leading bits of an n-bit number. */
  function Pad(bits: seq<bool>, n: nat): (v: nat)
    requires |bits| <= n
    ensures v < Pow2(n)
    decreases n
  {
    if bits == [] then 0 else (if bits[0] then Pow2(n - 1) else 0) + Pad(bits[1..], n - 1)
  }

  lemma {:induction false} PadDoubles(bits: seq<bool>, n: nat)
    requires |bits| <= n
    ensures Pad(bits, n + 1) == 2 * Pad(bits, n)
    decreases n
  {
    if bits != [] { PadDoubles(bits[1..], n - 1); }
  }

  lemma {:induction false} PadNonzero(bits: seq<bool>, n: nat)
    requires |bits| <= n && true in bits
    ensures Pad(bits, n) > 0
    decreases n
  {
    if !bits[0] {
      assert true in bits[1..];
      PadNonzero(bits[1..], n - 1);
    }
  }

  /** Up to 16 bits fed one at a time leave the same register as loading them at the top and shifting. */
  lemma {:induction false} FeedIsLoadAndShift(bits: seq<bool>)
    requires |bits| <= 16
    ensures Pad(bits, 16) < 0x10000
    ensures FeedAll(0, bits) == Shift(Pad(bits, 16), |bits|)
    decreases |bits|
  {
    hide Xor, MulX;
    Pow2Values();
    if bits != [] {
      var rest := bits[1..];
      var front := if bits[0] then POLYNOMIAL else 0;
      FeedIsLoadAndShift(rest);
      FeedFirst(bits[0]);
      FeedAllSplits(front, rest);
      ShiftLinear(front, Pad(rest, 16), |rest|);
      PadDoubles(rest, 15);
      ShiftLoaded(bits[0], Pad(rest, 15));
    }
  }

  lemma FeedFirst(b: bool)
    ensures Feed(0, b) == if b then POLYNOMIAL else 0
  {
    XorZero(POLYNOMIAL);
  }

  /** Shifting out the first of the loaded bits. */
  lemma ShiftLoaded(b: bool, rest: nat)
    requires rest < 0x8000
    ensures MulX((if b then 0x8000 else 0) + rest) == Xor16(if b then POLYNOMIAL else 0, 2 * rest)
  {
    XorCommutes(POLYNOMIAL, 2 * rest);
    XorZero(2 * rest);
  }

  lemma {:induction false} BitsOfPad(v: nat, n: nat)
    requires v < Pow2(n)
    ensures Pad(BitsOf(v, n), n) == v
    decreases n
  {
    if n > 0 {
      BitsOfPad(v / 2, n - 1);
      PadSnoc(BitsOf(v / 2, n - 1), v % 2 == 1, n);
      PadDoubles(BitsOf(v / 2, n - 1), n - 1);
    }
  }

  lemma {:induction false} PadSnoc(bits: seq<bool>, b: bool, n: nat)
    requires |bits| + 1 == n
    ensures Pad(bits + [b], n) == Pad(bits, n) + Bit(b)
    decreases n
  {
    if bits != [] {
      assert (bits + [b])[1..] == bits[1..] + [b];
      PadSnoc(bits[1..], b, n - 1);
    }
  }

  /** `v` with `k` zero bits appended. */
  function Append0(v: nat, k: nat): (w: nat)
  {
    if k == 0 then v else 2 * Append0(v, k - 1)
  }

  lemma Append8(v: nat)
    ensures Append0(v, 8) == 0x100 * v
  {
    assert Append0(v, 1) == 2 * v;
    assert Append0(v, 3) == 8 * v;
    assert Append0(v, 5) == 0x20 * v;
    assert Append0(v, 7) == 0x80 * v;
  }

  lemma {:induction false} PadMany(bits: seq<bool>, n: nat, k: nat)
    requires |bits| <= n
    ensures Pad(bits, n + k) == Append0(Pad(bits, n), k)
    decreases k
  {
    if k > 0 {
      PadMany(bits, n, k - 1);
      PadDoubles(bits, n + k - 1);
    }
  }

  // ---------------------------------------------------------------------------------------
  // The byte loop is the shift register
  // ---------------------------------------------------------------------------------------

  lemma {:induction false} ShiftSmall(c: u16, n: nat)
    requires Append0(c, n) < 0x10000
    ensures Shift(c, n) == Append0(c, n)
    decreases n
  {
    if n > 0 {
      Append0Later(c, n - 1);
      ShiftSmall(2 * c, n - 1);
    }
  }

  lemma {:induction false} Append0Later(v: nat, k: nat)
    ensures Append0(2 * v, k) == 2 * Append0(v, k)
    ensures Append0(v, k) >= v
  {
    if k > 0 { Append0Later(v, k - 1); }
  }

  lemma ShiftHighByte(h: byte)
    ensures Shift(0x100 * h, 8) == Table(h)
  {
    hide Table;
    Pow2Values();
    var bits := BitsOf(h, 8);
    TableIsRegister(h, 8);
    FeedIsLoadAndShift(bits);
    BitsOfPad(h, 8);
    PadMany(bits, 8, 8);
    Append8(h);
  }

  lemma {:induction false} HighAndLow(h: nat, l: nat, n: nat)
    requires l < Pow2(n)
    ensures Xor(Append0(h, n), l) == Append0(h, n) + l
    decreases n
  {
    if n == 0 {
      XorZero(h);
    } else {
      HighAndLow(h, l / 2, n - 1);
      XorStep(Append0(h, n), l);
    }
  }

  lemma StepSplits(crc: u16, b: byte)
    ensures CrcStep(crc, b) == Xor(Xor(Table(crc / 0x100), 0x100 * (crc % 0x100)), Table(b))
  {
    hide Table, Xor;
    var h, l := crc / 0x100, crc % 0x100;
    TableLinear(h, b);
    XorCommutes(Table(h), 0x100 * l);
    XorAssociates(0x100 * l, Table(h), Table(b));
    assert (crc * 0x100) % 0x10000 == 0x100 * l;
  }

  lemma ShiftByte(crc: u16)
    ensures Shift(crc, 8) == Xor(Table(crc / 0x100), 0x100 * (crc % 0x100))
  {
    hide Table;
    Pow2Values();
    var h, l := crc / 0x100, crc % 0x100;
    HighAndLow(h, l, 8);
    Append8(h);
    Append8(l);
    ShiftLinear(0x100 * h, l, 8);
    ShiftHighByte(h);
    ShiftSmall(l, 8);
  }

  /** One iteration of the byte loop feeds the eight bits of the byte. */
  lemma StepIsFeed(crc: u16, b: byte)
    ensures CrcStep(crc, b) == FeedAll(crc, BitsOf(b, 8))
  {
    hide Table, CrcStep;
    Pow2Values();
    StepSplits(crc, b);
    ShiftByte(crc);
    TableIsRegister(b, 8);
    FeedAllSplits(crc, BitsOf(b, 8));
  }

  lemma {:induction false} CrcFromIsFeed(crc: u16, message: seq<byte>)
    ensures CrcFrom(crc, message) == FeedAll(crc, MessageBits(message))
    decreases |message|
  {
    if message != [] {
      StepIsFeed(crc, message[0]);
      FeedAllAppend(crc, BitsOf(message[0], 8), MessageBits(message[1..]));
      CrcFromIsFeed(CrcStep(crc, message[0]), message[1..]);
    }
  }

  /** The table-driven loop computes the remainder of long division by x^16 + x^12 + x^5 + 1. */
  lemma CrcIsRemainder(message: seq<byte>)
    ensures Crc(message) == Divide(0, MessageBits(message) + Zeros(16))
  {
    CrcFromIsFeed(0, message);
    RegisterIsRemainder(MessageBits(message));
  }
}
