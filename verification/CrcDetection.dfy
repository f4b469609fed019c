/** Which differences between two messages the CRC is sure to notice. */
module CrcDetection {
  import opened Bits
  import opened Crc16

  function XorBytes(a: seq<byte>, b: seq<byte>): (x: seq<byte>)
    requires |a| == |b|
    ensures |x| == |a|
  {
    seq(|a|, i requires 0 <= i < |a| => Xor8(a[i], b[i]))
  }

  /** How many bits of two equally long bit strings differ. */
  function Differences(s: seq<bool>, t: seq<bool>): nat
    requires |s| == |t|
  {
    if s == [] then 0 else (if s[0] != t[0] then 1 else 0) + Differences(s[1..], t[1..])
  }

  predicate SameOutside(s: seq<bool>, t: seq<bool>, from: nat, to: nat)
    requires |s| == |t|
  {
    forall k :: 0 <= k < |s| && !(from <= k < to) ==> s[k] == t[k]
  }

  // ---------------------------------------------------------------------------------------
  // Linearity
  // ---------------------------------------------------------------------------------------

  lemma {:induction false} MessageBitsXor(a: seq<byte>, b: seq<byte>)
    requires |a| == |b|
    ensures MessageBits(XorBytes(a, b)) == XorBits(MessageBits(a), MessageBits(b))
    decreases |a|
  {
    if a != [] {
      BitsXor(a[0], b[0], 8);
      assert XorBytes(a, b)[1..] == XorBytes(a[1..], b[1..]);
      MessageBitsXor(a[1..], b[1..]);
    }
  }

  lemma CrcLinear(a: seq<byte>, b: seq<byte>)
    requires |a| == |b|
    ensures Crc(XorBytes(a, b)) == Xor(Crc(a), Crc(b))
  {
    CrcFromIsFeed(0, a);
    CrcFromIsFeed(0, b);
    CrcFromIsFeed(0, XorBytes(a, b));
    MessageBitsXor(a, b);
    FeedAllLinear(0, 0, MessageBits(a), MessageBits(b));
    XorZero(0);
  }

  lemma CrcEqualIff(a: seq<byte>, b: seq<byte>)
    requires |a| == |b|
    ensures Crc(a) == Crc(b) <==> Crc(XorBytes(a, b)) == 0
  {
    CrcLinear(a, b);
    XorSelf(Crc(a));
    if Crc(XorBytes(a, b)) == 0 { XorZeroMeansEqual(Crc(a), Crc(b)); }
  }

  // ---------------------------------------------------------------------------------------
  // Bursts
  // ---------------------------------------------------------------------------------------

  lemma {:induction false} BitsDetermineMessage(a: seq<byte>, b: seq<byte>)
    requires |a| == |b| && MessageBits(a) == MessageBits(b)
    ensures a == b
    decreases |a|
  {
    if a != [] {
      var s, t := MessageBits(a), MessageBits(b);
      assert s[..8] == BitsOf(a[0], 8) && s[8..] == MessageBits(a[1..]);
      assert t[..8] == BitsOf(b[0], 8) && t[8..] == MessageBits(b[1..]);
      Pow2Values();
      BitsOfPad(a[0], 8);
      BitsOfPad(b[0], 8);
      BitsDetermineMessage(a[1..], b[1..]);
    }
  }

  lemma ZerosAround(i: nat, burst: seq<bool>, j: nat)
    ensures FeedAll(0, Zeros(i) + (burst + Zeros(j))) == Shift(FeedAll(0, burst), j)
  {
    FeedAllAppend(0, Zeros(i), burst + Zeros(j));
    FeedZeros(0, i);
    ShiftZero(i);
    FeedAllAppend(0, burst, Zeros(j));
    FeedZeros(FeedAll(0, burst), j);
  }

  lemma ShortBurst(burst: seq<bool>, j: nat)
    requires |burst| <= 16 && true in burst
    ensures Shift(FeedAll(0, burst), j) != 0
  {
    FeedIsLoadAndShift(burst);
    PadNonzero(burst, 16);
    if Shift(FeedAll(0, burst), j) == 0 {
      ShiftKernel(FeedAll(0, burst), j);
      ShiftKernel(Pad(burst, 16), |burst|);
      assert false;
    }
  }

  /** A nonzero error whose ones all lie within 16 consecutive bits leaves a nonzero remainder. */
  lemma BurstLeavesRemainder(x: seq<bool>, from: nat)
    requires true in x
    requires forall k :: 0 <= k < |x| && !(from <= k < from + 16) ==> !x[k]
    ensures FeedAll(0, x) != 0
  {
    var i := if from < |x| then from else |x|;
    var j := if from + 16 < |x| then from + 16 else |x|;
    var burst := x[i..j];
    assert x == Zeros(i) + (burst + Zeros(|x| - j));
    var k :| 0 <= k < |x| && x[k];
    assert burst[k - i];
    ZerosAround(i, burst, |x| - j);
    ShortBurst(burst, |x| - j);
  }

  /** Two different messages of one length that differ only within 16 consecutive bits have different CRCs. */
  lemma CrcDetectsBurst(a: seq<byte>, b: seq<byte>, from: nat)
    requires |a| == |b| && a != b
    requires SameOutside(MessageBits(a), MessageBits(b), from, from + 16)
    ensures Crc(a) != Crc(b)
  {
    var s, t := MessageBits(a), MessageBits(b);
    if s == t { BitsDetermineMessage(a, b); }
    var k :| 0 <= k < |s| && s[k] != t[k];
    assert XorBits(s, t)[k];
    CrcEqualIff(a, b);
    CrcFromIsFeed(0, XorBytes(a, b));
    MessageBitsXor(a, b);
    BurstLeavesRemainder(XorBits(s, t), from);
  }

  /** On two bytes the CRC is injective. */
  lemma CrcInjectiveOnTwoBytes(a: seq<byte>, b: seq<byte>)
    requires |a| == |b| == 2
    ensures Crc(a) == Crc(b) <==> a == b
  {
    if a != b { CrcDetectsBurst(a, b, 0); }
  }

  lemma {:induction false} CrcFromTwo(c: u16, a: byte, b: byte, rest: seq<byte>)
    ensures CrcFrom(c, [a, b] + rest) == CrcFrom(CrcStep(CrcStep(c, a), b), rest)
  {
    hide CrcStep;
    assert ([a, b] + rest)[1..] == [b] + rest && ([b] + rest)[1..] == rest;
    assert CrcFrom(c, [a, b] + rest) == CrcFrom(CrcStep(c, a), [b] + rest);
  }

  /** Two bytes that are followed by their own CRC have the CRC 0. */
  lemma CrcOfOwnCrc(a: byte, b: byte)
    ensures var c := Crc([a, b]); Crc([a, b, High(c), Low(c)]) == 0
  {
    hide CrcStep, CrcFrom;
    var c := Crc([a, b]);
    CrcFromTwo(0, a, b, []);
    CrcFromTwo(0, a, b, [High(c), Low(c)]);
    CrcFromTwo(c, High(c), Low(c), []);
    assert [a, b] + [] == [a, b] && [High(c), Low(c)] + [] == [High(c), Low(c)];
    assert [a, b] + [High(c), Low(c)] == [a, b, High(c), Low(c)];
    CrcFromNone(CrcStep(CrcStep(0, a), b));
    CrcFromNone(0);
    StepByOwnByte(c);
  }

  lemma CrcFromNone(c: u16)
    ensures CrcFrom(c, []) == c
  {}

  lemma StepByOwnByte(c: u16)
    ensures CrcStep(c, High(c)) == 0x100 * Low(c) && CrcStep(0x100 * Low(c), Low(c)) == 0
  {
    hide Xor;
    XorSelf(High(c));
    XorSelf(Low(c));
    XorZero(0x100 * Low(c));
    XorZero(0);
    assert Table(0) == 0;
  }

  // ---------------------------------------------------------------------------------------
  // Parity
  // ---------------------------------------------------------------------------------------

  predicate OddBits(bits: seq<bool>) {
    if bits == [] then false else bits[0] != OddBits(bits[1..])
  }

  lemma OddMulX(c: u16)
    ensures Odd(MulX(c)) == Odd(c)
  {
    Pow2Values();
    MulXSplits(c);
    OddXor(2 * Lower(c), Carry(c));
    OddPolynomial();
    if c >= 0x8000 { OddTop(Lower(c), 15); }
  }

  lemma OddPolynomial()
    ensures Odd(POLYNOMIAL)
  {
    assert Odd(2);
    assert Odd(8);
    assert Odd(0x20);
    assert !Odd(0x81);
    assert !Odd(0x204);
    assert !Odd(0x810);
  }

  lemma {:induction false} OddFeedAll(c: u16, bits: seq<bool>)
    ensures Odd(FeedAll(c, bits)) == (Odd(c) != OddBits(bits))
    decreases |bits|
  {
    if bits != [] {
      var front := if bits[0] then POLYNOMIAL else 0;
      OddMulX(c);
      OddXor(MulX(c), front);
      OddPolynomial();
      OddFeedAll(Feed(c, bits[0]), bits[1..]);
    }
  }

  /** The generator has an even number of terms, so the CRC keeps the parity of the message. */
  lemma CrcParity(message: seq<byte>)
    ensures Odd(Crc(message)) == OddBits(MessageBits(message))
  {
    CrcFromIsFeed(0, message);
    OddFeedAll(0, MessageBits(message));
  }

  lemma {:induction false} ParityOfDifferences(s: seq<bool>, t: seq<bool>)
    requires |s| == |t|
    ensures (Differences(s, t) % 2 == 1) == (OddBits(s) != OddBits(t))
  {
    if s != [] { ParityOfDifferences(s[1..], t[1..]); }
  }
}
