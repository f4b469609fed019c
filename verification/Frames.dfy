/**
  The frame of the UART link layer: a 16-byte header, big-endian fields, a CRC over the length
  field and a CRC over the whole frame computed with the checksum field zeroed.

    0..5 "uArTcP" | 6 sequence | 7 control | 8..9 cmd | 10..11 checksum | 12..13 length |
    14..15 CRC of the length | payload
 */
module Frames {
  import opened Bits
  import opened Crc16
  import opened CrcDetection

  const HEADER_SIZE := 16
  const SYNC: seq<byte> := [0x75, 0x41, 0x72, 0x54, 0x63, 0x50]

  // Bit indices of the control byte.
  const ACK := 0
  const ACKED := 1
  const NACK := 2

  datatype Packet = Packet(sequence: byte, control: byte, cmd: u16, payload: seq<byte>)

  predicate IsBitSet(control: byte, index: nat) { (control / Pow2(index)) % 2 == 1 }

  function Control(reliable: bool, isAck: bool, isNack: bool): byte {
    (if reliable then 1 else 0) + (if isAck then 2 else 0) + (if isNack then 4 else 0)
  }

  /** The length of a packet is kept in 16 bits. */
  function PacketLength(payloadLen: u16): u16 { (payloadLen + HEADER_SIZE) % 0x10000 }

  function LengthField(f: seq<byte>): u16
    requires |f| >= HEADER_SIZE
  {
    BigEndian(f[12], f[13])
  }

  function ChecksumField(f: seq<byte>): u16
    requires |f| >= HEADER_SIZE
  {
    BigEndian(f[10], f[11])
  }

  predicate LengthCrcValid(f: seq<byte>)
    requires |f| >= HEADER_SIZE
  {
    BigEndian(f[14], f[15]) == Crc([f[12], f[13]])
  }

  function WithChecksum(f: seq<byte>, checksum: u16): (r: seq<byte>)
    requires |f| >= HEADER_SIZE
    ensures |r| == |f|
  {
    f[10 := High(checksum)][11 := Low(checksum)]
  }

  /** The checksum a frame ought to carry. */
  function ExpectedChecksum(f: seq<byte>): u16
    requires |f| >= HEADER_SIZE && |f| >= PacketLength(LengthField(f))
  {
    Crc(WithChecksum(f, 0)[..PacketLength(LengthField(f))])
  }

  predicate ChecksumValid(f: seq<byte>)
    requires |f| >= HEADER_SIZE && |f| >= PacketLength(LengthField(f))
  {
    ChecksumField(f) == ExpectedChecksum(f)
  }

  /** The length field tells the length. */
  predicate Sized(f: seq<byte>) {
    |f| >= HEADER_SIZE && |f| == HEADER_SIZE + LengthField(f) < 0x10000
  }

  /** Sync word, length and length CRC agree; this alone decides where a frame ends. */
  predicate Delimited(f: seq<byte>) {
    |f| >= HEADER_SIZE && f[..|SYNC|] == SYNC && LengthCrcValid(f) && |f| == HEADER_SIZE + LengthField(f)
  }

  function Header(p: Packet): (h: seq<byte>)
    requires |p.payload| < 0x10000
    ensures |h| == HEADER_SIZE
  {
    var len: u16 := |p.payload|;
    var lengthCrc := Crc([High(len), Low(len)]);
    SYNC + [p.sequence, p.control, High(p.cmd), Low(p.cmd), 0, 0, High(len), Low(len), High(lengthCrc), Low(lengthCrc)]
  }

  function Encode(p: Packet): (f: seq<byte>)
    requires |p.payload| < 0x10000
    ensures |f| == HEADER_SIZE + |p.payload|
  {
    var f := Header(p) + p.payload;
    WithChecksum(f, ExpectedChecksum(f))
  }

  function Decode(f: seq<byte>): Packet
    requires |f| >= HEADER_SIZE && |f| >= HEADER_SIZE + LengthField(f)
  {
    Packet(f[6], f[7], BigEndian(f[8], f[9]), f[HEADER_SIZE..HEADER_SIZE + LengthField(f)])
  }

  // ---------------------------------------------------------------------------------------
  // The methods that fill and check a frame in place
  // ---------------------------------------------------------------------------------------

  method PutBigEndian(packet: array<byte>, at: nat, value: u16)
    requires at + 2 <= packet.Length
    modifies packet
    ensures packet[..] == old(packet[..])[at := High(value)][at + 1 := Low(value)]
  {
    packet[at] := High(value);
    packet[at + 1] := Low(value);
  }

  method CalculateChecksum(packet: array<byte>)
    requires packet.Length >= HEADER_SIZE
    requires packet.Length >= PacketLength(BigEndian(packet[12], packet[13]))
    modifies packet
    ensures packet[..] == WithChecksum(old(packet[..]), ExpectedChecksum(old(packet[..])))
  {
    PutBigEndian(packet, 10, 0);
    var zeroed := packet[..];
    assert zeroed == WithChecksum(old(packet[..]), 0);
    var len := PacketLength(BigEndian(packet[12], packet[13]));
    var checksum := ComputeCrc(packet, len);
    assert packet[..len] == zeroed[..len];
    PutBigEndian(packet, 10, checksum);
  }

  /** Recomputes the checksum into the packet, whether or not it was right. */
  method CheckChecksum(packet: array<byte>) returns (valid: bool)
    requires packet.Length >= HEADER_SIZE
    requires packet.Length >= PacketLength(BigEndian(packet[12], packet[13]))
    modifies packet
    ensures valid == ChecksumValid(old(packet[..]))
    ensures packet[..] == WithChecksum(old(packet[..]), ExpectedChecksum(old(packet[..])))
  {
    var checksum := BigEndian(packet[10], packet[11]);
    CalculateChecksum(packet);
    valid := checksum == BigEndian(packet[10], packet[11]);
  }

  method CopyInto(packet: array<byte>, at: nat, source: seq<byte>)
    requires at + |source| <= packet.Length
    modifies packet
    ensures packet[..] == old(packet[..at]) + source + old(packet[at + |source|..])
  {
    for i := 0 to |source|
      invariant packet[..at] == old(packet[..at])
      invariant packet[at..at + i] == source[..i]
      invariant packet[at + |source|..] == old(packet[at + |source|..])
    {
      packet[at + i] := source[i];
    }
    assert packet[..] == packet[..at] + packet[at..at + |source|] + packet[at + |source|..];
  }

  method FillFront(packet: array<byte>, p: Packet)
    requires packet.Length >= HEADER_SIZE && packet[10] == packet[11] == 0
    modifies packet
    ensures packet[..12] == SYNC + [p.sequence, p.control, High(p.cmd), Low(p.cmd), 0, 0]
  {
    hide High, Low;
    CopyInto(packet, 0, SYNC);
    packet[6], packet[7] := p.sequence, p.control;
    PutBigEndian(packet, 8, p.cmd);
  }

  method FillLength(packet: array<byte>, len: u16)
    requires packet.Length >= HEADER_SIZE
    modifies packet
    ensures var lengthCrc := Crc([High(len), Low(len)]);
      packet[..] == old(packet[..12]) + [High(len), Low(len), High(lengthCrc), Low(lengthCrc)]
        + old(packet[HEADER_SIZE..])
  {
    hide Crc, High, Low;
    PutBigEndian(packet, 12, len);
    var lengthBytes := new byte[2];
    lengthBytes[0], lengthBytes[1] := packet[12], packet[13];
    assert lengthBytes[..2] == [High(len), Low(len)];
    var lengthCrc := ComputeCrc(lengthBytes, 2);
    PutBigEndian(packet, 14, lengthCrc);
  }

  /** Fills a packet whose header has been zeroed. */
  method AssemblePacket(packet: array<byte>, p: Packet)
    requires packet.Length == HEADER_SIZE + |p.payload| && |p.payload| < 0x10000
    requires packet[10] == packet[11] == 0
    modifies packet
    ensures packet[..] == Encode(p)
  {
    hide Crc, High, Low, BigEndian, ExpectedChecksum, WithChecksum;
    FillFront(packet, p);
    var front := packet[..12];
    CopyInto(packet, HEADER_SIZE, p.payload);
    assert packet[..12] == front;
    assert packet[HEADER_SIZE..] == p.payload;
    var len: u16 := |p.payload|;
    FillLength(packet, len);
    assert packet[..] == Header(p) + p.payload;
    BigEndianInverse(len);
    CalculateChecksum(packet);
  }

  // ---------------------------------------------------------------------------------------
  // Assembling and disassembling are inverse
  // ---------------------------------------------------------------------------------------

  lemma WithChecksumTwice(f: seq<byte>, c: u16, d: u16)
    requires |f| >= HEADER_SIZE
    ensures WithChecksum(WithChecksum(f, c), d) == WithChecksum(f, d)
    ensures ChecksumField(WithChecksum(f, c)) == c
  {}

  lemma BigEndianInverse(v: u16)
    ensures BigEndian(High(v), Low(v)) == v
  {}

  lemma EncodeFields(p: Packet)
    requires |p.payload| <= 65519
    ensures var e := Encode(p); var len: u16 := |p.payload|; var lengthCrc := Crc([High(len), Low(len)]);
      && e[..6] == SYNC
      && e[6..10] == [p.sequence, p.control, High(p.cmd), Low(p.cmd)]
      && e[12..HEADER_SIZE] == [High(len), Low(len), High(lengthCrc), Low(lengthCrc)]
      && e[HEADER_SIZE..] == p.payload
  {
    hide Crc, ExpectedChecksum;
  }

  predicate IsEncoding(f: seq<byte>, p: Packet) { Delimited(f) && Sized(f) && ChecksumValid(f) && Decode(f) == p }

  /** An assembled frame is delimited, carries the right checksum and gives back the packet. */
  lemma EncodeThenDecode(p: Packet)
    requires |p.payload| <= 65519
    ensures IsEncoding(Encode(p), p)
  {
    hide Crc;
    var e := Encode(p);
    var len: u16 := |p.payload|;
    EncodeFields(p);
    assert [e[12], e[13], e[14], e[15]] == e[12..HEADER_SIZE];
    assert [e[6], e[7], e[8], e[9]] == e[6..10];
    BigEndianInverse(len);
    BigEndianInverse(p.cmd);
    BigEndianInverse(Crc([High(len), Low(len)]));
    var f := Header(p) + p.payload;
    WithChecksumTwice(f, ExpectedChecksum(f), 0);
    assert WithChecksum(f, 0) == f;
  }

  lemma WordInverse(h: byte, l: byte)
    ensures High(BigEndian(h, l)) == h && Low(BigEndian(h, l)) == l
  {}

  /** Nothing else is delimited with a valid checksum: such frames are exactly the assembled ones. */
  lemma DecodeThenEncode(f: seq<byte>)
    requires Delimited(f) && Sized(f) && ChecksumValid(f)
    ensures Encode(Decode(f)) == f
  {
    hide Crc, High, Low, BigEndian, ExpectedChecksum;
    var p := Decode(f);
    WordInverse(f[8], f[9]);
    WordInverse(f[10], f[11]);
    WordInverse(f[12], f[13]);
    WordInverse(f[14], f[15]);
    var h := Header(p);
    assert h[..6] == f[..6];
    assert h == f[..10] + [0, 0] + f[12..HEADER_SIZE];
    assert h + p.payload == f[10 := 0][11 := 0];
    SameExpectation(f, h + p.payload);
  }

  predicate Expects(f: seq<byte>, checksum: u16)
    requires Sized(f)
  {
    ExpectedChecksum(f) == checksum
  }

  lemma SameExpectation(f: seq<byte>, g: seq<byte>)
    requires Sized(f) && g == f[10 := 0][11 := 0]
    ensures Sized(g) && Expects(g, ExpectedChecksum(f))
  {
    hide Crc;
    SizedExpectation(f);
    SizedExpectation(g);
    assert WithChecksum(f, 0) == WithChecksum(g, 0);
  }

  /** Two bytes of a frame, the high one first. */
  function Word(high: int, low: int): int { 256 * high + low }

  /** The frame on the wire, byte for byte. */
  predicate Layout(e: seq<byte>, p: Packet) {
    && |e| == 16 + |p.payload|
    && e[0] == 'u' as int && e[1] == 'A' as int && e[2] == 'r' as int
    && e[3] == 'T' as int && e[4] == 'c' as int && e[5] == 'P' as int
    && e[6] == p.sequence && e[7] == p.control && Word(e[8], e[9]) == p.cmd
    && Word(e[10], e[11]) == Crc(e[10 := 0][11 := 0])
    && Word(e[12], e[13]) == |p.payload| && Word(e[14], e[15]) == Crc([e[12], e[13]])
    && e[16..] == p.payload
  }

  lemma {:induction false} WireLayout(p: Packet)
    requires |p.payload| <= 65519
    ensures Layout(Encode(p), p)
  {
    hide Encode, Layout;
    EncodeThenDecode(p);
    LayoutOf(Encode(p), p);
  }

  lemma {:induction false} LayoutOf(e: seq<byte>, p: Packet)
    requires IsEncoding(e, p)
    ensures Layout(e, p)
  {
    hide Crc, ChecksumValid;
    ChecksumByBytes(e);
    SyncBytes(e);
  }

  lemma {:induction false} SyncBytes(e: seq<byte>)
    requires |e| >= |SYNC| && e[..|SYNC|] == SYNC
    ensures e[0] == 'u' as int && e[1] == 'A' as int && e[2] == 'r' as int
    ensures e[3] == 'T' as int && e[4] == 'c' as int && e[5] == 'P' as int
  {
    assert forall i :: 0 <= i < |SYNC| ==> e[i] == e[..|SYNC|][i];
  }

  /** What the checksum is compared with. */
  lemma {:induction false} ChecksumByBytes(f: seq<byte>)
    requires Sized(f)
    ensures ChecksumValid(f) <==> Word(f[10], f[11]) == Crc(f[10 := 0][11 := 0])
  {
    hide Crc;
    SizedExpectation(f);
    assert WithChecksum(f, 0) == f[10 := 0][11 := 0];
  }

  // ---------------------------------------------------------------------------------------
  // Corruption that leaves the length alone
  // ---------------------------------------------------------------------------------------

  lemma XorOfZeroed(f: seq<byte>, g: seq<byte>)
    requires |f| == |g| >= HEADER_SIZE
    ensures XorBytes(WithChecksum(f, 0), WithChecksum(g, 0)) == WithChecksum(XorBytes(f, g), 0)
  {
    XorZero(0);
  }

  /** A changed frame passes exactly when the change, taken as a message, carries its own CRC. */
  lemma UndetectedExactly(f: seq<byte>, g: seq<byte>)
    requires Sized(f) && ChecksumValid(f)
    requires |g| == |f| && LengthField(g) == LengthField(f)
    ensures ChecksumValid(g) <==>
      Crc(WithChecksum(XorBytes(f, g), 0)) == Xor(ChecksumField(f), ChecksumField(g))
  {
    hide Crc, Xor;
    var f0, g0 := WithChecksum(f, 0), WithChecksum(g, 0);
    SizedExpectation(f);
    SizedExpectation(g);
    XorOfZeroed(f, g);
    CrcLinear(f0, g0);
    XorCancels(Crc(f0), Crc(g0), ChecksumField(g));
  }

  lemma SizedExpectation(f: seq<byte>)
    requires Sized(f)
    ensures ExpectedChecksum(f) == Crc(WithChecksum(f, 0))
  {
    hide Crc;
    var f0 := WithChecksum(f, 0);
    assert f0[..|f|] == f0;
  }

  lemma XorCancels(a: nat, b: nat, c: nat)
    ensures Xor(a, b) == Xor(a, c) <==> b == c
  {
    hide Xor;
    XorAssociates(a, a, b);
    XorAssociates(a, a, c);
    XorSelf(a);
    XorZero(b);
    XorZero(c);
  }

  lemma SameXorZeroed(f: seq<byte>, g: seq<byte>)
    requires |g| == |f| >= HEADER_SIZE && f[10] == g[10] && f[11] == g[11]
    ensures XorBytes(f, g) == XorBytes(WithChecksum(f, 0), WithChecksum(g, 0))
  {
    hide Xor;
    XorSelf(f[10]);
    XorSelf(f[11]);
    XorZero(0);
  }

  /** With equal checksum fields, zeroing them does not change where two frames differ. */
  lemma SameOutsideZeroed(f: seq<byte>, g: seq<byte>, from: nat, to: nat)
    requires |g| == |f| >= HEADER_SIZE && f[10] == g[10] && f[11] == g[11]
    requires SameOutside(MessageBits(f), MessageBits(g), from, to)
    ensures SameOutside(MessageBits(WithChecksum(f, 0)), MessageBits(WithChecksum(g, 0)), from, to)
  {
    hide Xor, MessageBits;
    var f0, g0 := WithChecksum(f, 0), WithChecksum(g, 0);
    SameXorZeroed(f, g);
    MessageBitsXor(f, g);
    MessageBitsXor(f0, g0);
    forall k | 0 <= k < 8 * |f| && !(from <= k < to)
      ensures MessageBits(f0)[k] == MessageBits(g0)[k]
    {
      assert XorBits(MessageBits(f), MessageBits(g))[k] == XorBits(MessageBits(f0), MessageBits(g0))[k];
    }
  }

  /** A change within 16 consecutive bits outside the checksum field that leaves the length alone fails the checksum. */
  lemma BurstFailsChecksum(f: seq<byte>, g: seq<byte>, from: nat)
    requires Sized(f) && ChecksumValid(f)
    requires |g| == |f| && g != f && LengthField(g) == LengthField(f)
    requires f[10] == g[10] && f[11] == g[11]
    requires SameOutside(MessageBits(f), MessageBits(g), from, from + 16)
    ensures !ChecksumValid(g)
  {
    hide Crc, SameOutside;
    var f0, g0 := WithChecksum(f, 0), WithChecksum(g, 0);
    SizedExpectation(f);
    SizedExpectation(g);
    SameOutsideZeroed(f, g, from, from + 16);
    var i :| 0 <= i < |f| && f[i] != g[i];
    assert f0[i] != g0[i];
    CrcDetectsBurst(f0, g0, from);
  }

  lemma {:induction false} MessageBitsAppend(a: seq<byte>, b: seq<byte>)
    ensures MessageBits(a + b) == MessageBits(a) + MessageBits(b)
    decreases |a|
  {
    if a == [] {
      assert a + b == b;
    } else {
      assert (a + b)[1..] == a[1..] + b;
      MessageBitsAppend(a[1..], b);
    }
  }

  /** Where the bits of a part of two messages differ, the bits of the messages do. */
  lemma SameOutsidePart(f: seq<byte>, g: seq<byte>, i: nat, j: nat, from: nat)
    requires |g| == |f| && i <= j <= |f|
    requires SameOutside(MessageBits(f), MessageBits(g), from, from + 16)
    ensures var at := if from < 8 * i then 0 else from - 8 * i;
      SameOutside(MessageBits(f[i..j]), MessageBits(g[i..j]), at, at + 16)
  {
    hide MessageBits;
    PartBits(f, i, j);
    PartBits(g, i, j);
    forall k | 0 <= k < 8 * (j - i) && !(from <= 8 * i + k < from + 16)
      ensures MessageBits(f[i..j])[k] == MessageBits(g[i..j])[k]
    {
      assert MessageBits(f)[8 * i + k] == MessageBits(g)[8 * i + k];
    }
  }

  lemma PartBits(f: seq<byte>, i: nat, j: nat)
    requires i <= j <= |f|
    ensures forall k :: 0 <= k < 8 * (j - i) ==> MessageBits(f[i..j])[k] == MessageBits(f)[8 * i + k]
  {
    hide MessageBits;
    assert f == f[..i] + (f[i..j] + f[j..]);
    MessageBitsAppend(f[..i], f[i..j] + f[j..]);
    MessageBitsAppend(f[i..j], f[j..]);
  }

  /** The length and its CRC together are a message whose CRC is 0. */
  lemma LengthWithItsCrc(f: seq<byte>)
    requires |f| >= HEADER_SIZE && LengthCrcValid(f)
    ensures Crc(f[12..HEADER_SIZE]) == 0
  {
    hide Crc, High, Low, BigEndian;
    CrcOfOwnCrc(f[12], f[13]);
    WordInverse(f[14], f[15]);
    assert f[12..HEADER_SIZE] == [f[12], f[13], f[14], f[15]];
  }

  /** A burst cannot lead from one length that passes its CRC to another one that does. */
  lemma BurstKeepsLength(f: seq<byte>, g: seq<byte>, from: nat)
    requires |g| == |f| >= HEADER_SIZE && LengthCrcValid(f) && LengthCrcValid(g)
    requires SameOutside(MessageBits(f), MessageBits(g), from, from + 16)
    ensures f[12..HEADER_SIZE] == g[12..HEADER_SIZE] && LengthField(g) == LengthField(f)
  {
    hide Crc, SameOutside, LengthCrcValid, MessageBits;
    LengthWithItsCrc(f);
    LengthWithItsCrc(g);
    SameOutsidePart(f, g, 12, HEADER_SIZE, from);
    var x, y := f[12..HEADER_SIZE], g[12..HEADER_SIZE];
    if x != y { CrcDetectsBurst(x, y, if from < 96 then 0 else from - 96); }
    assert f[12] == x[0] && f[13] == x[1] && g[12] == y[0] && g[13] == y[1];
  }

  /**
    Any change of a valid frame within 16 consecutive bits outside the checksum field is noticed,
    whichever field it touches: a changed length fails its own CRC, any other change the checksum.
   */
  lemma BurstDetected(f: seq<byte>, g: seq<byte>, from: nat)
    requires Delimited(f) && Sized(f) && ChecksumValid(f)
    requires |g| == |f| && g != f && f[10] == g[10] && f[11] == g[11]
    requires SameOutside(MessageBits(f), MessageBits(g), from, from + 16)
    ensures !(Delimited(g) && ChecksumValid(g))
    ensures LengthCrcValid(g) ==> LengthField(g) == LengthField(f) && !ChecksumValid(g)
  {
    hide Crc, SameOutside, LengthCrcValid, MessageBits, ChecksumValid;
    if LengthCrcValid(g) {
      BurstKeepsLength(f, g, from);
      BurstFailsChecksum(f, g, from);
    }
  }

  lemma {:induction false} OddBitsAppend(s: seq<bool>, t: seq<bool>)
    ensures OddBits(s + t) == (OddBits(s) != OddBits(t))
    decreases |s|
  {
    if s == [] {
      assert s + t == t;
    } else {
      assert (s + t)[1..] == s[1..] + t;
      OddBitsAppend(s[1..], t);
    }
  }

  lemma {:induction false} OddBitsOf(v: nat, n: nat)
    requires v < Pow2(n)
    ensures OddBits(BitsOf(v, n)) == Odd(v)
    decreases n
  {
    if n > 0 {
      OddBitsOf(v / 2, n - 1);
      OddBitsAppend(BitsOf(v / 2, n - 1), [v % 2 == 1]);
    }
  }

  predicate OddMessage(m: seq<byte>) { OddBits(MessageBits(m)) }

  lemma OddMessageAppend(a: seq<byte>, b: seq<byte>)
    ensures OddMessage(a + b) == (OddMessage(a) != OddMessage(b))
  {
    MessageBitsAppend(a, b);
    OddBitsAppend(MessageBits(a), MessageBits(b));
  }

  lemma OddMessageOfWord(v: u16)
    ensures OddMessage([High(v), Low(v)]) == Odd(v)
  {
    hide Odd, Xor;
    var h, l := High(v), Low(v);
    Pow2Values();
    OddMessageOfByte(h);
    OddMessageOfByte(l);
    assert [h, l] == [h] + [l];
    OddMessageAppend([h], [l]);
    HighAndLow(h, l, 8);
    OddXor(Append0(h, 8), l);
    OddAppend0(h, 8);
    Append8(h);
  }

  lemma OddMessageOfByte(b: byte)
    ensures OddMessage([b]) == Odd(b)
  {
    hide Odd;
    Pow2Values();
    OddBitsOf(b, 8);
    assert [b][1..] == [];
    assert MessageBits([b]) == BitsOf(b, 8) + MessageBits([]);
    assert BitsOf(b, 8) + [] == BitsOf(b, 8);
  }

  lemma {:induction false} OddAppend0(v: nat, k: nat)
    ensures Odd(Append0(v, k)) == Odd(v)
  {
    if k > 0 { OddAppend0(v, k - 1); }
  }

  /** Every valid frame has an even number of one bits. */
  lemma ValidFrameIsEven(f: seq<byte>)
    requires Sized(f) && ChecksumValid(f)
    ensures !OddMessage(f)
  {
    hide Crc, OddMessage;
    var c := ChecksumField(f);
    var f0 := WithChecksum(f, 0);
    SizedExpectation(f);
    assert f == f[..10] + ([High(c), Low(c)] + f[12..]);
    assert f0 == f[..10] + ([High(0), Low(0)] + f[12..]);
    OddMessageAppend(f[..10], [High(c), Low(c)] + f[12..]);
    OddMessageAppend([High(c), Low(c)], f[12..]);
    OddMessageAppend(f[..10], [High(0), Low(0)] + f[12..]);
    OddMessageAppend([High(0), Low(0)], f[12..]);
    OddMessageOfWord(c);
    OddMessageOfWord(0);
    CrcKeepsParity(f0);
  }

  lemma CrcKeepsParity(m: seq<byte>)
    ensures Odd(Crc(m)) == OddMessage(m)
  {
    CrcParity(m);
  }

  /** Any odd number of flipped bits that leaves the length alone fails the checksum. */
  lemma OddFlipsFailChecksum(f: seq<byte>, g: seq<byte>)
    requires Sized(f) && ChecksumValid(f)
    requires |g| == |f| && LengthField(g) == LengthField(f)
    requires Differences(MessageBits(f), MessageBits(g)) % 2 == 1
    ensures !ChecksumValid(g)
  {
    hide Crc, MessageBits, Differences, OddBits;
    ParityOfDifferences(MessageBits(f), MessageBits(g));
    ValidFrameIsEven(f);
    if ChecksumValid(g) { ValidFrameIsEven(g); }
  }

  /** Any odd number of flipped bits, wherever they are, leaves something that is not a valid frame. */
  lemma OddFlipsDetected(f: seq<byte>, g: seq<byte>)
    requires Sized(f) && ChecksumValid(f) && |g| == |f|
    requires Differences(MessageBits(f), MessageBits(g)) % 2 == 1
    ensures !(Delimited(g) && ChecksumValid(g))
  {
    hide Crc, MessageBits, Differences, ChecksumValid, LengthCrcValid;
    if Delimited(g) { OddFlipsFailChecksum(f, g); }
  }
}
