/**
  What the link layer does with one frame handed over by the receive machine: acknowledgements
  and negative acknowledgements are consumed, data frames are acknowledged, checked for
  repetition and passed to the application.
 */
module Link {
  import opened Bits
  import opened Crc16
  import opened Frames
  import opened Receiver

  /** The part of the global state that frames act on; -1 stands for "no such sequence number". */
  datatype LinkState = LinkState(sequence: byte, acked: bool, currentAcked: int, lastReceived: int)

  /** A call made to one of the registered hooks. */
  datatype Effect = Written(bytes: seq<byte>) | Notified(cmd: u16, payload: seq<byte>) | Woken

  const TRY_RESEND_TIMES: nat := 5
  const PAYLOAD_TOO_LONG := -9999
  const PAYLOAD_ACK_TIMEOUT := -9998

  const INITIAL_LINK := LinkState(0, false, 127, -1)

  function CurrentSequence(link: LinkState): byte { (link.sequence + 0xff) % 0x100 }

  predicate IsAcked(p: Packet) { p.cmd == 0 && p.payload == [] && IsBitSet(p.control, ACKED) }

  predicate IsNacked(p: Packet) { p.cmd == 0 && p.payload == [] && IsBitSet(p.control, NACK) }

  predicate IsUdp(p: Packet) { p.cmd != 0 && !IsBitSet(p.control, ACK) }

  function AckPacket(sequence: byte): Packet { Packet(sequence, Control(false, true, false), 0, []) }

  function NackPacket(sequence: byte): Packet { Packet(sequence, Control(false, false, true), 0, []) }

  function Process(link: LinkState, p: Packet, checksumValid: bool): (LinkState, seq<Effect>) {
    if IsAcked(p) then
      if p.sequence == CurrentSequence(link) && p.sequence != link.currentAcked
      then (link.(acked := true, currentAcked := p.sequence), [Woken])
      else (link, [])
    else if IsNacked(p) then (link, if p.sequence == CurrentSequence(link) then [Woken] else [])
    else if !checksumValid then (link, [Written(Encode(NackPacket(p.sequence)))])
    else
      var ack := if IsBitSet(p.control, ACK) then [Written(Encode(AckPacket(p.sequence)))] else [];
      var notify := if link.lastReceived == p.sequence then [] else [Notified(p.cmd, p.payload)];
      (link.(currentAcked := if IsUdp(p) then -1 else link.currentAcked, lastReceived := p.sequence), ack + notify)
  }

  function Handle(link: LinkState, e: Event): (LinkState, seq<Effect>)
    requires e.Frame? ==> Sized(e.bytes)
  {
    match e
    case Frame(f) => Process(link, Decode(f), ChecksumValid(f))
    case BadLength(sequence) => (link, [Written(Encode(NackPacket(sequence)))])
  }

  predicate Handleable(events: seq<Event>) {
    forall e <- events :: e.Frame? ==> Sized(e.bytes)
  }

  function HandleAll(link: LinkState, events: seq<Event>): (LinkState, seq<Effect>)
    requires Handleable(events)
    decreases |events|
  {
    if events == [] then (link, [])
    else
      assert events[0] in events;
      var (next, first) := Handle(link, events[0]);
      var (last, later) := HandleAll(next, events[1..]);
      (last, first + later)
  }

  lemma HandleOne(link: LinkState, e: Event)
    requires e.Frame? ==> Sized(e.bytes)
    ensures Handleable([e]) && HandleAll(link, [e]) == Handle(link, e)
  {
    hide Handle;
    var (next, first) := Handle(link, e);
    assert [e][1..] == [] && first + [] == first;
  }

  lemma {:induction false} HandleAllAppend(link: LinkState, a: seq<Event>, b: seq<Event>)
    requires Handleable(a) && Handleable(b)
    ensures Handleable(a + b)
    ensures var (mid, first) := HandleAll(link, a); var (last, later) := HandleAll(mid, b);
      HandleAll(link, a + b) == (last, first + later)
    decreases |a|
  {
    hide Handle;
    if a == [] {
      assert a + b == b;
      assert [] + HandleAll(link, b).1 == HandleAll(link, b).1;
    } else {
      assert (a + b)[1..] == a[1..] + b;
      var (next, first) := Handle(link, a[0]);
      HandleAllAppend(next, a[1..], b);
      var middle := HandleAll(next, a[1..]);
      var later := HandleAll(middle.0, b).1;
      assert (first + middle.1) + later == first + (middle.1 + later);
    }
  }

  /** Everything the receive machine reports can be processed. */
  lemma {:induction false} DeframeIsHandleable(s: seq<byte>)
    ensures Handleable(Deframe(s).events)
    decreases |s|
  {
    hide LengthCrcValid;
    var k := SyncLength(s);
    if k < |SYNC| {
      if k < |s| { DeframeIsHandleable(s[k + 1..]); }
    } else if |s| >= HEADER_SIZE {
      if !LengthCrcValid(s) {
        DeframeIsHandleable(s[HEADER_SIZE..]);
      } else if |s| >= HEADER_SIZE + LengthField(s) {
        DeframeIsHandleable(s[HEADER_SIZE + LengthField(s)..]);
      }
    }
  }

  // ---------------------------------------------------------------------------------------
  // What is done with a frame, by its bytes
  // ---------------------------------------------------------------------------------------

  /** Command and payload are empty, so that the control byte decides; bit 1 says ack, bit 2 says nack. */
  predicate IsControl(f: seq<byte>)
    requires |f| >= 16
  {
    f[8] == 0 && f[9] == 0 && f[12] == 0 && f[13] == 0 && ((f[7] / 2) % 2 == 1 || (f[7] / 4) % 2 == 1)
  }

  lemma {:induction false} BitsByValue(control: byte)
    ensures IsBitSet(control, ACK) <==> control % 2 == 1
    ensures IsBitSet(control, ACKED) <==> (control / 2) % 2 == 1
    ensures IsBitSet(control, NACK) <==> (control / 4) % 2 == 1
    ensures Control(true, false, false) == 1 && Control(false, true, false) == 2 && Control(false, false, true) == 4
  {
    assert Pow2(ACK) == 1 && Pow2(ACKED) == 2 && Pow2(NACK) == 4;
  }

  lemma {:induction false} ControlByBytes(f: seq<byte>)
    requires Sized(f)
    ensures var p := Decode(f);
      && p.sequence == f[6] && p.control == f[7] && p.cmd == Word(f[8], f[9]) && p.payload == f[16..]
      && (IsAcked(p) <==> IsControl(f) && (f[7] / 2) % 2 == 1)
      && (IsNacked(p) <==> IsControl(f) && (f[7] / 4) % 2 == 1)
  {
    BitsByValue(f[7]);
    assert f[16..|f|] == f[16..];
    assert |f[16..]| == Word(f[12], f[13]);
  }

  /** An acknowledgement counts if it has the current number and that is not the stored one, whatever its checksum. */
  lemma {:induction false} AckByBytes(link: LinkState, f: seq<byte>)
    requires Sized(f) && IsControl(f) && (f[7] / 2) % 2 == 1
    ensures Handle(link, Frame(f)) ==
      if f[6] == (link.sequence + 255) % 256 && f[6] != link.currentAcked
      then (LinkState(link.sequence, true, f[6], link.lastReceived), [Woken]) else (link, [])
  {
    hide ChecksumValid, Decode;
    ControlByBytes(f);
  }

  /** A negative one only wakes the sender, again without a look at the checksum. */
  lemma {:induction false} NackByBytes(link: LinkState, f: seq<byte>)
    requires Sized(f) && IsControl(f) && (f[7] / 2) % 2 == 0
    ensures Handle(link, Frame(f)) == (link, if f[6] == (link.sequence + 255) % 256 then [Woken] else [])
  {
    hide ChecksumValid, Decode;
    ControlByBytes(f);
  }

  /** Any other frame with a wrong checksum is answered by a NACK with its number, and by nothing else. */
  lemma {:induction false} WrongChecksumByBytes(link: LinkState, f: seq<byte>) returns (e: seq<byte>)
    requires Sized(f) && !IsControl(f) && Word(f[10], f[11]) != Crc(f[10 := 0][11 := 0])
    ensures IsEncoding(e, Packet(f[6], 4, 0, [])) && Handle(link, Frame(f)) == (link, [Written(e)])
  {
    hide ChecksumValid, Decode, Encode, Crc;
    ControlByBytes(f);
    ChecksumByBytes(f);
    BitsByValue(0);
    e := Encode(NackPacket(f[6]));
    EncodeThenDecode(NackPacket(f[6]));
  }

  /** So is a header whose length fails its CRC. */
  lemma {:induction false} BadLengthByBytes(link: LinkState, sequence: byte) returns (e: seq<byte>)
    ensures IsEncoding(e, Packet(sequence, 4, 0, [])) && Handle(link, BadLength(sequence)) == (link, [Written(e)])
  {
    hide Encode;
    BitsByValue(0);
    e := Encode(NackPacket(sequence));
    EncodeThenDecode(NackPacket(sequence));
  }

  /**
    Any other frame with the right checksum is acknowledged, with its number, if bit 0 asks for it;
    one with a command and without that bit clears the stored number; and the application is given
    its command and payload unless it repeats the number of the frame before.
   */
  lemma {:induction false} DataByBytes(link: LinkState, f: seq<byte>) returns (e: seq<byte>)
    requires Sized(f) && !IsControl(f) && Word(f[10], f[11]) == Crc(f[10 := 0][11 := 0])
    ensures IsEncoding(e, Packet(f[6], 2, 0, []))
    ensures var cmd := Word(f[8], f[9]);
      Handle(link, Frame(f)) == (
        LinkState(link.sequence, link.acked, if cmd != 0 && f[7] % 2 == 0 then -1 else link.currentAcked, f[6]),
        (if f[7] % 2 == 1 then [Written(e)] else [])
          + (if link.lastReceived == f[6] then [] else [Notified(cmd, f[16..])]))
  {
    hide ChecksumValid, Decode, Encode, Crc;
    ControlByBytes(f);
    ChecksumByBytes(f);
    BitsByValue(f[7]);
    e := Encode(AckPacket(f[6]));
    EncodeThenDecode(AckPacket(f[6]));
  }

  // ---------------------------------------------------------------------------------------
  // One frame, end to end
  // ---------------------------------------------------------------------------------------

  /** What the application sends: neither of the acknowledgement bits is set. */
  function DataPacket(sequence: byte, reliable: bool, cmd: u16, payload: seq<byte>): Packet {
    Packet(sequence, Control(reliable, false, false), cmd, payload)
  }

  lemma ControlBits(reliable: bool, isAck: bool, isNack: bool)
    ensures IsBitSet(Control(reliable, isAck, isNack), ACK) <==> reliable
    ensures IsBitSet(Control(reliable, isAck, isNack), ACKED) <==> isAck
    ensures IsBitSet(Control(reliable, isAck, isNack), NACK) <==> isNack
  {
    assert Pow2(ACK) == 1 && Pow2(ACKED) == 2 && Pow2(NACK) == 4;
  }

  /** The guard in front of sending lets through what fits, and lengths so large that they wrap. */
  predicate TooLong(payloadLen: u16) { Overflow(PacketLength(payloadLen)) }

  lemma TooLongExactly(payloadLen: u16)
    ensures TooLong(payloadLen) <==> 8176 <= payloadLen < 65520
  {}

  /**
    Round trip: a packet assembled by one side and fed byte by byte to an idle receive machine
    is handed over as the same frame, with the checksum accepted and every field intact.
   */
  lemma RoundTrip(parser: Parser, p: Packet)
    requires Represents(parser, []) && |p.payload| <= MAX_PAYLOAD
    ensures Run(parser, Encode(p)).1 == [Frame(Encode(p))]
    ensures Represents(Run(parser, Encode(p)).0, [])
    ensures IsEncoding(Encode(p), p)
  {
    hide Represents, Run, Encode, Deframe, IsEncoding, Delimited;
    EncodeThenDecode(p);
    RunIsDeframe(parser, Encode(p));
    EncodedLength(p);
    DeframeOneFrame(Encode(p));
  }

  lemma EncodedLength(p: Packet)
    requires |p.payload| <= 65519
    ensures Delimited(Encode(p)) && LengthField(Encode(p)) == |p.payload|
  {
    EncodeThenDecode(p);
  }

  /** What is written for a packet: as many of its bytes as its length says in 16 bits. */
  function OnUart(p: Packet): seq<byte>
    requires |p.payload| < 0x10000
  {
    CutToLength(Encode(p), |p.payload|)
  }

  function CutToLength(f: seq<byte>, payloadLen: u16): seq<byte>
    requires |f| == HEADER_SIZE + payloadLen
  {
    f[..PacketLength(payloadLen)]
  }

  lemma WholeOnUart(p: Packet)
    requires |p.payload| <= 65519
    ensures OnUart(p) == Encode(p)
  {
    hide ExpectedChecksum;
  }

  /**
    A payload of 65520 bytes or more passes the guard, and 0 to 15 bytes of its header are written.
    An idle machine reports nothing for them and waits for the rest of the header, so the next
    frame, whatever it is, is found if and only if no byte was written.
   */
  lemma TruncatedSend(parser: Parser, p: Packet, f: seq<byte>)
    requires Represents(parser, []) && 65520 <= |p.payload| < 0x10000
    requires Delimited(f) && LengthField(f) <= MAX_PAYLOAD
    ensures !TooLong(|p.payload|) && |OnUart(p)| == |p.payload| - 65520 && |f| >= HEADER_SIZE
    ensures var (left, events) := Run(parser, OnUart(p));
      && events == [] && Represents(left, OnUart(p))
      && (Step(Run(left, f[..|f| - 1]).0, f[|f| - 1]).1 == [Frame(f)] <==> |p.payload| == 65520)
  {
    hide Represents, Run, Encode, ScanAll, Step, Delimited;
    assert |f| >= HEADER_SIZE by { DelimitedLength(f); }
    var h := OnUart(p);
    HeaderIsPartial(p);
    WholeIsPartial(h);
    RunIsScanAll(parser, [], h);
    FoundInPlace(Run(parser, h).0, h, f);
  }

  lemma HeaderIsPartial(p: Packet)
    requires 65520 <= |p.payload| < 0x10000
    ensures Partial(OnUart(p)) && |OnUart(p)| == |p.payload| - 65520
  {
    hide ExpectedChecksum;
    var e, n := Encode(p), PacketLength(|p.payload|);
    assert e[..|SYNC|] == SYNC;
    if n >= |SYNC| { assert e[..n][..|SYNC|] == SYNC; } else { assert e[..n] == SYNC[..n]; }
  }

  /** Between the largest payload the sender allows and the largest the receiver keeps lies a gap. */
  lemma SentButSkipped(parser: Parser, p: Packet)
    requires Represents(parser, []) && MAX_PAYLOAD < |p.payload| <= 65519
    ensures Run(parser, Encode(p)).1 == []
    ensures !TooLong(|p.payload|) <==> |p.payload| <= 8175
  {
    hide Represents, Run, Encode, Deframe;
    RunIsDeframe(parser, Encode(p));
    EncodedLength(p);
    DeframeOneFrame(Encode(p));
  }

  /** Processing never clears the acked flag: only the next reliable send does. */
  lemma AckedStays(link: LinkState, e: Event)
    requires e.Frame? ==> Sized(e.bytes)
    ensures link.acked ==> Handle(link, e).0.acked
    ensures Handle(link, e).0.sequence == link.sequence
  {}

  /** The flag is set by exactly one kind of frame: an acknowledgement of the current send not yet seen. */
  lemma AckedSetExactly(link: LinkState, p: Packet, checksumValid: bool)
    requires !link.acked
    ensures Process(link, p, checksumValid).0.acked <==>
      IsAcked(p) && p.sequence == CurrentSequence(link) && p.sequence != link.currentAcked
  {}
}
