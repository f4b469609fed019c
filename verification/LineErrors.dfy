/**
  What the receiver makes of a frame that was damaged on the line by a burst of at most 16 bits,
  and how that compares with what the step system takes damage to be.
 */
module LineErrors {
  import opened Bits
  import opened Crc16
  import opened Frames
  import opened CrcDetection
  import opened CrcTwoBitErrors
  import opened Receiver
  import opened Link
  import opened Protocol

  /** `g` is the valid frame `f` after a burst of at most 16 bits outside the checksum field. */
  predicate Burst(f: seq<byte>, g: seq<byte>, from: nat) {
    && Delimited(f) && Sized(f) && ChecksumValid(f)
    && |g| == |f| && g != f && f[10] == g[10] && f[11] == g[11]
    && SameOutside(MessageBits(f), MessageBits(g), from, from + 16)
  }

  predicate OnlyShorter(events: seq<Event>, n: nat) { forall e <- events :: e.Frame? ==> |e.bytes| < n }

  /** Something is wrong with `g`, and the receiver notices. */
  predicate Noticed(g: seq<byte>)
    requires |g| >= HEADER_SIZE
  {
    if g[..|SYNC|] != SYNC then OnlyShorter(Deframe(g).events, |g|)
    else if LengthCrcValid(g) then Sized(g) && !ChecksumValid(g) && Deframe(g) == Deframed(Delivered(g), [])
    else
      var behind := Deframe(g[HEADER_SIZE..]).events;
      Deframe(g).events == [BadLength(g[6])] + behind && OnlyShorter(behind, |g|)
  }

  lemma DeframeHeader(g: seq<byte>)
    requires |g| >= HEADER_SIZE && g[..|SYNC|] == SYNC && !LengthCrcValid(g)
    ensures Deframe(g).events == [BadLength(g[6])] + Deframe(g[HEADER_SIZE..]).events
  {
    hide LengthCrcValid;
    SyncLengthOfSync(g);
  }

  /** Frames found in the bytes behind the first are shorter than all of them. */
  lemma FoundBehind(g: seq<byte>, n: nat)
    requires 0 < n <= |g|
    ensures OnlyShorter(Deframe(g[n..]).events, |g|)
  {
    hide Deframe, ScanAll;
    ScanIsDeframe(g[n..]);
    FramesAreContained([], g[n..]);
  }

  /** With its sync word damaged, a frame is never handed over whole. */
  lemma SyncDamaged(g: seq<byte>)
    requires |g| >= |SYNC| && g[..|SYNC|] != SYNC
    ensures OnlyShorter(Deframe(g).events, |g|)
  {
    hide LengthCrcValid;
    var k := SyncLength(g);
    assert g[..k] == SYNC[..k];
    FoundBehind(g, k + 1);
    DeframeBroken(g, k);
  }

  /**
    The receiver after a burst, wherever it hit: with the sync word intact, either the length CRC
    fails and the header is reported, or the whole frame is handed over and its checksum fails;
    with the sync word hit, only shorter pieces can be handed over.
   */
  lemma BurstReceived(f: seq<byte>, g: seq<byte>, from: nat)
    requires Burst(f, g, from)
    ensures |g| >= HEADER_SIZE && Noticed(g)
  {
    hide Deframe, LengthCrcValid, ChecksumValid, SameOutside, MessageBits, Delivered;
    BurstDetected(f, g, from);
    if g[..|SYNC|] != SYNC {
      SyncDamaged(g);
    } else if LengthCrcValid(g) {
      DeframeOneFrame(g);
    } else {
      DeframeHeader(g);
      FoundBehind(g, HEADER_SIZE);
    }
  }

  /**
    What the receiver first makes of a frame hit by a burst is what the step system calls damaged,
    unless the burst has turned the frame into an acknowledgement: those are acted upon unchecked.
   */
  lemma BurstIsDamaged(f: seq<byte>, g: seq<byte>, from: nat)
    requires Burst(f, g, from) && g[..|SYNC|] == SYNC && Deframe(g).events != []
    ensures var e := Deframe(g).events[0];
      && (e.Frame? ==> e.bytes == g && Sized(g))
      && (Damaged(e) <==> !(e.Frame? && IsAcked(Decode(e.bytes))))
  {
    hide Deframe, LengthCrcValid, ChecksumValid, SameOutside, MessageBits, Burst;
    BurstReceived(f, g, from);
  }

  lemma SameBytesSameBits(f: seq<byte>, g: seq<byte>)
    requires |g| == |f| >= 9 && f[..7] == g[..7] && f[9..] == g[9..]
    ensures SameOutside(MessageBits(f), MessageBits(g), 56, 72)
  {
    hide MessageBits;
    PartBits(f, 0, 7);
    PartBits(g, 0, 7);
    PartBits(f, 9, |f|);
    PartBits(g, 9, |g|);
    assert f[0..7] == f[..7] && g[0..7] == g[..7] && f[9..|f|] == f[9..] && g[9..|g|] == g[9..];
    forall k | 0 <= k < 8 * |f| && !(56 <= k < 72) ensures MessageBits(f)[k] == MessageBits(g)[k] {
      if k < 56 {
        assert MessageBits(f[..7])[k] == MessageBits(f)[8 * 0 + k];
        assert MessageBits(g[..7])[k] == MessageBits(g)[8 * 0 + k];
      } else {
        assert MessageBits(f[9..])[k - 72] == MessageBits(f)[8 * 9 + (k - 72)];
        assert MessageBits(g[9..])[k - 72] == MessageBits(g)[8 * 9 + (k - 72)];
      }
    }
  }

  lemma FieldsOf(f: seq<byte>, p: Packet)
    requires Sized(f) && Decode(f) == p
    ensures f[6] == p.sequence && f[7] == p.control && BigEndian(f[8], f[9]) == p.cmd && LengthField(f) == |p.payload|
  {}

  /** With bytes 7 and 8 changed, an empty data frame is an acknowledgement. */
  lemma {:induction false} MadeAck(link: LinkState, g: seq<byte>)
    requires Sized(g) && g[6] == CurrentSequence(link) != link.currentAcked
    requires g[7] == 2 && g[8] == g[9] == g[12] == g[13] == 0
    ensures Handle(link, Frame(g)).0.acked
  {
    hide Handle, Sized;
    AckByBytes(link, g);
  }

  lemma {:induction false} ZeroLength(f: seq<byte>)
    requires |f| >= HEADER_SIZE && LengthField(f) == 0
    ensures f[12] == 0 && f[13] == 0
  {}

  predicate SetsFlagUnchecked(link: LinkState, g: seq<byte>) {
    Delimited(g) && Sized(g) && !ChecksumValid(g) && Handle(link, Frame(g)).0.acked
  }

  /**
    That can happen: two flipped bits, two places apart, make an acknowledgement of the current
    send out of an empty data frame, and the acked flag is set although the checksum is wrong.
   */
  lemma {:induction false} BurstCanForgeAck(link: LinkState) returns (f: seq<byte>, g: seq<byte>)
    requires link.currentAcked != CurrentSequence(link)
    ensures f == Encode(DataPacket(CurrentSequence(link), false, 0x8000, [])) && Burst(f, g, 56)
    ensures SetsFlagUnchecked(link, g)
  {
    hide Encode, IsEncoding, Burst, Handle;
    var p := DataPacket(CurrentSequence(link), false, 0x8000, []);
    f := Encode(p);
    EncodeThenDecode(p);
    g := Forged(f, p);
    MadeAck(link, g);
  }

  /** The forged frame, from the bytes of the empty data frame. */
  lemma {:induction false} Forged(f: seq<byte>, p: Packet) returns (g: seq<byte>)
    requires IsEncoding(f, p) && p.control == 0 && p.cmd == 0x8000 && p.payload == []
    ensures Burst(f, g, 56) && SentAsAck(g, p.sequence)
  {
    hide Burst, Delimited, ChecksumValid, Decode, BigEndian, LengthField;
    FieldsOf(f, p);
    ZeroLength(f);
    HighOnly(f[8], f[9]);
    g := f[7 := 2][8 := 0];
    ForgedIsBurst(f, g);
  }

  /** A whole frame with the bytes of an acknowledgement, but not its checksum. */
  predicate SentAsAck(g: seq<byte>, sequence: byte) {
    && Delimited(g) && Sized(g) && !ChecksumValid(g)
    && g[6] == sequence && g[7] == 2 && g[8] == g[9] == g[12] == g[13] == 0
  }

  lemma {:induction false} HighOnly(high: byte, low: byte)
    requires BigEndian(high, low) == 0x8000
    ensures low == 0
  {}

  lemma {:induction false} ForgedIsBurst(f: seq<byte>, g: seq<byte>)
    requires Delimited(f) && Sized(f) && ChecksumValid(f) && f[7] == 0 && g == f[7 := 2][8 := 0]
    ensures Burst(f, g, 56) && Delimited(g) && Sized(g) && !ChecksumValid(g)
  {
    hide ChecksumValid, LengthCrcValid, MessageBits, SameOutside, BigEndian;
    assert g[..7] == f[..7] && g[9..] == f[9..] && g[12..HEADER_SIZE] == f[12..HEADER_SIZE] && g[7] != f[7];
    assert g[..|SYNC|] == f[..|SYNC|];
    SameBytesSameBits(f, g);
    SameLengthField(f, g);
    BurstDetected(f, g, 56);
  }

  lemma SameLengthField(f: seq<byte>, g: seq<byte>)
    requires |g| == |f| >= HEADER_SIZE && g[12..HEADER_SIZE] == f[12..HEADER_SIZE]
    ensures LengthField(g) == LengthField(f) && (LengthCrcValid(g) <==> LengthCrcValid(f))
  {
    hide Crc;
    forall i | 12 <= i < HEADER_SIZE ensures g[i] == f[i] {
      assert g[i] == g[12..HEADER_SIZE][i - 12] == f[12..HEADER_SIZE][i - 12] == f[i];
    }
  }

  // ---------------------------------------------------------------------------------------
  // The answer to damage
  // ---------------------------------------------------------------------------------------

  /** The number that a damaged frame or header has. */
  function NumberOf(e: Event): byte
    requires e.Frame? ==> Sized(e.bytes)
  {
    match e
    case Frame(f) => f[6]
    case BadLength(sequence) => sequence
  }

  /**
    In the step system, whatever is heard of noise and damaged frames changes nothing at this side
    and is answered by exactly one NACK frame with its number; a damaged NACK is not answered.
   */
  lemma {:induction false} DamageAnswered(s: State, e: Event) returns (b: seq<byte>)
    requires Damaged(e)
    ensures Do(s, Noise(e)) == s.(out := s.out + if e.Frame? && IsControl(e.bytes) then [] else [Nack(b)])
    ensures IsEncoding(b, Packet(NumberOf(e), 4, 0, []))
  {
    hide Handle, IsControl, Encode, ChecksumValid, IsAcked, Crc;
    var link := s.me.link;
    b := Encode(NackPacket(NumberOf(e)));
    EncodeThenDecode(NackPacket(NumberOf(e)));
    BitsByValue(0);
    match e {
      case BadLength(sequence) => b := BadLengthByBytes(link, sequence);
      case Frame(f) =>
        ControlByBytes(f);
        ChecksumByBytes(f);
        if IsControl(f) { DamagedControl(link, f); } else { b := WrongChecksumByBytes(link, f); }
    }
    var effects := Handle(link, e).1;
    OneWritten(effects, b);
    assert Nacks([b]) == [Nack(b)] && Nacks([]) == [];
    assert s.me.(link := link) == s.me;
  }

  lemma {:induction false} DamagedControl(link: LinkState, f: seq<byte>)
    requires Sized(f) && IsControl(f) && (f[7] / 2) % 2 == 0
    ensures Handle(link, Frame(f)).0 == link && WrittenIn(Handle(link, Frame(f)).1) == []
  {
    hide Handle;
    NackByBytes(link, f);
    assert [Woken][1..] == [];
  }

  lemma {:induction false} OneWritten(effects: seq<Effect>, b: seq<byte>)
    ensures effects == [Written(b)] ==> WrittenIn(effects) == [b]
  {
    assert [Written(b)][1..] == [];
  }

  // ---------------------------------------------------------------------------------------
  // Two flipped bits
  // ---------------------------------------------------------------------------------------

  lemma DifferAtZeroed(f: seq<byte>, g: seq<byte>, p: nat, q: nat)
    requires |g| == |f| >= HEADER_SIZE && f[10] == g[10] && f[11] == g[11] && DifferAt(f, g, p, q)
    ensures DifferAt(WithChecksum(f, 0), WithChecksum(g, 0), p, q)
  {
    hide Xor, MessageBits;
    var f0, g0 := WithChecksum(f, 0), WithChecksum(g, 0);
    SameXorZeroed(f, g);
    MessageBitsXor(f, g);
    MessageBitsXor(f0, g0);
    forall k | 0 <= k < 8 * |f|
      ensures MessageBits(f0)[k] != MessageBits(g0)[k] <==> k == p || k == q
    {
      assert XorBits(MessageBits(f), MessageBits(g))[k] == XorBits(MessageBits(f0), MessageBits(g0))[k];
      assert MessageBits(f)[k] != MessageBits(g)[k] <==> k == p || k == q;
    }
  }

  /**
    Two flipped bits outside the checksum field, at any two places of a valid frame of any length:
    what is left is a valid frame if and only if it is still delimited and the distance of the
    bits is a multiple of 32767. In frames of up to 4095 bytes there is no such distance.
   */
  lemma TwoFlipsExactly(f: seq<byte>, g: seq<byte>, p: nat, q: nat)
    requires Delimited(f) && Sized(f) && ChecksumValid(f)
    requires |g| == |f| && f[10] == g[10] && f[11] == g[11] && p < q < 8 * |f| && DifferAt(f, g, p, q)
    ensures Delimited(g) ==> Sized(g) && (ChecksumValid(g) <==> (q - p) % 32767 == 0)
    ensures |f| <= 4095 ==> !(Delimited(g) && ChecksumValid(g))
  {
    hide Crc, MessageBits, LengthCrcValid, DifferAt;
    if Delimited(g) {
      SizedExpectation(f);
      SizedExpectation(g);
      DifferAtZeroed(f, g, p, q);
      TwoBitErrorsExactly(WithChecksum(f, 0), WithChecksum(g, 0), p, q);
    }
  }
}
