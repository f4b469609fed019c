/**
  The UART link layer as the code has it: one object whose fields are updated in place by every
  received byte and by every send. Its methods are proved to do what `Receiver.Step`,
  `Link.Process` and `SendPacket` say.
 */
module Communication {
  import opened Bits
  import opened Crc16
  import opened Frames
  import opened Receiver
  import opened Link

  /** The receive machine and the link state together. */
  datatype Comm = Comm(parser: Parser, link: LinkState)

  const INITIAL_COMM := Comm(INITIAL, INITIAL_LINK)

  ghost predicate Good(comm: Comm) { exists t :: Represents(comm.parser, t) }

  ghost function AfterByte(comm: Comm, c: byte): (r: (Comm, seq<Effect>))
    requires Good(comm)
    ensures Good(r.0)
  {
    var (parser, events) := Step(comm.parser, c);
    StepIsHandleable(comm.parser, c);
    var (link, effects) := HandleAll(comm.link, events);
    (Comm(parser, link), effects)
  }

  lemma StepIsHandleable(p: Parser, c: byte)
    requires exists t :: Represents(p, t)
    ensures Handleable(Step(p, c).1) && exists u :: Represents(Step(p, c).0, u)
  {
    hide Represents, Step, LengthCrcValid;
    var t :| Represents(p, t);
    StepIsScan(p, t, c);
    assert Partial(t) by { FramePartial(p, t); }
  }

  lemma FramePartial(p: Parser, t: seq<byte>)
    requires Represents(p, t)
    ensures Partial(t)
  {}

  ghost function AfterBytes(comm: Comm, s: seq<byte>): (r: (Comm, seq<Effect>))
    requires Good(comm)
    ensures Good(r.0)
    decreases |s|
  {
    if s == [] then (comm, [])
    else
      var (next, first) := AfterByte(comm, s[0]);
      var (last, later) := AfterBytes(next, s[1..]);
      (last, first + later)
  }

  /** A stream fed to an idle machine has the effect of its frames, processed one after the other. */
  lemma {:induction false} AfterBytesIsHandleAll(comm: Comm, t: seq<byte>, s: seq<byte>)
    requires Represents(comm.parser, t)
    ensures var (parser, events) := Run(comm.parser, s);
      Handleable(events) &&
      AfterBytes(comm, s) == (Comm(parser, HandleAll(comm.link, events).0), HandleAll(comm.link, events).1)
    decreases |s|
  {
    hide Represents, Step, Handle;
    if s != [] {
      var (parser, events) := Step(comm.parser, s[0]);
      StepIsHandleable(comm.parser, s[0]);
      StepIsScan(comm.parser, t, s[0]);
      var (next, first) := AfterByte(comm, s[0]);
      AfterBytesIsHandleAll(next, Scan(t, s[0]).0, s[1..]);
      HandleAllAppend(comm.link, events, Run(parser, s[1..]).1);
    }
  }

  /** From an idle state, the calls made for a byte stream are those for the frames it contains. */
  lemma ReceivedStream(comm: Comm, s: seq<byte>)
    requires Represents(comm.parser, [])
    ensures Handleable(Deframe(s).events)
    ensures AfterBytes(comm, s).1 == HandleAll(comm.link, Deframe(s).events).1
    ensures AfterBytes(comm, s).0.link == HandleAll(comm.link, Deframe(s).events).0
  {
    hide Represents, HandleAll, Run, Deframe, AfterBytes;
    AfterBytesIsHandleAll(comm, [], s);
    RunIsDeframe(comm.parser, s);
  }

  lemma ChecksumOfPrefix(f: seq<byte>, n: nat)
    requires |f| >= HEADER_SIZE && n == HEADER_SIZE + LengthField(f) <= |f| && n < 0x10000
    ensures Sized(f[..n]) && ChecksumValid(f) == ChecksumValid(f[..n]) && Decode(f) == Decode(f[..n])
  {
    hide Crc, High, Low;
    var g := f[..n];
    assert LengthField(g) == LengthField(f);
    assert PacketLength(LengthField(f)) == n;
    assert WithChecksum(f, 0)[..n] == WithChecksum(g, 0)[..n];
    assert f[HEADER_SIZE..n] == g[HEADER_SIZE..n];
  }

  /** The link only changes when the machine hands something over, and at most one thing a byte. */
  lemma AfterByteOutcome(comm: Comm, c: byte)
    requires Good(comm)
    ensures var (parser, events) := Step(comm.parser, c); var (next, effects) := AfterByte(comm, c);
      && next.parser == parser
      && |events| <= 1
      && (events == [] ==> next.link == comm.link && effects == [])
      && (events != [] ==> Handleable(events) && (next.link, effects) == Handle(comm.link, events[0]))
  {
    hide Handle, HandleAll, Step, Represents;
    StepIsHandleable(comm.parser, c);
    AtMostOneEvent(comm.parser, c);
    var events := Step(comm.parser, c).1;
    if events == [] {
      HandleNone(comm.link);
    } else {
      assert events == [events[0]];
      HandleOne(comm.link, events[0]);
    }
  }

  lemma AtMostOneEvent(p: Parser, c: byte)
    ensures |Step(p, c).1| <= 1
  {}

  lemma HandleNone(link: LinkState)
    ensures HandleAll(link, []) == (link, [])
  {}

  lemma HandleBadLength(link: LinkState, sequence: byte)
    ensures Handle(link, BadLength(sequence)) == (link, [Written(Encode(NackPacket(sequence)))])
  {}

  /** The countdown and the length CRC never overflow, and the next byte has room. */
  lemma LengthFits(p: Parser, t: seq<byte>)
    requires Represents(p, t) && !Overflow(p.capacity)
    ensures |p.cur| == 13 ==> p.length % 0x100 == 0
    ensures |p.cur| == 15 ==> p.lengthCrc % 0x100 == 0
    ensures p.capacity * 2 + HEADER_SIZE < 0x10000 && |p.cur| < Allocate(p).capacity
  {
    hide Partial, ReachableCapacity, Countdown, LengthCrcSoFar;
    CapacityCases(p.capacity);
    CountdownSoFar(t);
  }

  lemma CountdownSoFar(t: seq<byte>)
    ensures |t| == 13 ==> Countdown(t) % 0x100 == 0
    ensures |t| == 15 ==> LengthCrcSoFar(t) % 0x100 == 0
  {}

  // ---------------------------------------------------------------------------------------
  // Sending
  // ---------------------------------------------------------------------------------------

  datatype Sent = Sent(comm: Comm, effects: seq<Effect>, ret: int, writes: nat)

  /** One wait, during which the receive thread takes in `arrived`: its result comes last. */
  ghost function Waited(comm: Comm, reliable: bool, arrived: seq<byte>): (r: (Comm, seq<Effect>, int))
    requires Good(comm)
    ensures Good(r.0)
  {
    if !reliable then (comm, [], 0)
    else
      var (next, effects) := AfterBytes(comm, arrived);
      (next, effects, if next.link.acked then 0 else PAYLOAD_ACK_TIMEOUT)
  }

  /** What the receive thread takes in around one write: up to it, and during the wait after it. */
  datatype Arrival = Arrival(before: seq<byte>, during: seq<byte>)

  /** One write with the wait after it. */
  ghost function Round(comm: Comm, frame: seq<byte>, reliable: bool, arrival: Arrival): (r: (Comm, seq<Effect>, int))
    requires Good(comm)
    ensures Good(r.0)
  {
    var (ready, early) := AfterBytes(comm, arrival.before);
    var (next, effects, ret) := Waited(ready, reliable, arrival.during);
    (next, early + ([Written(frame)] + effects), ret)
  }

  /** Writes and waits, until a wait succeeds or there is none left; `arrivals[i]` belongs to write i. */
  ghost function SendRounds(comm: Comm, frame: seq<byte>, reliable: bool, arrivals: seq<Arrival>): Sent
    requires Good(comm) && arrivals != []
    decreases |arrivals|
  {
    var (next, done, ret) := Round(comm, frame, reliable, arrivals[0]);
    if ret == 0 || |arrivals| == 1 then Sent(next, done, ret, 1)
    else
      var rest := SendRounds(next, frame, reliable, arrivals[1..]);
      Sent(rest.comm, done + rest.effects, rest.ret, rest.writes + 1)
  }

  /** A send has made the calls `written` so far, and what is left of it is the send `left`. */
  ghost predicate Continues(all: Sent, written: seq<Effect>, left: Sent) {
    all.comm == left.comm && all.ret == left.ret && all.effects == written + left.effects
  }

  lemma {:induction false} OneRound(all: Sent, written: seq<Effect>, comm: Comm, frame: seq<byte>, reliable: bool,
                                    arrivals: seq<Arrival>)
    requires Good(comm) && arrivals != []
    requires Continues(all, written, SendRounds(comm, frame, reliable, arrivals))
    ensures var (next, now, ret) := Round(comm, frame, reliable, arrivals[0]);
      if ret == 0 || |arrivals| == 1 then all.comm == next && all.effects == written + now && all.ret == ret
      else Continues(all, written + now, SendRounds(next, frame, reliable, arrivals[1..]))
  {
    hide Round, Good;
    var (next, now, ret) := Round(comm, frame, reliable, arrivals[0]);
    if ret != 0 && |arrivals| > 1 {
      var rest := SendRounds(next, frame, reliable, arrivals[1..]);
      assert SendRounds(comm, frame, reliable, arrivals).effects == now + rest.effects;
      assert written + (now + rest.effects) == (written + now) + rest.effects;
    }
  }

  lemma {:induction false} StartsWhole(all: Sent)
    ensures Continues(all, [], all)
  {
    assert [] + all.effects == all.effects;
  }

  /** The frame has been given its number. */
  function Numbered(comm: Comm): Comm { comm.(link := comm.link.(sequence := (comm.link.sequence + 1) % 0x100)) }

  /** A reliable send clears the flag before its first write. */
  function Cleared(comm: Comm, reliable: bool): Comm {
    comm.(link := comm.link.(acked := if reliable then false else comm.link.acked))
  }

  /** `gap` is taken in between assembling the frame and clearing the flag. */
  ghost function SendPacket(comm: Comm, cmd: u16, payload: seq<byte>, reliable: bool,
                            gap: seq<byte>, arrivals: seq<Arrival>): Sent
    requires Good(comm) && |payload| < 0x10000 && |arrivals| == TRY_RESEND_TIMES + 1
  {
    var frame := OnUart(DataPacket(comm.link.sequence, reliable, cmd, payload));
    if TooLong(|payload|) then Sent(comm, [], PAYLOAD_TOO_LONG, 0)
    else
      var (prepared, early) := AfterBytes(Numbered(comm), gap);
      var sent := SendRounds(Cleared(prepared, reliable), frame, reliable, arrivals);
      sent.(effects := early + sent.effects)
  }

  /** All that is taken in around the writes of `arrivals`, in order. */
  function Join(arrivals: seq<Arrival>): seq<byte> {
    if arrivals == [] then [] else arrivals[0].before + arrivals[0].during + Join(arrivals[1..])
  }

  lemma {:induction false} AfterBytesAppend(comm: Comm, a: seq<byte>, b: seq<byte>)
    requires Good(comm)
    ensures var (mid, first) := AfterBytes(comm, a); var (last, later) := AfterBytes(mid, b);
      AfterBytes(comm, a + b) == (last, first + later)
    decreases |a|
  {
    hide AfterByte, Represents;
    if a == [] {
      assert a + b == b;
      assert [] + AfterBytes(comm, b).1 == AfterBytes(comm, b).1;
    } else {
      assert (a + b)[1..] == a[1..] + b && (a + b)[0] == a[0];
      var (next, first) := AfterByte(comm, a[0]);
      AfterBytesAppend(next, a[1..], b);
      var middle := AfterBytes(next, a[1..]);
      var later := AfterBytes(middle.0, b).1;
      assert (first + middle.1) + later == first + (middle.1 + later);
    }
  }

  ghost predicate AckedAfter(comm: Comm, arrivals: seq<Arrival>)
    requires Good(comm)
  {
    AfterBytes(comm, Join(arrivals)).0.link.acked
  }

  /** A reliable round ends with the flag as all the bytes taken in leave it. */
  lemma RoundReceives(comm: Comm, frame: seq<byte>, arrival: Arrival)
    requires Good(comm)
    ensures var (next, _, ret) := Round(comm, frame, true, arrival);
      && next == AfterBytes(comm, arrival.before + arrival.during).0
      && ret == if next.link.acked then 0 else PAYLOAD_ACK_TIMEOUT
  {
    hide AfterBytes;
    AfterBytesAppend(comm, arrival.before, arrival.during);
  }

  /**
    A reliable send stops at the first wait that ends with the flag set and returns 0; if none
    does, it has written the same frame once for every wait and returns the timeout error.
   */
  lemma {:induction false} SendOutcome(comm: Comm, frame: seq<byte>, arrivals: seq<Arrival>)
    requires Good(comm) && arrivals != []
    ensures var r := SendRounds(comm, frame, true, arrivals);
      && 1 <= r.writes <= |arrivals|
      && r.comm == AfterBytes(comm, Join(arrivals[..r.writes])).0
      && (forall n :: 1 <= n < r.writes ==> !AckedAfter(comm, arrivals[..n]))
      && (r.ret == 0 <==> AckedAfter(comm, arrivals[..r.writes]))
      && (r.ret != 0 ==> r.ret == PAYLOAD_ACK_TIMEOUT && r.writes == |arrivals|)
    decreases |arrivals|
  {
    hide AfterBytes, Round, Good;
    var first := arrivals[0].before + arrivals[0].during;
    var next := AfterBytes(comm, first).0;
    RoundReceives(comm, frame, arrivals[0]);
    FirstArrival(arrivals);
    if !next.link.acked && |arrivals| > 1 {
      var rest := SendRounds(next, frame, true, arrivals[1..]);
      SendOutcome(next, frame, arrivals[1..]);
      forall n | 1 <= n <= rest.writes
        ensures AfterBytes(comm, Join(arrivals[..n + 1])).0 == AfterBytes(next, Join(arrivals[1..][..n])).0
      {
        assert arrivals[..n + 1][1..] == arrivals[1..][..n];
        AfterBytesAppend(comm, first, Join(arrivals[1..][..n]));
      }
      forall n | 1 <= n < rest.writes + 1
        ensures !AckedAfter(comm, arrivals[..n])
      {
        if n > 1 { assert !AckedAfter(next, arrivals[1..][..n - 1]); }
      }
    }
  }

  lemma FirstArrival(arrivals: seq<Arrival>)
    requires arrivals != []
    ensures Join(arrivals[..1]) == arrivals[0].before + arrivals[0].during
  {
    var first := arrivals[0].before + arrivals[0].during;
    assert arrivals[..1][1..] == [];
    assert first + [] == first;
  }

  lemma {:induction false} RoundsReturn(comm: Comm, frame: seq<byte>, reliable: bool, arrivals: seq<Arrival>)
    requires Good(comm) && arrivals != []
    ensures SendRounds(comm, frame, reliable, arrivals).ret in {0, -9998}
    decreases |arrivals|
  {
    hide AfterBytes, Good;
    var (next, _, ret) := Round(comm, frame, reliable, arrivals[0]);
    if ret != 0 && |arrivals| > 1 { RoundsReturn(next, frame, reliable, arrivals[1..]); }
  }

  /** A send is refused exactly for payloads of 8176 to 65519 bytes, and then changes and calls nothing. */
  lemma {:induction false} SendRefusedExactly(comm: Comm, cmd: u16, payload: seq<byte>, reliable: bool,
                                              gap: seq<byte>, arrivals: seq<Arrival>)
    requires Good(comm) && |payload| < 0x10000 && |arrivals| == TRY_RESEND_TIMES + 1
    ensures var sent := SendPacket(comm, cmd, payload, reliable, gap, arrivals);
      && (sent.ret == -9999 <==> 8176 <= |payload| < 65520)
      && (8176 <= |payload| < 65520 ==> sent == Sent(comm, [], -9999, 0))
  {
    hide AfterBytes, SendRounds, Represents, OnUart;
    TooLongExactly(|payload|);
    if !TooLong(|payload|) {
      var frame := OnUart(DataPacket(comm.link.sequence, reliable, cmd, payload));
      RoundsReturn(Cleared(AfterBytes(Numbered(comm), gap).0, reliable), frame, reliable, arrivals);
    }
  }

  /** Around this write nothing arrives. */
  predicate Silent(arrivals: seq<Arrival>) { forall a <- arrivals :: a.before == [] && a.during == [] }

  lemma {:induction false} SilentRounds(comm: Comm, frame: seq<byte>, arrivals: seq<Arrival>)
    requires Good(comm) && !comm.link.acked && arrivals != [] && Silent(arrivals)
    ensures SendRounds(comm, frame, true, arrivals)
      == Sent(comm, seq(|arrivals|, _ => Written(frame)), -9998, |arrivals|)
    decreases |arrivals|
  {
    hide Good;
    var n := |arrivals|;
    assert arrivals[0] in arrivals;
    assert [] + ([Written(frame)] + []) == [Written(frame)];
    if n > 1 {
      assert forall a <- arrivals[1..] :: a in arrivals;
      SilentRounds(comm, frame, arrivals[1..]);
      assert [Written(frame)] + seq(n - 1, _ => Written(frame)) == seq(n, _ => Written(frame));
    } else {
      assert [Written(frame)] == seq(n, _ => Written(frame));
    }
  }

  /**
    What the send does by itself, when nothing arrives: a number is used up; a reliable frame is
    written six times, the flag is clear, and the timeout error comes back; another one is written
    once with success. The frame has the number the counter had, bit 0 of its control byte says
    whether it is reliable, and as many of its bytes are written as its length says in 16 bits.
   */
  lemma {:induction false} SilentSend(comm: Comm, cmd: u16, payload: seq<byte>, reliable: bool, arrivals: seq<Arrival>)
    requires Good(comm) && |payload| < 0x10000 && |arrivals| == 6 && Silent(arrivals)
    requires !(8176 <= |payload| < 65520)
    ensures var link := comm.link; var e := Encode(Packet(link.sequence, if reliable then 1 else 0, cmd, payload));
      var frame := e[..if |payload| < 65520 then 16 + |payload| else |payload| - 65520];
      var numbered := link.(sequence := (link.sequence + 1) % 256, acked := link.acked && !reliable);
      var next := Comm(comm.parser, numbered);
      SendPacket(comm, cmd, payload, reliable, [], arrivals)
        == if reliable then Sent(next, seq(6, _ => Written(frame)), -9998, 6) else Sent(next, [Written(frame)], 0, 1)
  {
    hide Encode, Represents;
    TooLongExactly(|payload|);
    BitsByValue(0);
    var p := DataPacket(comm.link.sequence, reliable, cmd, payload);
    var cleared := Cleared(Numbered(comm), reliable);
    assert arrivals[0] in arrivals;
    if reliable {
      SilentRounds(cleared, OnUart(p), arrivals);
      assert [] + seq(6, _ => Written(OnUart(p))) == seq(6, _ => Written(OnUart(p)));
    } else {
      assert [] + ([Written(OnUart(p))] + []) == [Written(OnUart(p))];
    }
  }

  // ---------------------------------------------------------------------------------------
  // The object
  // ---------------------------------------------------------------------------------------

  class CommProtocol {
    // The receive machine.
    var index: nat
    var length: u16
    var lengthCrc16: u16
    var bufferLength: u16
    var buffer: array?<byte>

    // The link state.
    var sequence: byte
    var acked: bool
    var currentAckedSeq: int
    var lastRecvPacketSeq: int

    // The calls made to the registered hooks, in order.
    var calls: seq<Effect>

    // The bytes taken in since the machine was last idle.
    ghost var taken: seq<byte>

    ghost predicate Valid()
      reads this, buffer
    {
      Shape() && Represents(TheParser(), taken)
    }

    ghost predicate Shape()
      reads this, buffer
    {
      if buffer == null then index == 0 else buffer.Length == bufferLength && index <= buffer.Length
    }

    ghost function TheParser(): Parser
      requires Shape()
      reads this, buffer
    {
      Parser(if buffer == null then [] else buffer[..index], length, lengthCrc16, bufferLength, buffer != null)
    }

    function TheLink(): LinkState
      reads this
    {
      LinkState(sequence, acked, currentAckedSeq, lastRecvPacketSeq)
    }

    ghost function State(): Comm
      requires Shape()
      reads this, buffer
    {
      Comm(TheParser(), TheLink())
    }

    constructor ()
      ensures Valid() && State() == INITIAL_COMM && calls == [] && taken == []
    {
      index, length, lengthCrc16 := 0, 0, 0;
      bufferLength, buffer := DEFAULT_SIZE, null;
      sequence, acked, currentAckedSeq, lastRecvPacketSeq := 0, false, 0xff / 2, -1;
      calls, taken := [], [];
      InitiallyIdle();
    }

    method ResetStatus()
      requires Shape()
      modifies `index, `length, `lengthCrc16
      ensures Shape() && TheParser() == Reset(old(TheParser()))
    {
      index, length, lengthCrc16 := 0, 0, 0;
    }

    method TryGarbageCollection()
      requires Shape() && index == 0
      modifies `buffer, `bufferLength
      ensures Shape() && TheParser() == CollectGarbage(old(TheParser()))
      ensures buffer == null || buffer == old(buffer)
    {
      if bufferLength > GC_TRIGGER_SIZE {
        buffer := null;
        bufferLength := DEFAULT_SIZE;
      }
    }

    method AllocateBuffer()
      requires Shape()
      requires bufferLength < MAX_SIZE
      modifies `buffer, `bufferLength
      ensures Shape() && buffer != null && TheParser() == Allocate(old(TheParser()))
      ensures buffer == old(buffer) || fresh(buffer)
    {
      if buffer == null {
        buffer := new byte[bufferLength];
      } else if bufferLength <= index {
        var newSize: u16 := bufferLength * 2 + HEADER_SIZE;
        var enlarged := new byte[newSize];
        CopyInto(enlarged, 0, buffer[..index]);
        buffer, bufferLength := enlarged, newSize;
      }
    }

    /** Assembles an ack or nack frame and writes it. */
    method SendControlFrame(sequence: byte, isAck: bool, isNack: bool)
      modifies `calls
      ensures calls == old(calls) + [Written(Encode(Packet(sequence, Control(false, isAck, isNack), 0, [])))]
    {
      var packet := new byte[HEADER_SIZE](_ => 0);
      AssemblePacket(packet, Packet(sequence, Control(false, isAck, isNack), 0, []));
      calls := calls + [Written(packet[..])];
    }

    method OneFrameProcess()
      requires Shape() && buffer != null
      requires index >= HEADER_SIZE && Sized(buffer[..index])
      modifies this`calls, this`acked, this`currentAckedSeq, this`lastRecvPacketSeq, buffer
      ensures var f := old(buffer[..index]); var (link, effects) := Handle(old(TheLink()), Frame(f));
        TheLink() == link && calls == old(calls) + effects
    {
      hide High, Low, ExpectedChecksum, Encode;
      ghost var f, whole := buffer[..index], buffer[..];
      ChecksumOfPrefix(whole, index);
      assert whole[..index] == f;
      var cmd := BigEndian(buffer[8], buffer[9]);
      var payloadLen := BigEndian(buffer[12], buffer[13]);
      ghost var p := Decode(f);
      assert p == Decode(whole) && payloadLen == |p.payload| && cmd == p.cmd;
      var current := CurrentSequence(TheLink());

      if cmd == 0 && payloadLen == 0 && IsBitSet(buffer[7], ACKED) {
        if buffer[6] == current && buffer[6] != currentAckedSeq {
          acked := true;
          currentAckedSeq := buffer[6];
          calls := calls + [Woken];
        }
        return;
      }
      if cmd == 0 && payloadLen == 0 && IsBitSet(buffer[7], NACK) {
        if buffer[6] == current {
          calls := calls + [Woken];
        }
        return;
      }

      var valid := CheckChecksum(buffer);
      assert buffer[6] == p.sequence && buffer[7] == p.control;
      assert buffer[HEADER_SIZE..HEADER_SIZE + payloadLen] == p.payload;
      if !valid {
        SendControlFrame(buffer[6], false, true);
        return;
      }
      if IsBitSet(buffer[7], ACK) {
        SendControlFrame(buffer[6], true, false);
      }
      if currentAckedSeq != -1 && cmd != 0 && !IsBitSet(buffer[7], ACK) {
        currentAckedSeq := -1;
      }
      var duplicate := lastRecvPacketSeq == buffer[6];
      lastRecvPacketSeq := buffer[6];
      if !duplicate {
        calls := calls + [Notified(cmd, buffer[HEADER_SIZE..HEADER_SIZE + payloadLen])];
      }
    }

    /** One received byte. */
    method ReceiveByte(c: byte)
      requires Valid()
      modifies this, buffer
      ensures Valid()
      ensures State() == AfterByte(old(State()), c).0
      ensures calls == old(calls) + AfterByte(old(State()), c).1
      ensures buffer == null || buffer == old(buffer) || fresh(buffer)
    {
      hide Represents, AfterByte, Handle, StepInBuffer;
      ghost var before, link := TheParser(), TheLink();
      StepIsScan(before, taken, c);
      StepIsHandleable(before, c);
      AfterByteOutcome(Comm(before, link), c);
      taken := Scan(taken, c).0;

      if bufferLength >= MAX_SIZE {
        if length > 1 {
          length := length - 1;
        } else {
          ResetStatus();
          TryGarbageCollection();
        }
      } else {
        LengthFits(before, old(taken));
        AllocateBuffer();
        ReceiveInBuffer(c);
      }
    }

    /** What is left of one byte's work once there is room for it. */
    method ReceiveInBuffer(c: byte)
      requires Shape() && buffer != null && index < buffer.Length
      requires index == 13 ==> length % 0x100 == 0
      requires index == 15 ==> lengthCrc16 % 0x100 == 0
      requires Handleable(StepInBuffer(TheParser(), c).1)
      modifies this, buffer
      ensures Shape() && (buffer == null || buffer == old(buffer)) && taken == old(taken)
      ensures TheParser() == StepInBuffer(old(TheParser()), c).0
      ensures var events := StepInBuffer(old(TheParser()), c).1;
        if events == [] then TheLink() == old(TheLink()) && calls == old(calls)
        else
          var (link, effects) := Handle(old(TheLink()), events[0]);
          TheLink() == link && calls == old(calls) + effects
    {
      hide Handle, Encode, LengthAccepted, Sized;
      if index < |SYNC| {
        if c == SYNC[index] {
          buffer[index] := c;
          index := index + 1;
        } else {
          ResetStatus();
        }
        return;
      }
      ghost var p := TheParser();
      NoteByte(c);
      if index == 15 {
        var accepted := CheckLength();
        if !accepted {
          HandleBadLength(TheLink(), buffer[6]);
          ResetStatus();
          SendControlFrame(buffer[6], false, true);
          return;
        }
      }
      StoreByte(c);
      if HEADER_SIZE <= index && length == 0 {
        ghost var f := buffer[..index];
        assert StepInBuffer(p, c).1 == [Frame(f)];
        assert Frame(f) in StepInBuffer(p, c).1;
        FinishFrame();
      }
    }

    method FinishFrame()
      requires Shape() && buffer != null
      requires index >= HEADER_SIZE && Sized(buffer[..index])
      modifies this, buffer
      ensures Shape() && (buffer == null || buffer == old(buffer)) && taken == old(taken)
      ensures TheParser() == CollectGarbage(Reset(old(TheParser())))
      ensures var (link, effects) := Handle(old(TheLink()), Frame(old(buffer[..index])));
        TheLink() == link && calls == old(calls) + effects
    {
      hide Handle;
      OneFrameProcess();
      ResetStatus();
      TryGarbageCollection();
    }

    /** Picks the length and its CRC out of the header. */
    method NoteByte(c: byte)
      requires Shape()
      requires index == 13 ==> length % 0x100 == 0
      requires index == 15 ==> lengthCrc16 % 0x100 == 0
      modifies `length, `lengthCrc16
      ensures buffer != null ==> TheParser() == NoteHeaderByte(old(TheParser()), c)
    {
      if index == 12 {
        length := 0x100 * c;
      } else if index == 13 {
        length := length + c;
      } else if index == 14 {
        lengthCrc16 := 0x100 * c;
      } else if index == 15 {
        lengthCrc16 := lengthCrc16 + c;
      }
    }

    method StoreByte(c: byte)
      requires Shape() && buffer != null && index < buffer.Length
      modifies `index, `length, buffer
      ensures Shape() && TheParser() == Store(old(TheParser()), c)
    {
      if index < HEADER_SIZE {
        buffer[index] := c;
        index := index + 1;
      } else if 0 < length {
        buffer[index] := c;
        index := index + 1;
        length := length - 1;
      }
    }

    method CheckLength() returns (accepted: bool)
      ensures accepted == LengthAccepted(length, lengthCrc16)
    {
      var bytes := new byte[2];
      PutBigEndian(bytes, 0, length);
      assert bytes[..2] == [High(length), Low(length)];
      var crc := ComputeCrc(bytes, 2);
      accepted := lengthCrc16 == crc;
    }

    method ReceiveUartData(data: seq<byte>)
      requires Valid()
      modifies this, buffer
      ensures Valid()
      ensures State() == AfterBytes(old(State()), data).0
      ensures calls == old(calls) + AfterBytes(old(State()), data).1
      ensures buffer == null || buffer == old(buffer) || fresh(buffer)
    {
      hide AfterByte, Represents;
      for i := 0 to |data|
        invariant Valid()
        invariant buffer == null || buffer == old(buffer) || fresh(buffer)
        invariant AfterBytes(old(State()), data).0 == AfterBytes(State(), data[i..]).0
        invariant old(calls) + AfterBytes(old(State()), data).1 == calls + AfterBytes(State(), data[i..]).1
      {
        ghost var now, done, rest := State(), calls, data[i..];
        assert rest[0] == data[i] && rest[1..] == data[i + 1..];
        ReceiveByte(data[i]);
        ghost var first, later := AfterByte(now, data[i]).1, AfterBytes(State(), rest[1..]).1;
        assert done + (first + later) == (done + first) + later;
      }
    }

    /** A wait for an acknowledgement, during which the receive thread takes in `arrived`. */
    method WaitAck(reliable: bool, arrived: seq<byte>) returns (ret: int)
      requires Valid()
      modifies this, buffer
      ensures Valid()
      ensures buffer == null || buffer == old(buffer) || fresh(buffer)
      ensures var (comm, effects, result) := Waited(old(State()), reliable, arrived);
        State() == comm && calls == old(calls) + effects && ret == result
    {
      if !reliable {
        return 0;
      }
      ReceiveUartData(arrived);
      return if acked then 0 else PAYLOAD_ACK_TIMEOUT;
    }

    /**
      The receive thread takes in `gap` between assembling and the begin of the write loop, and
      `arrivals[i]` around write i.
     */
    method AssembleAndSend(cmd: u16, payload: seq<byte>, reliable: bool, gap: seq<byte>, arrivals: seq<Arrival>)
      returns (ret: int)
      requires Valid() && |payload| < 0x10000 && |arrivals| == TRY_RESEND_TIMES + 1
      modifies this, buffer
      ensures Valid()
      ensures var sent := SendPacket(old(State()), cmd, payload, reliable, gap, arrivals);
        State() == sent.comm && calls == old(calls) + sent.effects && ret == sent.ret
    {
      hide AfterBytes, Represents, SendRounds, Encode;
      if TooLong(|payload|) {
        return PAYLOAD_TOO_LONG;
      }
      var packet := new byte[HEADER_SIZE + |payload|](_ => 0);
      AssemblePacket(packet, DataPacket(sequence, reliable, cmd, payload));
      var frame := packet[..PacketLength(|payload|)];
      sequence := (sequence + 1) % 0x100;
      ret := SendAssembled(frame, reliable, gap, arrivals);
    }

    method SendAssembled(frame: seq<byte>, reliable: bool, gap: seq<byte>, arrivals: seq<Arrival>) returns (ret: int)
      requires Valid() && |arrivals| == TRY_RESEND_TIMES + 1
      modifies this, buffer
      ensures Valid()
      ensures var (prepared, early) := AfterBytes(old(State()), gap);
        var sent := SendRounds(Cleared(prepared, reliable), frame, reliable, arrivals);
        State() == sent.comm && calls == old(calls) + (early + sent.effects) && ret == sent.ret
    {
      hide AfterBytes, Represents, SendRounds;
      ReceiveUartData(gap);
      if reliable {
        acked := false;
      }
      ret := WriteUart(frame, reliable, arrivals);
    }

    lemma ValidIsGood()
      requires Valid()
      ensures Shape() && Good(State())
    {
      hide Represents;
    }

    /** One write, with what is taken in before it and during the wait after it. */
    method WriteAndWait(frame: seq<byte>, reliable: bool, arrival: Arrival) returns (ret: int)
      requires Valid()
      modifies this, buffer
      ensures Valid() && Good(State())
      ensures buffer == null || buffer == old(buffer) || fresh(buffer)
      ensures var (comm, effects, result) := Round(old(State()), frame, reliable, arrival);
        State() == comm && calls == old(calls) + effects && ret == result
    {
      hide Waited, Represents, AfterBytes;
      ReceiveUartData(arrival.before);
      calls := calls + [Written(frame)];
      ret := WaitAck(reliable, arrival.during);
    }

    /** One round of the send `all`, which has made the calls `written` so far and has `waits` left. */
    method WriteOnce(frame: seq<byte>, reliable: bool, arrival: Arrival,
                     ghost all: Sent, ghost before: seq<Effect>, ghost written: seq<Effect>, ghost left: seq<Arrival>)
      returns (ret: int, ghost more: seq<Effect>)
      requires Valid() && Good(State()) && left != [] && arrival == left[0] && calls == before + written
      requires Continues(all, written, SendRounds(State(), frame, reliable, left))
      modifies this, buffer
      ensures Valid() && Good(State()) && calls == before + more
      ensures buffer == null || buffer == old(buffer) || fresh(buffer)
      ensures if ret == 0 || |left| == 1 then all.comm == State() && all.effects == more && all.ret == ret
              else Continues(all, more, SendRounds(State(), frame, reliable, left[1..]))
    {
      hide Round, SendRounds, Continues, AfterBytes, Good, Represents, TheParser, TheLink;
      OneRound(all, written, State(), frame, reliable, left);
      more := written + Round(State(), frame, reliable, left[0]).1;
      ret := WriteAndWait(frame, reliable, arrival);
    }

    /** Writes the packet, and again after each wait that ends without the flag, up to the limit. */
    method WriteUart(frame: seq<byte>, reliable: bool, arrivals: seq<Arrival>) returns (ret: int)
      requires Valid() && |arrivals| == TRY_RESEND_TIMES + 1
      modifies this, buffer
      ensures Valid()
      ensures var sent := SendRounds(old(State()), frame, reliable, arrivals);
        State() == sent.comm && calls == old(calls) + sent.effects && ret == sent.ret
    {
      hide Round, SendRounds, Continues, AfterBytes, Good, Represents, TheParser, TheLink;
      ValidIsGood();
      var resendTimes := TRY_RESEND_TIMES;
      ghost var all := SendRounds(State(), frame, reliable, arrivals);
      ghost var written := [];
      StartsWhole(all);
      assert arrivals[0..] == arrivals;
      while true
        invariant Valid() && Good(State())
        invariant buffer == null || buffer == old(buffer) || fresh(buffer)
        invariant 0 <= resendTimes <= TRY_RESEND_TIMES
        invariant calls == old(calls) + written
        invariant var left := arrivals[TRY_RESEND_TIMES - resendTimes..];
          Continues(all, written, SendRounds(State(), frame, reliable, left))
        decreases resendTimes
      {
        ghost var left := arrivals[TRY_RESEND_TIMES - resendTimes..];
        var arrival := arrivals[TRY_RESEND_TIMES - resendTimes];
        ret, written := WriteOnce(frame, reliable, arrival, all, old(calls), written, left);
        if ret == 0 || resendTimes == 0 {
          return;
        }
        resendTimes := resendTimes - 1;
        assert left[1..] == arrivals[TRY_RESEND_TIMES - resendTimes..];
      }
    }
  }
}
