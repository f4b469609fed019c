/** What every step of two communicating endpoints keeps. */
module ProtocolInvariant {
  import opened Bits
  import opened Frames
  import opened Receiver
  import opened Link
  import opened Protocol

  // ---------------------------------------------------------------------------------------
  // What an intact frame does to its receiver
  // ---------------------------------------------------------------------------------------

  predicate Reliable(p: Packet) { IsBitSet(p.control, ACK) }

  /** `p` is what send number `num` puts on the wire. */
  predicate IsSend(p: Packet, num: nat) {
    && p.sequence == num % 0x100
    && |p.payload| <= 8175
    && p.control == Control(Reliable(p), false, false)
  }

  lemma ReceivedData(link: LinkState, p: Packet, num: nat)
    requires IsSend(p, num)
    ensures Receivable(Encode(p))
    ensures Delivered(Encode(p)) != [] <==> |p.payload| <= MAX_PAYLOAD
    ensures |p.payload| > MAX_PAYLOAD ==> Received(link, Encode(p)) == (link, [])
    ensures |p.payload| <= MAX_PAYLOAD ==>
      Received(link, Encode(p)) == (
        link.(currentAcked := if IsUdp(p) then -1 else link.currentAcked, lastReceived := p.sequence),
        (if Reliable(p) then [Written(Encode(AckPacket(p.sequence)))] else [])
          + (if link.lastReceived == p.sequence then [] else [Notified(p.cmd, p.payload)]))
  {
    hide Encode, ChecksumValid, Handle;
    EncodedLength(p);
    EncodeThenDecode(p);
    var f := Encode(p);
    if |p.payload| <= MAX_PAYLOAD {
      HandleOne(link, Frame(f));
      HandleIsProcess(link, f);
      ProcessSend(link, p, num);
    }
  }

  lemma HandleIsProcess(link: LinkState, f: seq<byte>)
    requires |f| >= HEADER_SIZE && |f| >= PacketLength(LengthField(f)) && |f| >= HEADER_SIZE + LengthField(f)
    requires Sized(f)
    ensures Handle(link, Frame(f)) == Process(link, Decode(f), ChecksumValid(f))
  {}

  lemma ProcessSend(link: LinkState, p: Packet, num: nat)
    requires IsSend(p, num)
    ensures Process(link, p, true) == (
      link.(currentAcked := if IsUdp(p) then -1 else link.currentAcked, lastReceived := p.sequence),
      (if Reliable(p) then [Written(Encode(AckPacket(p.sequence)))] else [])
        + (if link.lastReceived == p.sequence then [] else [Notified(p.cmd, p.payload)]))
  {
    hide Encode;
    ControlBits(Reliable(p), false, false);
  }

  lemma ReceivedAck(link: LinkState, sequence: byte)
    ensures Receivable(Encode(AckPacket(sequence)))
    ensures Received(link, Encode(AckPacket(sequence))) ==
      if sequence == CurrentSequence(link) && sequence != link.currentAcked
      then (link.(acked := true, currentAcked := sequence), [Woken]) else (link, [])
  {
    var p := AckPacket(sequence);
    EncodedLength(p);
    EncodeThenDecode(p);
    ControlBits(false, true, false);
    HandleOne(link, Frame(Encode(p)));
  }

  lemma ReceivedNack(link: LinkState, sequence: byte)
    ensures Receivable(Encode(NackPacket(sequence)))
    ensures Received(link, Encode(NackPacket(sequence))) ==
      (link, if sequence == CurrentSequence(link) then [Woken] else [])
  {
    var p := NackPacket(sequence);
    EncodedLength(p);
    EncodeThenDecode(p);
    ControlBits(false, false, true);
    HandleOne(link, Frame(Encode(p)));
  }

  // ---------------------------------------------------------------------------------------
  // The invariant, for the sends of `me` on their way to `peer`
  // ---------------------------------------------------------------------------------------

  predicate Increasing(s: seq<nat>) { forall i, j :: 0 <= i < j < |s| ==> s[i] < s[j] }

  predicate FirstOrDifferent(accepted: seq<nat>, k: nat)
    requires k < |accepted|
  {
    k == 0 || accepted[k] % 0x100 != accepted[k - 1] % 0x100
  }

  /** The accepted numbers that the 8-bit comparison with the previous one does not suppress. */
  function Fresh(accepted: seq<nat>): seq<nat> {
    if accepted == [] then []
    else
      var k := |accepted| - 1;
      Fresh(accepted[..k]) + (if FirstOrDifferent(accepted, k) then [accepted[k]] else [])
  }

  function Contents(history: seq<Packet>, nums: seq<nat>): seq<(u16, seq<byte>)>
    requires forall n <- nums :: n < |history|
  {
    seq(|nums|, i requires 0 <= i < |nums| => assert nums[i] in nums; (history[nums[i]].cmd, history[nums[i]].payload))
  }

  predicate PhaseInv(me: Endpoint)
    requires |me.writes| == |me.history|
    requires forall p <- me.history :: |p.payload| < 0x10000
  {
    var n := |me.history|;
    if n == 0 then me.phase.Idle?
    else
      var p, written := me.history[n - 1], me.writes[n - 1];
      match me.phase
      case Idle => 1 <= written <= 6
      case Prepared(f, r) => f == Encode(p) && r == Reliable(p) && written == 0
      case Writing(f, r, k) =>
        && f == Encode(p) && r == Reliable(p)
        && k <= TRY_RESEND_TIMES && written == TRY_RESEND_TIMES - k && (!r ==> k == TRY_RESEND_TIMES)
      case Waiting(f, k) =>
        f == Encode(p) && Reliable(p) && k <= TRY_RESEND_TIMES && written == TRY_RESEND_TIMES + 1 - k
  }

  predicate SenderInv(me: Endpoint) {
    && |me.writes| == |me.history|
    && me.link.sequence == |me.history| % 0x100
    && (forall p <- me.history :: |p.payload| < 0x10000)
    && (forall g :: 0 <= g < |me.history| ==> IsSend(me.history[g], g))
    && (forall g :: 0 <= g < |me.history| - 1 ==> 1 <= me.writes[g] <= 6)
    && PhaseInv(me)
  }

  predicate OnWire(me: Endpoint, w: Wire)
    requires SenderInv(me)
  {
    w.Data? ==> w.num < |me.history| && me.writes[w.num] >= 1 && w.bytes == Encode(me.history[w.num])
  }

  predicate ChannelInv(me: Endpoint, out: seq<Wire>)
    requires SenderInv(me)
  {
    && (forall i :: 0 <= i < |out| ==> OnWire(me, out[i]))
    && (forall i, j :: 0 <= i < j < |out| && out[i].Data? && out[j].Data? ==> out[i].num <= out[j].num)
  }

  predicate ReceiverInv(me: Endpoint, peer: Endpoint, out: seq<Wire>)
    requires SenderInv(me)
  {
    && Increasing(peer.accepted)
    && (forall a <- peer.accepted :: a < |me.history| && me.writes[a] >= 1)
    && (peer.accepted != [] ==> forall i :: 0 <= i < |out| && out[i].Data? ==> Last(peer.accepted) <= out[i].num)
    && peer.link.lastReceived == (if peer.accepted == [] then -1 else Last(peer.accepted) % 0x100)
    && peer.delivered == Fresh(peer.accepted)
    && (forall n <- peer.delivered :: n < |me.history|)
    && peer.given == Contents(me.history, peer.delivered)
  }

  ghost predicate ControlWire(me: Endpoint, accepted: seq<nat>, w: Wire) {
    match w
    case Data(_, _) => true
    case Ack(num, b) =>
      num in accepted && num < |me.history| && Reliable(me.history[num]) && b == Encode(AckPacket(num % 0x100))
    case Nack(b) => exists q: byte :: b == Encode(NackPacket(q))
  }

  /** The send is under way and its acked flag has been cleared. */
  predicate Active(me: Endpoint) { me.phase.Waiting? || (me.phase.Writing? && me.phase.reliable) }

  predicate AckedBy(accepted: seq<nat>, ackOf: int, num: int) {
    0 <= ackOf <= num && ackOf in accepted && ackOf % 0x100 == num % 0x100
  }

  predicate AckStateInv(me: Endpoint, accepted: seq<nat>) {
    && (match me.origin
        case AtInit => me.link.currentAcked == 127
        case AfterUdp => me.link.currentAcked == -1
        case OfSend(n) =>
          n in accepted && me.link.currentAcked == n % 0x100 && (n == |me.history| - 1 ==> me.link.acked))
    && (Active(me) && me.link.acked ==> AckedBy(accepted, me.ackOf, |me.history| - 1))
  }

  predicate ResultInv(me: Endpoint, accepted: seq<nat>, r: Result) {
    && r.num < |me.history| && r.num < |me.writes|
    && 1 <= me.writes[r.num] <= 6
    && (r.num == |me.history| - 1 ==> me.phase.Idle?)
    && (r.reliable <==> Reliable(me.history[r.num]))
    && (r.reliable && r.ret == OK ==> AckedBy(accepted, r.ackOf, r.num))
    && (r.ret != OK ==> r.reliable && r.ret == PAYLOAD_ACK_TIMEOUT && me.writes[r.num] == 6)
  }

  ghost predicate Dir(me: Endpoint, peer: Endpoint, out: seq<Wire>, inn: seq<Wire>) {
    && SenderInv(me)
    && ChannelInv(me, out)
    && ReceiverInv(me, peer, out)
    && (forall i :: 0 <= i < |inn| ==> ControlWire(me, peer.accepted, inn[i]))
    && AckStateInv(me, peer.accepted)
    && (forall i :: 0 <= i < |me.results| ==> ResultInv(me, peer.accepted, me.results[i]))
  }

  ghost predicate Inv(s: State) {
    Dir(s.me, s.peer, s.out, s.inn) && Dir(s.peer, s.me, s.inn, s.out)
  }

  lemma InvAtStart()
    ensures Inv(START)
  {}

  // ---------------------------------------------------------------------------------------
  // Local steps
  // ---------------------------------------------------------------------------------------

  /** Steps of `me` that receive nothing do not touch the sends of the other side. */
  lemma OtherDirection(peer: Endpoint, me: Endpoint, me': Endpoint, inn: seq<Wire>, out: seq<Wire>, out': seq<Wire>)
    requires Dir(peer, me, inn, out)
    requires me'.link.lastReceived == me.link.lastReceived
    requires me'.accepted == me.accepted && me'.delivered == me.delivered && me'.given == me.given
    requires forall i :: 0 <= i < |out'| ==> ControlWire(peer, me.accepted, out'[i])
    ensures Dir(peer, me', inn, out')
  {
    hide SenderInv, ChannelInv, Fresh, Contents, ControlWire, AckStateInv, ResultInv;
  }

  /** Appending to the history keeps what is known about earlier sends. */
  lemma AssembleKeeps(s: State, a: Action)
    requires Inv(s) && a.Assemble? && Enabled(s, a)
    ensures Inv(Do(s, a))
  {
    var t := Do(s, a);
    OtherDirection(s.peer, s.me, t.me, s.inn, s.out, s.out);
    AssembleSender(s.me, t.me, a);
    AssembleReceiver(s, a);
  }

  lemma AssembleSender(me: Endpoint, me': Endpoint, a: Action)
    requires SenderInv(me) && a.Assemble? && me.phase.Idle? && |a.payload| <= 65519 && !TooLong(|a.payload|)
    requires me' == DoAssemble(me, a.cmd, a.payload, a.reliable)
    ensures SenderInv(me')
  {
    hide Encode, IsBitSet;
    ControlBits(a.reliable, false, false);
  }

  lemma AssembleReceiver(s: State, a: Action)
    requires Inv(s) && a.Assemble? && Enabled(s, a)
    requires SenderInv(Do(s, a).me)
    ensures var t := Do(s, a); Dir(t.me, t.peer, t.out, t.inn)
  {
    hide Encode, IsBitSet, Fresh, PhaseInv;
    var t := Do(s, a);
    assert forall g :: 0 <= g < |s.me.history| ==>
      t.me.history[g] == s.me.history[g] && t.me.writes[g] == s.me.writes[g];
    forall i | 0 <= i < |s.peer.delivered|
      ensures Contents(t.me.history, s.peer.delivered)[i] == Contents(s.me.history, s.peer.delivered)[i]
    {
      assert s.peer.delivered[i] in s.peer.delivered;
    }
    forall i | 0 <= i < |t.inn| ensures ControlWire(t.me, t.peer.accepted, t.inn[i]) {
      assert ControlWire(s.me, s.peer.accepted, s.inn[i]);
    }
    forall i | 0 <= i < |t.me.results| ensures ResultInv(t.me, t.peer.accepted, t.me.results[i]) {
      assert ResultInv(s.me, s.peer.accepted, s.me.results[i]);
    }
  }

  lemma BeginKeeps(s: State)
    requires Inv(s) && Enabled(s, Begin)
    ensures Inv(Do(s, Begin))
  {
    hide Encode, IsBitSet, Fresh, Contents, IsSend;
    var t := Do(s, Begin);
    OtherDirection(s.peer, s.me, t.me, s.inn, s.out, s.out);
    assert forall i :: 0 <= i < |s.me.results| ==> ResultInv(s.me, s.peer.accepted, s.me.results[i]);
    assert forall i :: 0 <= i < |s.inn| ==> ControlWire(s.me, s.peer.accepted, s.inn[i]);
  }

  lemma WriteKeeps(s: State)
    requires Inv(s) && Enabled(s, Write)
    ensures Inv(Do(s, Write))
  {
    hide Dir, Enabled, DoWrite;
    var t := Do(s, Write);
    WriteControl(s);
    OtherDirection(s.peer, s.me, t.me, s.inn, s.out, t.out);
    WriteSender(s);
    WriteReceiver(s);
  }

  lemma WriteControl(s: State)
    requires Inv(s) && Enabled(s, Write)
    ensures var t := Do(s, Write);
      && t.me.link == s.me.link && t.me.accepted == s.me.accepted
      && t.me.delivered == s.me.delivered && t.me.given == s.me.given
      && t.peer == s.peer && t.inn == s.inn
      && forall i :: 0 <= i < |t.out| ==> ControlWire(s.peer, s.me.accepted, t.out[i])
  {
    hide SenderInv, ChannelInv, ReceiverInv, AckStateInv, ResultInv, Encode, IsBitSet;
  }

  lemma WriteSender(s: State)
    requires Inv(s) && Enabled(s, Write)
    ensures SenderInv(Do(s, Write).me) && ChannelInv(Do(s, Write).me, Do(s, Write).out)
  {
    hide Encode, IsBitSet, Fresh, Contents, IsSend, AckStateInv, ControlWire, ResultInv, ReceiverInv;
  }

  lemma WriteReceiver(s: State)
    requires Inv(s) && Enabled(s, Write)
    requires SenderInv(Do(s, Write).me) && ChannelInv(Do(s, Write).me, Do(s, Write).out)
    ensures var t := Do(s, Write); Dir(t.me, t.peer, t.out, t.inn)
  {
    hide Encode, IsBitSet, Fresh, Contents, IsSend, ChannelInv;
    var t := Do(s, Write);
    if s.peer.accepted != [] { assert Last(s.peer.accepted) in s.peer.accepted; }
    assert forall i :: 0 <= i < |s.me.results| ==> ResultInv(s.me, s.peer.accepted, s.me.results[i]);
    assert forall i :: 0 <= i < |s.inn| ==> ControlWire(s.me, s.peer.accepted, s.inn[i]);
  }

  /** The channel and the receiver are about what has been written, not about the phase. */
  lemma SameWrites(me: Endpoint, me': Endpoint, peer: Endpoint, out: seq<Wire>)
    requires SenderInv(me) && SenderInv(me') && me'.history == me.history && me'.writes == me.writes
    requires ChannelInv(me, out) && ReceiverInv(me, peer, out)
    ensures ChannelInv(me', out) && ReceiverInv(me', peer, out)
  {
    hide SenderInv, Encode, Fresh, Contents, Increasing;
  }

  lemma WakeKeeps(s: State)
    requires Inv(s) && Enabled(s, Wake)
    ensures Inv(Do(s, Wake))
  {
    hide ChannelInv, ReceiverInv, ControlWire, Encode, IsBitSet, IsSend;
    var t := Do(s, Wake);
    OtherDirection(s.peer, s.me, t.me, s.inn, s.out, s.out);
    SameWrites(s.me, t.me, s.peer, s.out);
    forall i | 0 <= i < |s.inn| ensures ControlWire(t.me, s.peer.accepted, s.inn[i]) {
      SameControl(s.me, t.me, s.peer.accepted, s.peer.accepted, s.inn[i]);
    }
    assert forall i :: 0 <= i < |s.me.results| ==> ResultInv(s.me, s.peer.accepted, s.me.results[i]);
  }

  // ---------------------------------------------------------------------------------------
  // Losing, garbling and receiving
  // ---------------------------------------------------------------------------------------

  lemma LoseKeeps(s: State, i: nat)
    requires Inv(s) && i < |s.inn|
    ensures Inv(Do(s, Lose(i)))
  {
    hide SenderInv, PhaseInv, Encode, Fresh, Contents, ControlWire, AckStateInv, ResultInv, OnWire;
    var t := Do(s, Lose(i));
    forall k | 0 <= k < |t.inn| ensures t.inn[k] == s.inn[if k < i then k else k + 1] {}
  }

  /** Control frames appended to a channel leave its data frames alone. */
  lemma AppendControl(me: Endpoint, peer: Endpoint, out: seq<Wire>, more: seq<Wire>, inn: seq<Wire>)
    requires Dir(me, peer, out, inn)
    requires forall w <- more :: !w.Data?
    ensures Dir(me, peer, out + more, inn)
  {
    hide SenderInv, PhaseInv, Encode, Fresh, Contents, ControlWire, AckStateInv, ResultInv;
    var out' := out + more;
    forall k | |out| <= k < |out'| ensures !out'[k].Data? { assert out'[k] == more[k - |out|]; }
  }

  lemma NackEffects(link: LinkState, e: Event)
    requires Damaged(e)
    ensures var (link', effects) := Handle(link, e);
      && link' == link
      && (forall b <- WrittenIn(effects) :: exists q: byte :: b == Encode(NackPacket(q)))
      && NotifiedIn(effects) == []
  {
    var effects := Handle(link, e).1;
    var q := match e case Frame(f) => Decode(f).sequence case BadLength(sequence) => sequence;
    assert effects == [] || effects == [Woken] || effects == [Written(Encode(NackPacket(q)))];
    assert [Written(Encode(NackPacket(q)))][1..] == [] && [Woken][1..] == [];
    assert forall b <- WrittenIn(effects) :: b == Encode(NackPacket(q));
    assert NotifiedIn(effects) == [];
  }

  lemma NoiseKeeps(s: State, e: Event)
    requires Inv(s) && Enabled(s, Noise(e))
    ensures Inv(Do(s, Noise(e)))
  {
    hide Dir, Handle, Encode;
    var t := Do(s, Noise(e));
    NackEffects(s.me.link, e);
    var more := Nacks(WrittenIn(Handle(s.me.link, e).1));
    assert t == s.(out := s.out + more);
    AppendControl(s.me, s.peer, s.out, more, s.inn);
    forall i | 0 <= i < |more| ensures ControlWire(s.peer, s.me.accepted, more[i]) {
      assert more[i].bytes in WrittenIn(Handle(s.me.link, e).1);
    }
    ControlOnly(s, more);
    OtherDirection(s.peer, s.me, s.me, s.inn, s.out, t.out);
  }

  lemma ControlOnly(s: State, more: seq<Wire>)
    requires Inv(s)
    requires forall i :: 0 <= i < |more| ==> ControlWire(s.peer, s.me.accepted, more[i])
    ensures forall i :: 0 <= i < |s.out + more| ==> ControlWire(s.peer, s.me.accepted, (s.out + more)[i])
  {
    hide SenderInv, ChannelInv, ReceiverInv, ControlWire, AckStateInv, ResultInv;
  }

  lemma ReceiveNackKeeps(s: State)
    requires Inv(s) && Enabled(s, Receive) && s.inn[0].Nack?
    ensures Inv(Do(s, Receive))
  {
    hide SenderInv, ChannelInv, ReceiverInv, AckStateInv, ResultInv, Encode, Received, Receivable;
    assert ControlWire(s.me, s.peer.accepted, s.inn[0]);
    var q: byte :| s.inn[0].bytes == Encode(NackPacket(q));
    ReceivedNack(s.me.link, q);
    LoseKeeps(s, 0);
    NoOutput();
    var t, s1 := Do(s, Receive), Do(s, Lose(0));
    assert s1.inn == s.inn[1..];
    assert s.out + [] == s.out && s.me.delivered + [] == s.me.delivered && s.me.given + [] == s.me.given;
    assert t == s1;
  }

  lemma NoOutput()
    ensures WrittenIn([]) == WrittenIn([Woken]) == [] && NotifiedIn([]) == NotifiedIn([Woken]) == []
  {
    assert [Woken][1..] == [];
  }

  lemma ReceiveAckKeeps(s: State)
    requires Inv(s) && Enabled(s, Receive) && s.inn[0].Ack?
    ensures Inv(Do(s, Receive))
  {
    hide ChannelInv, ReceiverInv, PhaseInv, AckStateInv, ResultInv, Encode, Received, Receivable;
    assert ControlWire(s.me, s.peer.accepted, s.inn[0]);
    var num := s.inn[0].num;
    ReceivedAck(s.me.link, num % 0x100);
    LoseKeeps(s, 0);
    NoOutput();
    var t, s1 := Do(s, Receive), Do(s, Lose(0));
    assert s1.inn == s.inn[1..];
    assert s.out + [] == s.out && s.me.delivered + [] == s.me.delivered && s.me.given + [] == s.me.given;
    if t != s1 {
      var link := s.me.link.(acked := true, currentAcked := num % 0x100);
      assert t == s1.(me := s.me.(link := link, origin := OfSend(num), ackOf := num));
      AckAccepted(s1, num);
    }
  }

  /** Only the part of the link that concerns acknowledgements differs. */
  predicate SameSender(me: Endpoint, me': Endpoint) {
    && me'.link.sequence == me.link.sequence && me'.phase == me.phase
    && me'.history == me.history && me'.writes == me.writes && me'.results == me.results
  }

  lemma SenderDirection(me: Endpoint, me': Endpoint, peer: Endpoint, out: seq<Wire>, inn: seq<Wire>)
    requires Dir(me, peer, out, inn) && SameSender(me, me')
    requires AckStateInv(me', peer.accepted)
    ensures Dir(me', peer, out, inn)
  {
    hide Encode, Fresh, Contents, IsSend, ControlWire, AckStateInv, Increasing;
    forall i | 0 <= i < |inn| ensures ControlWire(me', peer.accepted, inn[i]) {
      SameControl(me, me', peer.accepted, peer.accepted, inn[i]);
    }
    assert forall i :: 0 <= i < |me.results| ==> ResultInv(me, peer.accepted, me.results[i]);
  }

  lemma AckAccepted(s: State, num: nat)
    requires Inv(s)
    requires num in s.peer.accepted && num % 0x100 == CurrentSequence(s.me.link)
    ensures var link := s.me.link.(acked := true, currentAcked := num % 0x100);
      Inv(s.(me := s.me.(link := link, origin := OfSend(num), ackOf := num)))
  {
    hide Encode, Fresh, Contents, IsSend, ControlWire, PhaseInv, ChannelInv;
    var link := s.me.link.(acked := true, currentAcked := num % 0x100);
    var t := s.(me := s.me.(link := link, origin := OfSend(num), ackOf := num));
    assert num < |s.me.history|;
    SenderDirection(s.me, t.me, s.peer, s.out, s.inn);
    OtherDirection(s.peer, s.me, t.me, s.inn, s.out, s.out);
  }

  lemma SameControl(me: Endpoint, me': Endpoint, accepted: seq<nat>, accepted': seq<nat>, w: Wire)
    requires ControlWire(me, accepted, w) && me'.history == me.history
    requires forall a <- accepted :: a in accepted'
    ensures ControlWire(me', accepted', w)
  {}

  // ---------------------------------------------------------------------------------------
  // Receiving a data frame
  // ---------------------------------------------------------------------------------------

  lemma ReceiveLongKeeps(s: State)
    requires Inv(s) && Enabled(s, Receive) && s.inn[0].Data?
    requires s.inn[0].num < |s.peer.history| && |s.peer.history[s.inn[0].num].payload| > MAX_PAYLOAD
    ensures Inv(Do(s, Receive))
  {
    hide ReceiverInv, AckStateInv, ResultInv, Encode, Received, Receivable, ControlWire;
    var num := s.inn[0].num;
    assert OnWire(s.peer, s.inn[0]);
    ReceivedData(s.me.link, s.peer.history[num], num);
    LoseKeeps(s, 0);
    NoOutput();
    var t, s1 := Do(s, Receive), Do(s, Lose(0));
    assert s1.inn == s.inn[1..];
    assert s.out + [] == s.out && s.me.delivered + [] == s.me.delivered && s.me.given + [] == s.me.given;
    assert t == s1;
  }

  /** The state after a data frame that fits the buffer, written out. */
  function Accepted(s: State, num: nat): State
    requires num < |s.peer.history|
  {
    var p := s.peer.history[num];
    var repeated := s.me.link.lastReceived == num % 0x100;
    var udp := IsUdp(p);
    s.(me := s.me.(
         link := s.me.link.(currentAcked := if udp then -1 else s.me.link.currentAcked, lastReceived := num % 0x100),
         origin := if udp && s.me.link.currentAcked != -1 then AfterUdp else s.me.origin,
         accepted := Note(s.me.accepted, num),
         delivered := s.me.delivered + (if repeated then [] else [num]),
         given := s.me.given + (if repeated then [] else [(p.cmd, p.payload)])),
       out := s.out + (if Reliable(p) then [Ack(num, Encode(AckPacket(num % 0x100)))] else []))
  }

  lemma DataEffects(reliable: bool, ack: seq<byte>, repeated: bool, cmd: u16, payload: seq<byte>)
    ensures
      var effects := (if reliable then [Written(ack)] else []) + (if repeated then [] else [Notified(cmd, payload)]);
      && WrittenIn(effects) == (if reliable then [ack] else [])
      && NotifiedIn(effects) == (if repeated then [] else [(cmd, payload)])
  {
    var w, n := Written(ack), Notified(cmd, payload);
    assert [w, n][1..] == [n] && [w][1..] == [] && [n][1..] == [];
    assert WrittenIn([n]) == [] && WrittenIn([w]) == [ack];
    assert NotifiedIn([n]) == [(cmd, payload)] && NotifiedIn([w]) == [];
    assert WrittenIn([w, n]) == [ack] + WrittenIn([n]);
    assert NotifiedIn([w, n]) == [] + NotifiedIn([n]);
    var effects := (if reliable then [w] else []) + (if repeated then [] else [n]);
    assert effects == if reliable then (if repeated then [w] else [w, n]) else (if repeated then [] else [n]);
  }

  lemma ReceiveDataIsAccepted(s: State)
    requires Inv(s) && Enabled(s, Receive) && s.inn[0].Data?
    requires s.inn[0].num < |s.peer.history| && |s.peer.history[s.inn[0].num].payload| <= MAX_PAYLOAD
    ensures Do(s, Receive) == Accepted(Do(s, Lose(0)), s.inn[0].num)
  {
    hide Inv, Encode, Received, Receivable, Delivered;
    HeadIsSend(s);
    ReceiveSend(s, s.peer.history[s.inn[0].num]);
  }

  lemma HeadIsSend(s: State)
    requires Inv(s) && s.inn != [] && s.inn[0].Data?
    ensures var num := s.inn[0].num;
      && num < |s.peer.history| && IsSend(s.peer.history[num], num)
      && |s.peer.history[num].payload| < 0x10000 && s.inn[0].bytes == Encode(s.peer.history[num])
  {
    hide ReceiverInv, AckStateInv, ResultInv, PhaseInv, Encode, ControlWire, IsSend;
    assert OnWire(s.peer, s.inn[0]);
    assert s.peer.history[s.inn[0].num] in s.peer.history;
  }

  lemma {:induction false} ReceiveSend(s: State, p: Packet)
    requires Enabled(s, Receive) && s.inn[0].Data? && s.inn[0].num < |s.peer.history|
    requires p == s.peer.history[s.inn[0].num] && IsSend(p, s.inn[0].num) && |p.payload| <= MAX_PAYLOAD
    requires p.sequence == s.inn[0].num % 0x100
    requires s.inn[0].bytes == Encode(p)
    ensures Do(s, Receive) == Accepted(Do(s, Lose(0)), s.inn[0].num)
  {
    hide Encode, Received, Receivable, IsUdp, Delivered, Reliable, Handle, IsSend, WrittenIn, NotifiedIn, Note;
    var num := s.inn[0].num;
    ReceivedData(s.me.link, p, num);
    var repeated := s.me.link.lastReceived == num % 0x100;
    DataEffects(Reliable(p), Encode(AckPacket(num % 0x100)), repeated, p.cmd, p.payload);
    var t, u := Do(s, Receive), Accepted(Do(s, Lose(0)), num);
    assert Do(s, Lose(0)) == s.(inn := s.inn[1..]);
    assert t.out == u.out && t.me.link == u.me.link && t.me.origin == u.me.origin;
    assert t.me.accepted == u.me.accepted && t.me.ackOf == u.me.ackOf;
    assert t.me.delivered == u.me.delivered && t.me.given == u.me.given;
    assert t.me == u.me;
  }

  lemma FreshNote(accepted: seq<nat>, num: nat)
    requires accepted != [] ==> Last(accepted) <= num
    ensures var repeated := accepted != [] && Last(accepted) % 0x100 == num % 0x100;
      Fresh(Note(accepted, num)) == Fresh(accepted) + (if repeated then [] else [num])
  {
    if accepted == [] || Last(accepted) != num {
      assert (accepted + [num])[..|accepted|] == accepted;
    }
  }

  /** `num` may come next from the peer. */
  predicate Next(s: State, num: nat) {
    && num < |s.peer.history| && |s.peer.writes| == |s.peer.history| && s.peer.writes[num] >= 1
    && (s.me.accepted != [] ==> Last(s.me.accepted) <= num)
    && (forall i :: 0 <= i < |s.inn| && s.inn[i].Data? ==> num <= s.inn[i].num)
  }

  lemma AcceptedAsSender(s: State, num: nat)
    requires Inv(s) && num < |s.peer.history|
    ensures var t := Accepted(s, num); Dir(t.me, t.peer, t.out, t.inn)
  {
    hide Dir, Encode, IsUdp, IsBitSet;
    var t := Accepted(s, num);
    AckStateAfterData(s, num);
    SenderDirection(s.me, t.me, s.peer, s.out, s.inn);
    var more := if Reliable(s.peer.history[num]) then [Ack(num, Encode(AckPacket(num % 0x100)))] else [];
    AppendControl(t.me, s.peer, s.out, more, s.inn);
  }

  lemma AckStateAfterData(s: State, num: nat)
    requires Inv(s) && num < |s.peer.history|
    ensures AckStateInv(Accepted(s, num).me, s.peer.accepted)
  {
    hide SenderInv, ChannelInv, ReceiverInv, ResultInv, ControlWire, Encode, IsUdp, IsBitSet;
  }

  lemma AcceptedReceiverInv(s: State, num: nat)
    requires Inv(s) && Next(s, num)
    ensures var t := Accepted(s, num); ReceiverInv(t.peer, t.me, t.inn)
  {
    hide ChannelInv, ResultInv, ControlWire, Encode, IsUdp, IsBitSet, Fresh, PhaseInv, AckStateInv;
    var t := Accepted(s, num);
    FreshNote(s.me.accepted, num);
    assert forall n <- t.me.delivered :: n in s.me.delivered || n == num;
    assert t.me.given == Contents(t.peer.history, t.me.delivered);
  }

  lemma AcceptedAsReceiver(s: State, num: nat)
    requires Inv(s) && Next(s, num)
    ensures var t := Accepted(s, num); Dir(t.peer, t.me, t.inn, t.out)
  {
    hide SenderInv, ChannelInv, ReceiverInv, Encode, IsUdp, IsBitSet, Fresh, ControlWire;
    var t := Accepted(s, num);
    AcceptedReceiverInv(s, num);
    assert forall a <- s.me.accepted :: a in t.me.accepted;
    forall i | 0 <= i < |t.out| ensures ControlWire(s.peer, t.me.accepted, t.out[i]) {
      if i < |s.out| {
        SameControl(s.peer, s.peer, s.me.accepted, t.me.accepted, s.out[i]);
      } else {
        AcknowledgesNote(s, num);
      }
    }
    assert forall i :: 0 <= i < |s.peer.results| ==> ResultInv(s.peer, s.me.accepted, s.peer.results[i]);
  }

  lemma AcknowledgesNote(s: State, num: nat)
    requires num < |s.peer.history| && Reliable(s.peer.history[num])
    ensures ControlWire(s.peer, Note(s.me.accepted, num), Ack(num, Encode(AckPacket(num % 0x100))))
  {
    hide Encode, IsBitSet;
  }

  lemma ReceiveDataKeeps(s: State)
    requires Inv(s) && Enabled(s, Receive) && s.inn[0].Data?
    ensures Inv(Do(s, Receive))
  {
    hide Dir, Encode, Accepted;
    HeadIsNext(s);
    var num := s.inn[0].num;
    if |s.peer.history[num].payload| > MAX_PAYLOAD {
      ReceiveLongKeeps(s);
    } else {
      var s1 := Do(s, Lose(0));
      assert s1 == s.(inn := s.inn[1..]);
      ReceiveDataIsAccepted(s);
      LoseKeeps(s, 0);
      AcceptedAsSender(s1, num);
      AcceptedAsReceiver(s1, num);
    }
  }

  lemma HeadIsNext(s: State)
    requires Inv(s) && s.inn != [] && s.inn[0].Data?
    ensures Next(s.(inn := s.inn[1..]), s.inn[0].num)
  {
    hide ResultInv, ControlWire, Encode, PhaseInv, Fresh, AckStateInv;
    assert OnWire(s.peer, s.inn[0]);
  }

  // ---------------------------------------------------------------------------------------
  // Every step, every run
  // ---------------------------------------------------------------------------------------

  lemma DoKeeps(s: State, a: Action)
    requires Inv(s) && Enabled(s, a)
    ensures Inv(Do(s, a))
  {
    hide Inv, Do, Enabled;
    match a {
      case Assemble(_, _, _) => AssembleKeeps(s, a);
      case Begin => BeginKeeps(s);
      case Write => WriteKeeps(s);
      case Wake => WakeKeeps(s);
      case Receive => ReceiveKeeps(s);
      case Lose(i) => LoseEnabled(s, i); LoseKeeps(s, i);
      case Noise(e) => NoiseKeeps(s, e);
    }
  }

  lemma LoseEnabled(s: State, i: nat)
    requires Enabled(s, Lose(i))
    ensures i < |s.inn|
  {}

  lemma ReceiveKeeps(s: State)
    requires Inv(s) && Enabled(s, Receive)
    ensures Inv(Do(s, Receive))
  {
    hide Inv, Do;
    match s.inn[0] {
      case Data(_, _) => ReceiveDataKeeps(s);
      case Ack(_, _) => ReceiveAckKeeps(s);
      case Nack(_) => ReceiveNackKeeps(s);
    }
  }

  lemma ApplyKeeps(s: State, t: Step)
    requires Inv(s) && CanStep(s, t)
    ensures Inv(Apply(s, t))
  {
    hide Dir, Do, Enabled;
    DoKeeps(if t.mine then s else Swap(s), t.action);
  }

  /** The invariant holds at every moment of every run. */
  lemma {:induction false} InvAlways(states: seq<State>, run: seq<Step>, k: nat)
    requires IsRun(states, run) && states[0] == START && k < |states|
    ensures Inv(states[k])
    decreases k
  {
    hide Inv, Apply, CanStep;
    if k == 0 {
      InvAtStart();
    } else {
      InvAlways(states, run, k - 1);
      assert StepAt(states, run, k - 1);
      ApplyKeeps(states[k - 1], run[k - 1]);
    }
  }
}
