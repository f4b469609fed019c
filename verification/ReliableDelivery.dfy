/** What every run of two endpoints guarantees to the applications, and exactly where it stops. */
module ReliableDelivery {
  import opened Bits
  import opened Frames
  import opened Receiver
  import opened Link
  import opened Protocol
  import opened ProtocolInvariant

  // ---------------------------------------------------------------------------------------
  // At most once, in order, and exactly which
  // ---------------------------------------------------------------------------------------

  lemma {:induction false} FreshIsIncreasing(accepted: seq<nat>)
    requires Increasing(accepted)
    ensures Increasing(Fresh(accepted))
    ensures forall n <- Fresh(accepted) :: n in accepted
  {
    if accepted != [] {
      var k := |accepted| - 1;
      FreshIsIncreasing(accepted[..k]);
      var earlier := Fresh(accepted[..k]);
      forall i | 0 <= i < |earlier| ensures earlier[i] < accepted[k] && earlier[i] in accepted {
        assert earlier[i] in accepted[..k];
      }
    }
  }

  lemma {:induction false} FreshExactly(accepted: seq<nat>, num: nat)
    requires Increasing(accepted)
    ensures num in Fresh(accepted) <==>
      exists k :: 0 <= k < |accepted| && accepted[k] == num && FirstOrDifferent(accepted, k)
  {
    if accepted != [] {
      var k := |accepted| - 1;
      FreshExactly(accepted[..k], num);
      forall i | 0 <= i < k ensures FirstOrDifferent(accepted, i) <==> FirstOrDifferent(accepted[..k], i) {}
    }
  }

  /**
    At every moment of every run, with frames lost, garbled, repeated and acknowledged in any way:
    what the peer's application has been given are sends of this side, each with its own contents,
    at most once and in the order they were sent.
   */
  lemma AtMostOnceInOrder(states: seq<State>, run: seq<Step>, k: nat)
    requires IsRun(states, run) && states[0] == START && k < |states|
    ensures var me, peer := states[k].me, states[k].peer;
      && Increasing(peer.delivered)
      && |peer.given| == |peer.delivered|
      && forall i :: 0 <= i < |peer.delivered| ==>
           var num := peer.delivered[i];
           num < |me.history| && peer.given[i] == (me.history[num].cmd, me.history[num].payload)
  {
    hide IsRun, Inv;
    InvAlways(states, run, k);
    GivenInOrder(states[k]);
  }

  lemma GivenInOrder(s: State)
    requires Inv(s)
    ensures Increasing(s.peer.delivered) && |s.peer.given| == |s.peer.delivered|
    ensures forall i :: 0 <= i < |s.peer.delivered| ==>
      var num := s.peer.delivered[i];
      num < |s.me.history| && s.peer.given[i] == (s.me.history[num].cmd, s.me.history[num].payload)
  {
    hide SenderInv, ChannelInv, ControlWire, AckStateInv, ResultInv, Fresh;
    FreshIsIncreasing(s.peer.accepted);
    forall i | 0 <= i < |s.peer.delivered| ensures s.peer.delivered[i] < |s.me.history| {
      assert s.peer.delivered[i] in s.peer.delivered;
    }
  }

  /** A frame that reached the peer was given to the application unless its 8-bit number repeats the one before. */
  lemma DeliveredExactly(states: seq<State>, run: seq<Step>, k: nat, i: nat)
    requires IsRun(states, run) && states[0] == START && k < |states|
    requires i < |states[k].peer.accepted|
    ensures var peer := states[k].peer;
      peer.accepted[i] in peer.delivered <==> FirstOrDifferent(peer.accepted, i)
  {
    hide IsRun, FirstOrDifferent, Fresh, Inv;
    InvAlways(states, run, k);
    DeliveredIsFresh(states[k]);
    var accepted := states[k].peer.accepted;
    FreshExactly(accepted, accepted[i]);
  }

  lemma DeliveredIsFresh(s: State)
    requires Inv(s)
    ensures Increasing(s.peer.accepted) && s.peer.delivered == Fresh(s.peer.accepted)
  {
    hide SenderInv, ChannelInv, ControlWire, AckStateInv, ResultInv, Fresh;
  }

  // ---------------------------------------------------------------------------------------
  // Reliable delivery
  // ---------------------------------------------------------------------------------------

  predicate AckInWindow(states: seq<State>, run: seq<Step>, i: nat) {
    (i < |run| && i < |states| && run[i].mine && run[i].action.Receive? && states[i].inn != [] && states[i].inn[0].Ack?)
      ==> |states[i].me.history| - 1 - states[i].inn[0].num < 0x100
  }

  /** Whenever this side takes an acknowledgement off its channel, it is for one of its last 256 sends. */
  ghost predicate AcksInWindow(states: seq<State>, run: seq<Step>) {
    forall i: nat :: AckInWindow(states, run, i)
  }

  /** Between two frames that reach the peer fewer than 255 sends are lost altogether. */
  predicate LossesInWindow(accepted: seq<nat>) {
    forall k :: 0 < k < |accepted| ==> accepted[k] < accepted[k - 1] + 0x100
  }

  /** The acked flag stands for the current send, and every success for its own. */
  predicate AckedExactly(me: Endpoint) {
    && (Active(me) && me.link.acked ==> me.ackOf == |me.history| - 1)
    && forall i :: 0 <= i < |me.results| && me.results[i].reliable && me.results[i].ret == OK ==>
         me.results[i].ackOf == me.results[i].num
  }

  lemma SameResidue(a: int, b: int)
    requires 0 <= a <= b && b - a < 0x100 && a % 0x100 == b % 0x100
    ensures a == b
  {}

  lemma ReceivedAckIsExact(s: State)
    requires Inv(s) && Enabled(s, Receive) && AckedExactly(s.me)
    requires s.inn[0].Ack? ==> |s.me.history| - 1 - s.inn[0].num < 0x100
    ensures AckedExactly(Do(s, Receive).me)
  {
    hide ChannelInv, ReceiverInv, PhaseInv, AckStateInv, ResultInv, Encode, Received, Receivable;
    var w := s.inn[0];
    if w.Ack? {
      assert ControlWire(s.me, s.peer.accepted, w);
      ReceivedAck(s.me.link, w.num % 0x100);
      if w.num % 0x100 == CurrentSequence(s.me.link) { SameResidue(w.num, |s.me.history| - 1); }
    } else {
      AckedUnchanged(s);
    }
  }

  lemma AckedUnchanged(s: State)
    requires Inv(s) && Enabled(s, Receive) && !s.inn[0].Ack?
    ensures Received(s.me.link, s.inn[0].bytes).0.acked == s.me.link.acked
  {
    hide ChannelInv, ReceiverInv, PhaseInv, AckStateInv, ResultInv, Encode, Received, Receivable;
    var w := s.inn[0];
    if w.Nack? {
      assert ControlWire(s.me, s.peer.accepted, w);
      var q: byte :| w.bytes == Encode(NackPacket(q));
      ReceivedNack(s.me.link, q);
    } else {
      HeadIsNext(s);
      assert OnWire(s.peer, w) by { HeadOnWire(s); }
      ReceivedData(s.me.link, s.peer.history[w.num], w.num);
    }
  }

  lemma HeadOnWire(s: State)
    requires Inv(s) && s.inn != []
    ensures OnWire(s.peer, s.inn[0])
  {
    hide ResultInv, ControlWire, Encode, PhaseInv, AckStateInv, OnWire;
  }

  lemma ActionIsExact(s: State, a: Action)
    requires Inv(s) && Enabled(s, a) && AckedExactly(s.me)
    requires a.Receive? && s.inn[0].Ack? ==> |s.me.history| - 1 - s.inn[0].num < 0x100
    ensures AckedExactly(Do(s, a).me)
  {
    hide Dir, Encode, Handle, DoReceive;
    if a.Receive? {
      ReceivedAckIsExact(s);
    } else if a.Noise? {
      NackEffects(s.me.link, a.seen);
    }
  }

  lemma {:induction false} AlwaysExact(states: seq<State>, run: seq<Step>, k: nat)
    requires IsRun(states, run) && states[0] == START && AcksInWindow(states, run) && k < |states|
    ensures AckedExactly(states[k].me)
    decreases k
  {
    hide Inv, AckedExactly, Do, Enabled;
    if k == 0 {
      ExactAtStart();
    } else {
      var s, t := states[k - 1], run[k - 1];
      AlwaysExact(states, run, k - 1);
      InvAlways(states, run, k - 1);
      assert StepAt(states, run, k - 1) && AckInWindow(states, run, k - 1);
      if t.mine {
        if t.action.Receive? { ReceiveNeedsFrame(s); }
        ActionIsExact(s, t.action);
      } else {
        PeerLeavesMe(s, t.action);
      }
    }
  }

  lemma ExactAtStart()
    ensures AckedExactly(START.me)
  {}

  lemma ReceiveNeedsFrame(s: State)
    requires Enabled(s, Receive)
    ensures s.inn != []
  {}

  lemma PeerLeavesMe(s: State, a: Action)
    requires Enabled(Swap(s), a)
    ensures Apply(s, Step(false, a)).me == s.me
  {
    hide Handle, Received, Encode;
  }

  /** The peer's application has been given send number `num` exactly once, with its contents. */
  predicate GivenOnce(s: State, num: nat, cmd: u16, payload: seq<byte>) {
    exists i :: 0 <= i < |s.peer.delivered| && i < |s.peer.given|
      && s.peer.delivered[i] == num && s.peer.given[i] == (cmd, payload)
      && forall j :: 0 <= j < |s.peer.delivered| && s.peer.delivered[j] == num ==> j == i
  }

  /**
    One send, whatever happened to others: if the acknowledgement it succeeded on is less than 256
    sends old, its frame reached the peer, and it was given to the application, exactly once, if and
    only if its 8-bit number differs from that of the frame that reached the peer before it.
   */
  lemma SuccessDeliversExactly(states: seq<State>, run: seq<Step>, k: nat, r: nat)
    requires IsRun(states, run) && states[0] == START && k < |states| && r < |states[k].me.results|
    requires var result := states[k].me.results[r];
      result.reliable && result.ret == OK && result.num - result.ackOf < 0x100
    ensures var me, peer, num := states[k].me, states[k].peer, states[k].me.results[r].num;
      && num < |me.history| && |me.writes| == |me.history| && 1 <= me.writes[num] <= 6
      && exists i :: 0 <= i < |peer.accepted| && peer.accepted[i] == num
           && (num in peer.delivered <==> FirstOrDifferent(peer.accepted, i))
           && (num in peer.delivered ==> GivenOnce(states[k], num, me.history[num].cmd, me.history[num].payload))
  {
    hide IsRun, Inv, FirstOrDifferent;
    InvAlways(states, run, k);
    var s := states[k];
    var result := s.me.results[r];
    var num := result.num;
    SuccessMeansAcknowledged(states, run, k, r);
    SameResidue(result.ackOf, num);
    HistoryAndWrites(s);
    var i :| 0 <= i < |s.peer.accepted| && s.peer.accepted[i] == num;
    DeliveredExactly(states, run, k, i);
    AtMostOnceInOrder(states, run, k);
    if num in s.peer.delivered {
      var j :| 0 <= j < |s.peer.delivered| && s.peer.delivered[j] == num;
      assert s.peer.given[j] == (s.me.history[num].cmd, s.me.history[num].payload);
    }
  }

  lemma HistoryAndWrites(s: State)
    requires Inv(s)
    ensures |s.me.writes| == |s.me.history|
  {
    hide ChannelInv, ReceiverInv, ControlWire, AckStateInv, PhaseInv, ResultInv;
  }

  /**
    Reliable delivery. On every run on which the 8-bit numbers are unambiguous, a reliable send
    that returned 0 has been given to the peer's application exactly once, with its own
    contents, after at least one and at most six writes of the same frame.
   */
  lemma ReliableDelivery(states: seq<State>, run: seq<Step>, k: nat, r: nat)
    requires IsRun(states, run) && states[0] == START && k < |states|
    requires AcksInWindow(states, run) && LossesInWindow(states[k].peer.accepted)
    requires r < |states[k].me.results|
    requires states[k].me.results[r].reliable && states[k].me.results[r].ret == OK
    ensures var me, num := states[k].me, states[k].me.results[r].num;
      && num < |me.history| && |me.writes| == |me.history| && 1 <= me.writes[num] <= 6
      && GivenOnce(states[k], num, me.history[num].cmd, me.history[num].payload)
  {
    hide IsRun, Inv, AcksInWindow, FirstOrDifferent, GivenOnce;
    InvAlways(states, run, k);
    AlwaysExact(states, run, k);
    SuccessDeliversExactly(states, run, k, r);
    var s := states[k];
    var i :| 0 <= i < |s.peer.accepted| && s.peer.accepted[i] == s.me.results[r].num
      && (s.me.results[r].num in s.peer.delivered <==> FirstOrDifferent(s.peer.accepted, i));
    NoRepeatInWindow(s, i);
  }

  lemma NoRepeatInWindow(s: State, i: nat)
    requires Inv(s) && LossesInWindow(s.peer.accepted) && i < |s.peer.accepted|
    ensures FirstOrDifferent(s.peer.accepted, i)
  {
    hide Inv;
    DeliveredIsFresh(s);
    var a := s.peer.accepted;
    if i > 0 && a[i] % 0x100 == a[i - 1] % 0x100 {
      SameResidue(a[i - 1], a[i]);
      assert false;
    }
  }

  /** Without any assumption on windows: a success means some send with the same 8-bit number was acknowledged. */
  lemma SuccessMeansAcknowledged(states: seq<State>, run: seq<Step>, k: nat, r: nat)
    requires IsRun(states, run) && states[0] == START && k < |states| && r < |states[k].me.results|
    ensures var me, result := states[k].me, states[k].me.results[r];
      && result.num < |me.writes| && 1 <= me.writes[result.num] <= 6
      && (result.reliable && result.ret == OK ==>
           0 <= result.ackOf <= result.num && result.ackOf % 0x100 == result.num % 0x100
           && result.ackOf in states[k].peer.accepted)
      && (result.ret != OK ==> result.ret == PAYLOAD_ACK_TIMEOUT && me.writes[result.num] == 6)
  {
    hide IsRun, Inv;
    InvAlways(states, run, k);
    ResultMeans(states[k], r);
  }

  lemma ResultMeans(s: State, r: nat)
    requires Inv(s) && r < |s.me.results|
    ensures ResultInv(s.me, s.peer.accepted, s.me.results[r])
  {
    hide ChannelInv, ControlWire, AckStateInv, ReceiverInv, SenderInv;
  }

  /** Every write of a send puts the same bytes on the wire. */
  lemma WritesAreIdentical(states: seq<State>, run: seq<Step>, k: nat, i: nat)
    requires IsRun(states, run) && states[0] == START && k < |states|
    requires i < |states[k].out| && states[k].out[i].Data?
    ensures var me, w := states[k].me, states[k].out[i];
      w.num < |me.history| && |me.history[w.num].payload| < 0x10000 && w.bytes == Encode(me.history[w.num])
  {
    hide IsRun, Inv, Encode;
    InvAlways(states, run, k);
    InChannel(states[k], i);
  }

  lemma InChannel(s: State, i: nat)
    requires Inv(s) && i < |s.out| && s.out[i].Data?
    ensures var w := s.out[i];
      w.num < |s.me.history| && |s.me.history[w.num].payload| < 0x10000 && w.bytes == Encode(s.me.history[w.num])
  {
    hide ControlWire, AckStateInv, ReceiverInv, ResultInv, Encode, PhaseInv;
    assert OnWire(s.me, s.out[i]);
  }

  // ---------------------------------------------------------------------------------------
  // Genuine acknowledgements
  // ---------------------------------------------------------------------------------------

  /** The stored number happens to equal the current one without standing for it. */
  predicate Masked(me: Endpoint) {
    match me.origin
    case AtInit => (|me.history| - 1) % 0x100 == 127
    case AfterUdp => false
    case OfSend(n) => n % 0x100 == (|me.history| - 1) % 0x100
  }

  /**
    An acknowledgement of the current reliable send, arriving while the flag is still clear, sets
    it exactly when the stored "current acked" number does not mask it.
   */
  lemma GenuineAck(states: seq<State>, run: seq<Step>, k: nat)
    requires IsRun(states, run) && states[0] == START && k < |states|
    requires var s := states[k];
      Enabled(s, Receive) && Active(s.me) && !s.me.link.acked && s.inn[0].Ack? && s.inn[0].num == |s.me.history| - 1
    ensures Do(states[k], Receive).me.link.acked <==> !Masked(states[k].me)
  {
    hide IsRun, Inv, Enabled, Do, Masked, Active;
    InvAlways(states, run, k);
    ReceiveNeedsFrame(states[k]);
    GenuineAckIn(states[k]);
  }

  lemma GenuineAckIn(s: State)
    requires Inv(s) && Enabled(s, Receive)
    requires Active(s.me) && !s.me.link.acked && s.inn != [] && s.inn[0].Ack? && s.inn[0].num == |s.me.history| - 1
    ensures Do(s, Receive).me.link.acked <==> !Masked(s.me)
  {
    hide ChannelInv, ReceiverInv, PhaseInv, ResultInv, Encode, Received, Receivable;
    assert ControlWire(s.me, s.peer.accepted, s.inn[0]);
    ReceivedAck(s.me.link, s.inn[0].num % 0x100);
  }

  /** Nothing masks it among the first 127 sends, after a udp frame, or within 255 sends of the last accepted one. */
  lemma GenuineAckNotMasked(states: seq<State>, run: seq<Step>, k: nat)
    requires IsRun(states, run) && states[0] == START && k < |states|
    requires var me := states[k].me; var num := |me.history| - 1;
      && Active(me) && !me.link.acked
      && match me.origin case AtInit => num < 127 case AfterUdp => true case OfSend(n) => num - n < 0x100
    ensures !Masked(states[k].me)
  {
    hide Inv, IsRun;
    InvAlways(states, run, k);
    NotMasked(states[k]);
  }

  lemma NotMasked(s: State)
    requires Inv(s) && Active(s.me) && !s.me.link.acked
    requires var num := |s.me.history| - 1;
      match s.me.origin case AtInit => num < 127 case AfterUdp => true case OfSend(n) => num - n < 0x100
    ensures !Masked(s.me)
  {
    hide Inv;
    OriginWasSent(s);
    if s.me.origin.OfSend? {
      var n, num := s.me.origin.num, |s.me.history| - 1;
      if n % 0x100 == num % 0x100 { SameResidue(n, num); }
    }
  }

  lemma OriginWasSent(s: State)
    requires Inv(s)
    ensures Active(s.me) ==> |s.me.history| >= 1
    ensures s.me.origin.OfSend? ==>
      s.me.origin.num < |s.me.history| && (s.me.origin.num == |s.me.history| - 1 ==> s.me.link.acked)
  {
    hide ChannelInv, ResultInv, ControlWire;
    if s.me.origin.OfSend? { AcceptedWereSent(s, s.me.origin.num); }
  }

  lemma AcceptedWereSent(s: State, n: nat)
    requires Inv(s) && n in s.peer.accepted
    ensures n < |s.me.history|
  {
    hide ChannelInv, PhaseInv, ResultInv, ControlWire, AckStateInv;
  }

  // ---------------------------------------------------------------------------------------
  // When a send succeeds
  // ---------------------------------------------------------------------------------------

  /** In step i an acknowledgement with the number of send `num`, under way then, is taken and not ignored. */
  predicate AckTakenAt(states: seq<State>, run: seq<Step>, i: nat, num: int) {
    && i < |run| && i < |states| && run[i].mine && run[i].action.Receive?
    && Active(states[i].me) && |states[i].me.history| - 1 == num && NextIsAck(states[i])
  }

  /** Next in the channel is an acknowledgement with the current number, and the stored number is another. */
  predicate NextIsAck(s: State) {
    var num := |s.me.history| - 1;
    s.inn != [] && s.inn[0].Ack? && s.inn[0].num % 0x100 == num % 0x100 && s.me.link.currentAcked != num % 0x100
  }

  ghost predicate AckTaken(states: seq<State>, run: seq<Step>, k: nat, num: int) {
    exists i: nat :: i < k && AckTakenAt(states, run, i, num)
  }

  /** The flag, and every result, tell whether such an acknowledgement has been taken. */
  ghost predicate Tells(states: seq<State>, run: seq<Step>, k: nat)
    requires k < |states|
  {
    var me := states[k].me;
    && (Active(me) ==> (me.link.acked <==> AckTaken(states, run, k, |me.history| - 1)))
    && (me.phase.Prepared? ==> !AckTaken(states, run, k, |me.history| - 1))
    && (forall num :: num >= |me.history| ==> !AckTaken(states, run, k, num))
    && forall r :: 0 <= r < |me.results| && me.results[r].reliable ==>
         (me.results[r].ret == OK <==> AckTaken(states, run, k, me.results[r].num))
  }

  lemma {:induction false} OneMoreStep(states: seq<State>, run: seq<Step>, k: nat, num: int)
    ensures AckTaken(states, run, k + 1, num) <==> AckTaken(states, run, k, num) || AckTakenAt(states, run, k, num)
  {
    hide AckTakenAt;
    if AckTaken(states, run, k + 1, num) {
      var i: nat :| i < k + 1 && AckTakenAt(states, run, i, num);
      assert i < k || i == k;
    }
  }

  lemma {:induction false} AckInChannel(s: State)
    requires Inv(s) && s.inn != [] && s.inn[0].Ack?
    ensures s.inn[0].bytes == Encode(AckPacket(s.inn[0].num % 0x100))
  {
    hide SenderInv, ChannelInv, ReceiverInv, PhaseInv, AckStateInv, ResultInv, Encode;
    assert ControlWire(s.me, s.peer.accepted, s.inn[0]);
  }

  lemma {:induction false} CurrentIsLast(s: State)
    requires Inv(s) && Active(s.me)
    ensures CurrentSequence(s.me.link) == (|s.me.history| - 1) % 0x100
  {
    hide ChannelInv, ReceiverInv, AckStateInv, ResultInv, ControlWire, Encode;
  }

  lemma {:induction false} FlagAfterAck(s: State)
    requires Inv(s) && s.inn != [] && s.inn[0].Ack? && Active(s.me) && Receivable(s.inn[0].bytes)
    ensures Received(s.me.link, s.inn[0].bytes).0.acked <==> s.me.link.acked || NextIsAck(s)
  {
    hide Inv, Active, Encode, Received, Receivable, CurrentSequence;
    AckInChannel(s);
    CurrentIsLast(s);
    ReceivedAck(s.me.link, s.inn[0].num % 0x100);
  }

  /** What receiving does to the flag and to the results. */
  lemma {:induction false} FlagAfter(s: State)
    requires Inv(s) && Enabled(s, Receive)
    ensures var me, me' := s.me, Do(s, Receive).me;
      && (Active(me) ==> (me'.link.acked <==> me.link.acked || NextIsAck(s)))
      && me'.phase == me.phase && me'.history == me.history && me'.results == me.results
  {
    hide Inv, Encode, Received, Receivable, Active;
    ReceiveNeedsFrame(s);
    if s.inn[0].Ack? {
      if Active(s.me) { FlagAfterAck(s); }
    } else {
      AckedUnchanged(s);
    }
  }

  /** A send that has ended is the current one only between sends. */
  lemma {:induction false} EndedSends(s: State)
    requires Inv(s)
    ensures forall r :: 0 <= r < |s.me.results| ==>
      s.me.results[r].num <= |s.me.history| - 1 && (s.me.results[r].num == |s.me.history| - 1 ==> s.me.phase.Idle?)
  {
    hide ChannelInv, ReceiverInv, ControlWire, AckStateInv, PhaseInv;
    forall r | 0 <= r < |s.me.results| ensures ResultInv(s.me, s.peer.accepted, s.me.results[r]) {}
  }

  lemma {:induction false} TellsStill(states: seq<State>, run: seq<Step>, k: nat)
    requires k + 1 < |states| && k < |run| && Tells(states, run, k)
    requires !run[k].mine && states[k + 1].me == states[k].me
    ensures Tells(states, run, k + 1)
  {
    hide AckTaken;
    var k' := k + 1;
    forall num: int ensures AckTaken(states, run, k', num) <==> AckTaken(states, run, k, num) {
      OneMoreStep(states, run, k, num);
    }
    assert Tells(states, run, k');
  }

  lemma {:induction false} TellsNext(states: seq<State>, run: seq<Step>, k: nat)
    requires k + 1 < |states| && k < |run| && Inv(states[k]) && StepAt(states, run, k) && Tells(states, run, k)
    ensures Tells(states, run, k + 1)
  {
    hide Inv, AckTaken, Tells, Do, Enabled;
    var s, t := states[k], run[k];
    if !t.mine {
      PeerLeavesMe(s, t.action);
      assert t == Step(false, t.action);
      TellsStill(states, run, k);
    } else {
      assert states[k + 1] == Do(s, t.action);
      if t.action.Receive? { TellsAfterReceive(states, run, k); } else { TellsAfterOwn(states, run, k); }
    }
  }

  lemma {:induction false} TellsAfterReceive(states: seq<State>, run: seq<Step>, k: nat)
    requires k + 1 < |states| && k < |run| && Inv(states[k]) && Tells(states, run, k)
    requires run[k] == Step(true, Receive) && Enabled(states[k], Receive) && states[k + 1] == Do(states[k], Receive)
    ensures Tells(states, run, k + 1)
  {
    hide Inv, AckTaken, Do, Enabled, NextIsAck;
    var s, k' := states[k], k + 1;
    EndedSends(s);
    FlagAfter(s);
    ReceiveNeedsFrame(s);
    AckIsThere(s);
    forall num: int ensures
      AckTaken(states, run, k', num) <==>
        AckTaken(states, run, k, num) || (Active(s.me) && |s.me.history| - 1 == num && NextIsAck(s))
    {
      OneMoreStep(states, run, k, num);
    }
    assert Tells(states, run, k');
  }

  lemma {:induction false} AckIsThere(s: State)
    ensures NextIsAck(s) ==> s.inn != [] && s.inn[0].Ack?
  {}

  lemma {:induction false} TellsAfterOwn(states: seq<State>, run: seq<Step>, k: nat)
    requires k + 1 < |states| && k < |run| && Inv(states[k]) && Tells(states, run, k)
    requires run[k].mine && !run[k].action.Receive? && Enabled(states[k], run[k].action)
    requires states[k + 1] == Do(states[k], run[k].action)
    ensures Tells(states, run, k + 1)
  {
    hide Inv, AckTaken, Handle, Encode;
    var s, a, k' := states[k], run[k].action, k + 1;
    EndedSends(s);
    forall num: int ensures AckTaken(states, run, k', num) <==> AckTaken(states, run, k, num) {
      OneMoreStep(states, run, k, num);
    }
    if a.Noise? { NackEffects(s.me.link, a.seen); }
    assert Tells(states, run, k');
  }

  lemma {:induction false} TellsAlways(states: seq<State>, run: seq<Step>, k: nat)
    requires IsRun(states, run) && states[0] == START && k < |states|
    ensures Tells(states, run, k)
    decreases k
  {
    hide Inv, Tells;
    if k == 0 {
      TellsAtStart(states, run);
    } else {
      TellsAlways(states, run, k - 1);
      InvAlways(states, run, k - 1);
      assert StepAt(states, run, k - 1);
      TellsNext(states, run, k - 1);
    }
  }

  lemma {:induction false} TellsAtStart(states: seq<State>, run: seq<Step>)
    requires states != [] && states[0] == START
    ensures Tells(states, run, 0)
  {}

  /**
    A reliable send returns 0 if and only if, between its first write and its last wake, an
    acknowledgement with its 8-bit number is taken off the channel while the stored number differs.
   */
  lemma SucceedsExactly(states: seq<State>, run: seq<Step>, k: nat, r: nat)
    requires IsRun(states, run) && states[0] == START && k < |states|
    requires r < |states[k].me.results| && states[k].me.results[r].reliable
    ensures states[k].me.results[r].ret == OK <==> AckTaken(states, run, k, states[k].me.results[r].num)
  {
    hide IsRun, AckTaken;
    TellsAlways(states, run, k);
  }

  // ---------------------------------------------------------------------------------------
  // The other direction
  // ---------------------------------------------------------------------------------------

  function Mirror(run: seq<Step>): seq<Step> {
    seq(|run|, i requires 0 <= i < |run| => Step(!run[i].mine, run[i].action))
  }

  function SwapAll(states: seq<State>): seq<State> {
    seq(|states|, i requires 0 <= i < |states| => Swap(states[i]))
  }

  /** Exchanging the two sides turns runs into runs, so all of the above holds both ways. */
  lemma MirrorRun(states: seq<State>, run: seq<Step>)
    requires IsRun(states, run)
    ensures IsRun(SwapAll(states), Mirror(run))
    ensures states[0] == START ==> SwapAll(states)[0] == START
  {
    hide Do, Enabled;
    forall i: nat ensures StepAt(SwapAll(states), Mirror(run), i) {
      assert StepAt(states, run, i);
      if i < |run| { assert Swap(Swap(states[i])) == states[i]; }
    }
  }
}
