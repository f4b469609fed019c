/**
  Runs on which the 8-bit numbers are ambiguous, or on which a genuine acknowledgement is
  masked: they show that the assumptions of reliable delivery cannot be dropped.
 */
module ProtocolLimits {
  import opened Bits
  import opened Frames
  import opened Receiver
  import opened Link
  import opened Protocol
  import opened ProtocolInvariant

  const CMD: u16 := 1

  function Ping(num: nat, reliable: bool): Packet { DataPacket(num % 0x100, reliable, CMD, []) }

  /** Between sends, with nothing on its way to the peer. */
  predicate Ready(s: State) {
    && s.me.phase.Idle? && s.out == []
    && |s.me.writes| == |s.me.history| && s.me.link.sequence == |s.me.history| % 0x100
  }

  /** After one write of a new frame. */
  function AfterSending(s: State, reliable: bool): State {
    var num := |s.me.history|;
    var frame := Encode(Ping(num, reliable));
    s.(out := [Data(num, frame)],
       me := s.me.(
         link := s.me.link.(sequence := (num + 1) % 0x100, acked := if reliable then false else s.me.link.acked),
         phase := if reliable then Waiting(frame, TRY_RESEND_TIMES) else Idle,
         history := s.me.history + [Ping(num, reliable)],
         writes := s.me.writes + [1],
         results := if reliable then s.me.results else s.me.results + [Result(num, false, OK, -1)]))
  }

  lemma Begins(s: State)
    ensures Trace([s], []).Valid()
  {}

  lemma Then(tr: Trace, t: Step) returns (longer: Trace)
    requires tr.Valid() && CanStep(tr.Last(), t)
    ensures longer.Valid() && longer.First() == tr.First() && longer.Last() == Apply(tr.Last(), t)
    ensures longer.states == tr.states + [longer.Last()] && longer.run == tr.run + [t]
  {
    hide Apply, CanStep;
    longer := Trace(tr.states + [Apply(tr.Last(), t)], tr.run + [t]);
    forall i: nat ensures StepAt(longer.states, longer.run, i) {
      assert StepAt(tr.states, tr.run, i);
    }
  }

  lemma ThenSend(tr: Trace, reliable: bool) returns (longer: Trace)
    requires tr.Valid() && Ready(tr.Last())
    ensures longer.Valid() && longer.First() == tr.First() && longer.Last() == AfterSending(tr.Last(), reliable)
  {
    hide Encode, IsRun;
    var s := tr.Last();
    longer := Then(tr, Step(true, Assemble(CMD, [], reliable)));
    longer := Then(longer, Step(true, Begin));
    longer := Then(longer, Step(true, Write));
    var t := longer.Last();
    assert t.me.writes == s.me.writes + [1];
    assert t.out == [Data(|s.me.history|, Encode(Ping(|s.me.history|, reliable)))];
  }

  /** What a stretch of lost sends leaves alone. */
  predicate OnlyMoreSends(s: State, t: State, k: nat) {
    && Ready(t) && |t.me.history| == |s.me.history| + k
    && t.peer == s.peer && t.inn == s.inn
    && t.me.origin == s.me.origin && t.me.link.currentAcked == s.me.link.currentAcked
    && t.me.delivered == s.me.delivered && t.me.ackOf == s.me.ackOf
  }

  lemma {:induction false} LoseMany(tr: Trace, k: nat) returns (longer: Trace)
    requires tr.Valid() && Ready(tr.Last())
    ensures longer.Valid() && longer.First() == tr.First() && OnlyMoreSends(tr.Last(), longer.Last(), k)
    decreases k
  {
    hide IsRun, Encode;
    longer := tr;
    if k > 0 {
      longer := ThenSend(tr, false);
      var sent := longer.Last();
      longer := Then(longer, Step(false, Lose(0)));
      assert sent.out[..0] + sent.out[1..] == [];
      assert longer.Last() == sent.(out := []);
      longer := LoseMany(longer, k - 1);
    }
  }

  /** A wait that nothing ends in time, with every further copy lost. */
  lemma {:induction false} TimeOut(tr: Trace) returns (longer: Trace)
    requires tr.Valid()
    requires var t := tr.Last();
      && t.me.phase.Waiting? && !t.me.link.acked && t.out == []
      && |t.me.writes| == |t.me.history| > 0 && t.me.link.sequence == |t.me.history| % 0x100
    ensures longer.Valid() && longer.First() == tr.First() && OnlyMoreSends(tr.Last(), longer.Last(), 0)
    ensures longer.Last().me.results
         == tr.Last().me.results + [Result(|tr.Last().me.history| - 1, true, PAYLOAD_ACK_TIMEOUT, tr.Last().me.ackOf)]
    decreases tr.Last().me.phase.resends
  {
    hide IsRun, Encode;
    var t := tr.Last();
    longer := Then(tr, Step(true, Wake));
    if t.me.phase.resends > 0 {
      longer := Then(longer, Step(true, Write));
      var written := longer.Last();
      longer := Then(longer, Step(false, Lose(0)));
      assert written.out[..0] + written.out[1..] == [];
      assert longer.Last().out == [];
      longer := TimeOut(longer);
    }
  }

  /** The peer takes the frame just sent. */
  lemma PeerTakes(s: State, reliable: bool)
    requires s.me.history != [] && s.out != []
    requires s.out[0] == Data(|s.me.history| - 1, Encode(Ping(|s.me.history| - 1, reliable)))
    ensures CanStep(s, Step(false, Receive))
    ensures var t := Apply(s, Step(false, Receive)); var num := |s.me.history| - 1;
      && t.me == s.me && t.out == s.out[1..]
      && t.inn == s.inn + (if reliable then [Ack(num, Encode(AckPacket(num % 0x100)))] else [])
      && t.peer.accepted == Note(s.peer.accepted, num)
      && t.peer.delivered == s.peer.delivered + (if s.peer.link.lastReceived == num % 0x100 then [] else [num])
      && t.peer.link.lastReceived == num % 0x100
  {
    hide Encode, Received, Receivable, Delivered;
    var num := |s.me.history| - 1;
    var p := Ping(num, reliable);
    ControlBits(reliable, false, false);
    ReceivedData(s.peer.link, p, num);
    DataEffects(reliable, Encode(AckPacket(num % 0x100)), s.peer.link.lastReceived == num % 0x100, p.cmd, p.payload);
  }

  /** This side takes an acknowledgement carrying its current number. */
  lemma ITakeAck(s: State, num: nat)
    requires s.inn != [] && s.inn[0] == Ack(num, Encode(AckPacket(num % 0x100)))
    requires num % 0x100 == CurrentSequence(s.me.link)
    ensures CanStep(s, Step(true, Receive))
    ensures var t := Apply(s, Step(true, Receive)); var masked := s.me.link.currentAcked == num % 0x100;
      && t.peer == s.peer && t.out == s.out && t.inn == s.inn[1..]
      && t.me.link.acked == (s.me.link.acked || !masked)
      && t.me.phase == s.me.phase && t.me.history == s.me.history && t.me.writes == s.me.writes
      && t.me.results == s.me.results && t.me.link.sequence == s.me.link.sequence
      && t.me.ackOf == (if masked then s.me.ackOf else num)
      && t.me.delivered == s.me.delivered
  {
    hide Encode, Received, Receivable;
    ReceivedAck(s.me.link, num % 0x100);
    NoOutput();
  }

  lemma SentFacts(s: State, reliable: bool)
    requires Ready(s)
    ensures var t := AfterSending(s, reliable); var num := |s.me.history|;
      && t.out == [Data(num, Encode(Ping(num, reliable)))] && t.peer == s.peer && t.inn == s.inn
      && |t.me.history| == |t.me.writes| == num + 1 && t.me.link.sequence == (num + 1) % 0x100
      && t.me.link.currentAcked == s.me.link.currentAcked && t.me.origin == s.me.origin && t.me.ackOf == s.me.ackOf
      && (reliable ==> !t.me.link.acked && t.me.phase.Waiting?)
      && (!reliable ==> t.me.phase.Idle?)
  {
    hide Encode;
  }

  /** One send that reaches the peer; the acknowledgement of a reliable one is left in the channel. */
  lemma Reach(tr: Trace, reliable: bool) returns (longer: Trace)
    requires tr.Valid() && Ready(tr.Last())
    ensures longer.Valid() && longer.First() == tr.First()
    ensures var before, t := tr.Last(), longer.Last(); var num := |before.me.history|;
      && t.out == [] && |t.me.history| == |t.me.writes| == num + 1 && t.me.link.sequence == (num + 1) % 0x100
      && t.inn == before.inn + (if reliable then [Ack(num, Encode(AckPacket(num % 0x100)))] else [])
      && t.peer.accepted == Note(before.peer.accepted, num)
      && t.peer.delivered
           == before.peer.delivered + (if before.peer.link.lastReceived == num % 0x100 then [] else [num])
      && t.peer.link.lastReceived == num % 0x100
      && t.me.link.currentAcked == before.me.link.currentAcked && t.me.ackOf == before.me.ackOf
      && (reliable ==> !t.me.link.acked && t.me.phase.Waiting?)
      && (!reliable ==> t.me.phase.Idle?)
  {
    hide IsRun, Encode, AfterSending, Note, Apply, CanStep;
    var before := tr.Last();
    longer := ThenSend(tr, reliable);
    SentFacts(before, reliable);
    PeerTakes(AfterSending(before, reliable), reliable);
    longer := Then(longer, Step(false, Receive));
  }

  lemma ThenWake(tr: Trace) returns (longer: Trace)
    requires tr.Valid()
    requires tr.Last().me.phase.Waiting? && tr.Last().me.link.acked && tr.Last().me.history != []
    ensures longer.Valid() && longer.First() == tr.First() && longer.Last().peer == tr.Last().peer
    ensures longer.Last().me.results
         == tr.Last().me.results + [Result(|tr.Last().me.history| - 1, true, OK, tr.Last().me.ackOf)]
  {
    hide IsRun;
    longer := Then(tr, Step(true, Wake));
  }

  /** How the last send recorded so far ended. */
  predicate LastResult(s: State, r: Result) { s.me.results != [] && s.me.results[|s.me.results| - 1] == r }

  /**
    The stored number starts at 127, not at "none": after 127 udp sends the first reliable one has
    number 127, its acknowledgement arrives and is ignored, and the send fails although delivered.
   */
  lemma GenuineAckIgnored() returns (tr: Trace)
    ensures tr.Valid() && tr.First() == START
    ensures tr.Last().peer.delivered == [127] && LastResult(tr.Last(), Result(127, true, PAYLOAD_ACK_TIMEOUT, -1))
  {
    hide IsRun, Encode, AfterSending, Note, Apply, CanStep;
    Begins(START);
    tr := LoseMany(Trace([START], []), 127);
    tr := Reach(tr, true);
    ITakeAck(tr.Last(), 127);
    tr := Then(tr, Step(true, Receive));
    tr := TimeOut(tr);
  }

  /**
    After exactly 255 sends in a row are lost, the next one repeats the 8-bit number the peer saw
    last: it is acknowledged, the send succeeds, and the application is not given the frame.
   */
  lemma SuccessWithoutDelivery() returns (tr: Trace)
    ensures tr.Valid() && tr.First() == START
    ensures tr.Last().peer.accepted == [0, 256] && tr.Last().peer.delivered == [0]
    ensures LastResult(tr.Last(), Result(256, true, OK, 256))
  {
    hide IsRun, Encode, AfterSending, Apply, CanStep;
    Begins(START);
    tr := Reach(Trace([START], []), false);
    assert tr.Last().peer.accepted == [0];
    tr := LoseMany(tr, 255);
    tr := Reach(tr, true);
    assert tr.Last().peer.accepted == [0, 256];
    ITakeAck(tr.Last(), 256);
    tr := Then(tr, Step(true, Receive));
    tr := ThenWake(tr);
  }

  /**
    An acknowledgement delayed for 256 sends is taken for the current one: a send succeeds although
    its frame never reached the peer.
   */
  lemma SuccessForAnother() returns (tr: Trace)
    ensures tr.Valid() && tr.First() == START
    ensures tr.Last().peer.accepted == [0] && LastResult(tr.Last(), Result(256, true, OK, 0))
  {
    hide IsRun, Encode, AfterSending, Apply, CanStep;
    Begins(START);
    tr := Reach(Trace([START], []), true);
    assert tr.Last().peer.accepted == [0];
    tr := TimeOut(tr);
    tr := LoseMany(tr, 255);
    var s := tr.Last();
    tr := ThenSend(tr, true);
    SentFacts(s, true);
    assert tr.Last().inn == [Ack(0, Encode(AckPacket(0)))];
    ITakeAck(tr.Last(), 0);
    tr := Then(tr, Step(true, Receive));
    tr := ThenWake(tr);
  }
}
