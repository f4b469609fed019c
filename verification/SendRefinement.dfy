/**
  The object's send is a run of the step system. During its waits the other side moves, the channel
  loses frames, and the receive thread takes in bytes of the channel in portions of any size, which
  need not end where frames end. Whatever of this happens, `AssembleAndSend` leaves the link state,
  the result and the number of writes that a run of the steps leaves.
 */
module SendRefinement {
  import opened Bits
  import opened Frames
  import opened Receiver
  import opened Link
  import opened Protocol
  import opened ProtocolInvariant
  import C = Communication
  import Limits = ProtocolLimits
  import R = ReliableDelivery

  // ---------------------------------------------------------------------------------------
  // What can happen during a send
  // ---------------------------------------------------------------------------------------

  function JoinWire(ws: seq<Wire>): seq<byte> {
    if ws == [] then [] else ws[0].bytes + JoinWire(ws[1..])
  }

  predicate WholeFrames(ws: seq<Wire>) { forall w <- ws :: Delimited(w.bytes) }

  /** A step that this side's code has no part in. */
  predicate Outside(t: Step) { !t.mine || t.action.Lose? }

  /** Steps from outside, and then some bytes taken in: the next ones of the channel, or noise. */
  datatype Moment =
    | Clean(outside: Trace, bytes: seq<byte>)
    | Noisy(outside: Trace, bytes: seq<byte>)

  /** Every frame that the bytes `b` complete is received; what is left begins the next one. */
  function TakeIn(s: State, b: seq<byte>): (State, seq<byte>)
    decreases |s.inn|
  {
    if Enabled(s, Receive) && |b| >= |s.inn[0].bytes| then TakeIn(Do(s, Receive), b[|s.inn[0].bytes|..]) else (s, b)
  }

  predicate AllDamaged(events: seq<Event>) { forall e <- events :: Damaged(e) }

  function HearAll(s: State, events: seq<Event>): State
    requires AllDamaged(events)
    decreases |events|
  {
    if events == [] then s
    else
      assert events[0] in events;
      HearAll(Do(s, Noise(events[0])), events[1..])
  }

  /**
    Bytes taken in are the next ones in the channel, or else noise: together with what was taken in
    of a frame before, they leave the machine idle and make nothing of it but damage.
   */
  ghost predicate CanTake(s: State, t: seq<byte>, m: Moment) {
    && m.outside.Valid() && m.outside.First() == s && (forall x <- m.outside.run :: Outside(x))
    && if m.Clean? then t + m.bytes <= JoinWire(m.outside.Last().inn)
       else Deframe(t + m.bytes).rest == [] && AllDamaged(Deframe(t + m.bytes).events)
  }

  ghost function AfterMoment(s: State, t: seq<byte>, m: Moment): (State, seq<byte>)
    requires CanTake(s, t, m)
  {
    if m.Clean? then TakeIn(m.outside.Last(), t + m.bytes)
    else (HearAll(m.outside.Last(), Deframe(t + m.bytes).events), [])
  }

  /** Moments one after the other, from a state in which `t` has been taken in of a frame. */
  ghost predicate CanPass(s: State, t: seq<byte>, span: seq<Moment>)
    decreases |span|
  {
    span == [] ||
    (CanTake(s, t, span[0]) && var (u, v) := AfterMoment(s, t, span[0]); CanPass(u, v, span[1..]))
  }

  ghost function AfterSpan(s: State, t: seq<byte>, span: seq<Moment>): (State, seq<byte>)
    requires CanPass(s, t, span)
    decreases |span|
  {
    if span == [] then (s, t)
    else
      var (u, v) := AfterMoment(s, t, span[0]);
      AfterSpan(u, v, span[1..])
  }

  /** What happens up to a write, and during the wait after it. */
  datatype Around = Around(before: seq<Moment>, during: seq<Moment>)

  /** What happens around the writes of a reliable send; those it does not come to may be anything. */
  ghost predicate CanWrite(s: State, t: seq<byte>, rounds: seq<Around>)
    decreases |rounds|
  {
    rounds == [] ||
    (CanPass(s, t, rounds[0].before) &&
     var (ready, mid) := AfterSpan(s, t, rounds[0].before);
     Enabled(ready, Write) && CanPass(Do(ready, Write), mid, rounds[0].during) &&
     var (u, v) := AfterSpan(Do(ready, Write), mid, rounds[0].during);
     u.me.link.acked || (Enabled(u, Wake) && CanWrite(Do(u, Wake), v, rounds[1..])))
  }

  function Bytes(span: seq<Moment>): seq<byte> {
    if span == [] then [] else span[0].bytes + Bytes(span[1..])
  }

  function Arrivals(rounds: seq<Around>): (arrivals: seq<C.Arrival>)
    ensures |arrivals| == |rounds|
  {
    if rounds == [] then []
    else [C.Arrival(Bytes(rounds[0].before), Bytes(rounds[0].during))] + Arrivals(rounds[1..])
  }

  /** The object and the endpoint agree, and the receive machine has taken in `t` of a frame. */
  ghost predicate Matches(comm: C.Comm, t: seq<byte>, me: Endpoint) {
    comm.link == me.link && Represents(comm.parser, t)
  }

  predicate OnlyReceived(me: Endpoint, me': Endpoint) {
    && me'.phase == me.phase && me'.history == me.history && me'.writes == me.writes && me'.results == me.results
  }

  // ---------------------------------------------------------------------------------------
  // Runs from the start
  // ---------------------------------------------------------------------------------------

  ghost predicate FromStart(tr: Trace) { tr.Valid() && tr.First() == START }

  /** In every reachable state the channels hold whole frames only. */
  lemma ChannelsHoldWholeFrames(states: seq<State>, run: seq<Step>, k: nat)
    requires IsRun(states, run) && states[0] == START && k < |states|
    ensures WholeFrames(states[k].inn)
  {
    hide IsRun, Inv, Delimited;
    InvAlways(states, run, k);
    var s := states[k];
    forall i | 0 <= i < |s.inn| ensures Delimited(s.inn[i].bytes) { WireIsWhole(s, i); }
  }

  lemma WireIsWhole(s: State, i: nat)
    requires Inv(s) && i < |s.inn|
    ensures Delimited(s.inn[i].bytes)
  {
    hide ReceiverInv, AckStateInv, ResultInv, PhaseInv, Encode, Delimited;
    var w := s.inn[i];
    match w {
      case Data(num, _) =>
        assert OnWire(s.peer, w) && IsSend(s.peer.history[num], num);
        EncodedLength(s.peer.history[num]);
      case Ack(num, _) =>
        assert ControlWire(s.me, s.peer.accepted, w);
        EncodedLength(AckPacket(num % 0x100));
      case Nack(b) =>
        assert ControlWire(s.me, s.peer.accepted, w);
        var q: byte :| b == Encode(NackPacket(q));
        EncodedLength(NackPacket(q));
    }
  }

  lemma LastIsReachable(tr: Trace)
    requires FromStart(tr)
    ensures tr.states != [] && Inv(tr.Last()) && WholeFrames(tr.Last().inn)
  {
    hide Inv, WholeFrames;
    assert |tr.states| == |tr.run| + 1;
    InvAlways(tr.states, tr.run, |tr.run|);
    ChannelsHoldWholeFrames(tr.states, tr.run, |tr.run|);
  }

  predicate Extends(longer: Trace, tr: Trace) { tr.states <= longer.states && tr.run <= longer.run }

  // ---------------------------------------------------------------------------------------
  // What a run does to the outside world
  // ---------------------------------------------------------------------------------------

  function BytesOf(ws: seq<Wire>): (frames: seq<seq<byte>>)
    ensures |frames| == |ws|
  {
    seq(|ws|, i requires 0 <= i < |ws| => ws[i].bytes)
  }

  /** The frames that a step of this side puts on its channel. */
  function Emits(s: State, t: Step, s': State): seq<seq<byte>> {
    if t.mine && |s.out| <= |s'.out| then BytesOf(s'.out[|s.out|..]) else []
  }

  /** The frames that this side puts on its channel from step i up to step j. */
  function Emitted(tr: Trace, i: nat, j: nat): seq<seq<byte>>
    requires i <= j <= |tr.run| && |tr.states| == |tr.run| + 1
    decreases j
  {
    if i == j then [] else Emitted(tr, i, j - 1) + Emits(tr.states[j - 1], tr.run[j - 1], tr.states[j])
  }

  /**
    The run goes on from `tr`, and these are the hook calls of it: what they write is what this side
    puts on its channel, in order, and what they notify is what the application is given, in order.
   */
  ghost predicate Does(tr: Trace, longer: Trace, effects: seq<Effect>) {
    && Extends(longer, tr) && |tr.states| == |tr.run| + 1 && |longer.states| == |longer.run| + 1
    && Emitted(longer, |tr.run|, |longer.run|) == WrittenIn(effects)
    && longer.Last().me.given == tr.Last().me.given + NotifiedIn(effects)
  }

  ghost predicate StepDoes(s: State, t: Step, effects: seq<Effect>)
    requires CanStep(s, t)
  {
    && Emits(s, t, Apply(s, t)) == WrittenIn(effects)
    && Apply(s, t).me.given == s.me.given + NotifiedIn(effects)
  }

  lemma {:induction false} WrittenAppend(a: seq<Effect>, b: seq<Effect>)
    ensures WrittenIn(a + b) == WrittenIn(a) + WrittenIn(b)
    decreases |a|
  {
    if a == [] {
      assert a + b == b;
    } else {
      var first := if a[0].Written? then [a[0].bytes] else [];
      assert (a + b)[0] == a[0] && (a + b)[1..] == a[1..] + b;
      WrittenAppend(a[1..], b);
      assert WrittenIn(a + b) == first + (WrittenIn(a[1..]) + WrittenIn(b));
    }
  }

  lemma {:induction false} NotifiedAppend(a: seq<Effect>, b: seq<Effect>)
    ensures NotifiedIn(a + b) == NotifiedIn(a) + NotifiedIn(b)
    decreases |a|
  {
    if a == [] {
      assert a + b == b;
    } else {
      var first := if a[0].Notified? then [(a[0].cmd, a[0].payload)] else [];
      assert (a + b)[0] == a[0] && (a + b)[1..] == a[1..] + b;
      NotifiedAppend(a[1..], b);
      assert NotifiedIn(a + b) == first + (NotifiedIn(a[1..]) + NotifiedIn(b));
    }
  }

  lemma {:induction false} EmittedBefore(tr: Trace, longer: Trace, i: nat, j: nat)
    requires Extends(longer, tr) && i <= j <= |tr.run|
    requires |tr.states| == |tr.run| + 1 && |longer.states| == |longer.run| + 1
    ensures Emitted(longer, i, j) == Emitted(tr, i, j)
    decreases j
  {
    hide Emits;
    if i < j { EmittedBefore(tr, longer, i, j - 1); }
  }

  lemma {:induction false} EmittedSplit(tr: Trace, i: nat, m: nat, j: nat)
    requires i <= m <= j <= |tr.run| && |tr.states| == |tr.run| + 1
    ensures Emitted(tr, i, j) == Emitted(tr, i, m) + Emitted(tr, m, j)
    decreases j
  {
    hide Emits;
    if m < j { EmittedSplit(tr, i, m, j - 1); }
  }

  lemma {:induction false} DoesOn(a: Trace, b: Trace, c: Trace, first: seq<Effect>, later: seq<Effect>)
    requires Does(a, b, first) && Does(b, c, later)
    ensures Does(a, c, first + later)
  {
    hide Emitted, WrittenIn, NotifiedIn;
    EmittedBefore(b, c, |a.run|, |b.run|);
    EmittedSplit(c, |a.run|, |b.run|, |c.run|);
    WrittenAppend(first, later);
    NotifiedAppend(first, later);
  }

  lemma {:induction false} DoesNothing(tr: Trace)
    requires |tr.states| == |tr.run| + 1
    ensures Does(tr, tr, [])
  {}

  lemma {:induction false} Go(tr: Trace, t: Step, effects: seq<Effect>) returns (longer: Trace)
    requires FromStart(tr) && CanStep(tr.Last(), t) && StepDoes(tr.Last(), t, effects)
    ensures FromStart(longer) && Does(tr, longer, effects) && longer.Last() == Apply(tr.Last(), t)
  {
    hide CanStep, Apply, Emits, StepAt;
    longer := Limits.Then(tr, t);
    var n := |tr.run|;
    assert Emitted(longer, n, n) == [];
    assert longer.states[n] == tr.Last() && longer.run[n] == t && longer.states[n + 1] == longer.Last();
  }

  lemma {:induction false} GoOutside(tr: Trace, more: Trace) returns (longer: Trace)
    requires FromStart(tr) && more.Valid() && more.First() == tr.Last() && (forall x <- more.run :: Outside(x))
    ensures FromStart(longer) && Does(tr, longer, []) && longer.Last() == more.Last()
    ensures more.Last().me == tr.Last().me
  {
    hide CanStep, Apply, Emits;
    longer := Trace(tr.states + more.states[1..], tr.run + more.run);
    var n := |tr.run|;
    forall i: nat ensures StepAt(longer.states, longer.run, i) {
      if i < n {
        assert StepAt(tr.states, tr.run, i);
      } else {
        assert StepAt(more.states, more.run, i - n);
      }
    }
    OutsideLeavesMe(more, |more.run|);
    NothingEmitted(longer, n, |longer.run|);
  }

  lemma {:induction false} NothingEmitted(tr: Trace, i: nat, j: nat)
    requires tr.Valid() && i <= j <= |tr.run| && forall k :: i <= k < j ==> Outside(tr.run[k])
    ensures Emitted(tr, i, j) == []
    decreases j
  {
    hide CanStep, Apply, Emits;
    if i < j {
      NothingEmitted(tr, i, j - 1);
      assert StepAt(tr.states, tr.run, j - 1);
      OutsideStep(tr.states[j - 1], tr.run[j - 1]);
    }
  }

  lemma {:induction false} OutsideLeavesMe(more: Trace, k: nat)
    requires more.Valid() && (forall x <- more.run :: Outside(x)) && k < |more.states|
    ensures more.states[k].me == more.First().me
    decreases k
  {
    hide CanStep, Apply;
    if k > 0 {
      OutsideLeavesMe(more, k - 1);
      assert StepAt(more.states, more.run, k - 1);
      assert more.run[k - 1] in more.run;
      OutsideStep(more.states[k - 1], more.run[k - 1]);
    }
  }

  lemma OutsideStep(s: State, t: Step)
    requires CanStep(s, t) && Outside(t)
    ensures Apply(s, t).me == s.me && Emits(s, t, Apply(s, t)) == []
  {
    hide Handle, Received, Encode;
  }

  // ---------------------------------------------------------------------------------------
  // One wait
  // ---------------------------------------------------------------------------------------

  /** Bytes that do not yet complete a frame change nothing but the receive machine. */
  lemma TakesPart(comm: C.Comm, t: seq<byte>, b: seq<byte>)
    requires Represents(comm.parser, t) && Partial(t + b)
    ensures var (next, effects) := C.AfterBytes(comm, b);
      next.link == comm.link && Represents(next.parser, t + b) && effects == []
  {
    hide Represents, Partial, Run, ScanAll, C.AfterBytes;
    ScanPartial(t, b);
    RunIsScanAll(comm.parser, t, b);
    C.AfterBytesIsHandleAll(comm, t, b);
  }

  /** Bytes that complete a frame make it received. */
  lemma CompletesFrame(comm: C.Comm, t: seq<byte>, b: seq<byte>)
    requires Represents(comm.parser, t) && Partial(t) && Delimited(t + b)
    ensures Receivable(t + b)
    ensures var (next, effects) := C.AfterBytes(comm, b);
      (next.link, effects) == Received(comm.link, t + b) && Represents(next.parser, [])
  {
    hide Represents, Partial, Run, ScanAll, C.AfterBytes, Delimited, HandleAll, Deframe;
    var f := t + b;
    DeframeOneFrame(f);
    DeframeIsHandleable(f);
    assert |f| >= HEADER_SIZE by { DelimitedLength(f); }
    WholeIsPartial(t);
    ScanAllAppend([], t, b);
    ScanIsDeframe(f);
    assert [] + ScanAll(t, b).1 == ScanAll(t, b).1;
    RunIsScanAll(comm.parser, t, b);
    C.AfterBytesIsHandleAll(comm, t, b);
  }

  lemma PartialIsShort(t: seq<byte>, f: seq<byte>)
    requires Partial(t) && Delimited(f) && (t <= f || f <= t)
    ensures |t| < |f|
  {
    hide LengthCrcValid;
  }

  lemma PrefixIsPartial(f: seq<byte>, n: nat)
    requires Delimited(f) && n < |f|
    ensures Partial(f[..n])
  {
    hide Delimited, Partial;
    BeginningIsPartial(f);
    PartialPrefix(f[..|f| - 1], n);
    assert f[..|f| - 1][..n] == f[..n];
  }

  lemma NextInChannel(ws: seq<Wire>, b: seq<byte>)
    requires ws != [] && b <= JoinWire(ws)
    ensures var f := ws[0].bytes;
      if |b| < |f| then b == f[..|b|] else b[..|f|] == f && b[|f|..] <= JoinWire(ws[1..])
  {
    var f, later := ws[0].bytes, JoinWire(ws[1..]);
    assert (f + later)[..|b|] == b;
    if |b| >= |f| { assert b[|f|..] == later[..|b| - |f|]; }
  }

  lemma ReceiveStep(s: State)
    requires Enabled(s, Receive)
    ensures var t := Do(s, Receive);
      && t.inn == s.inn[1..] && OnlyReceived(s.me, t.me) && t.me.link == Received(s.me.link, s.inn[0].bytes).0
    ensures CanStep(s, Step(true, Receive)) && Apply(s, Step(true, Receive)) == Do(s, Receive)
    ensures StepDoes(s, Step(true, Receive), Received(s.me.link, s.inn[0].bytes).1)
  {
    hide Received, Receivable, WrittenIn, NotifiedIn;
    var t, written := Do(s, Receive), WrittenIn(Received(s.me.link, s.inn[0].bytes).1);
    var num := if s.inn[0].Nack? then 0 else s.inn[0].num;
    assert t.out[|s.out|..] == Acks(num, written);
    assert BytesOf(Acks(num, written)) == written;
  }

  /** A portion that ends before the next frame does. */
  lemma {:induction false} PartTaken(s: State, comm: C.Comm, t: seq<byte>, b: seq<byte>)
    requires Matches(comm, t, s.me) && WholeFrames(s.inn) && t + b <= JoinWire(s.inn)
    requires s.inn == [] || |t + b| < |s.inn[0].bytes|
    ensures TakeIn(s, t + b) == (s, t + b)
    ensures Matches(C.AfterBytes(comm, b).0, t + b, s.me) && C.AfterBytes(comm, b).1 == []
  {
    hide Represents, Partial, Run, C.AfterBytes, Delimited, Receivable, Do;
    if s.inn == [] {
      assert t + b == t == b == [];
      NoBytes(comm);
    } else {
      var f := s.inn[0].bytes;
      assert s.inn[0] in s.inn;
      NextInChannel(s.inn, t + b);
      PrefixIsPartial(f, |t + b|);
      TakesPart(comm, t, b);
    }
  }

  /** A portion that completes the next frame, and what is left of it. */
  lemma {:induction false} HeadTaken(s: State, comm: C.Comm, t: seq<byte>, b: seq<byte>) returns (k: nat)
    requires Matches(comm, t, s.me) && WholeFrames(s.inn) && t + b <= JoinWire(s.inn)
    requires s.inn != [] && |t + b| >= |s.inn[0].bytes|
    ensures k <= |b| && Enabled(s, Receive)
    ensures TakeIn(s, t + b) == TakeIn(Do(s, Receive), [] + b[k..])
    ensures [] + b[k..] <= JoinWire(Do(s, Receive).inn)
    ensures Matches(C.AfterBytes(comm, b[..k]).0, [], Do(s, Receive).me)
    ensures C.AfterBytes(comm, b[..k]).1 == Received(s.me.link, s.inn[0].bytes).1
  {
    hide Represents, Partial, Run, C.AfterBytes, Delimited, Receivable, Received, Do;
    var f := s.inn[0].bytes;
    assert s.inn[0] in s.inn;
    assert Partial(t) by { C.FramePartial(comm.parser, t); }
    NextInChannel(s.inn, t + b);
    assert t <= f || f <= t;
    PartialIsShort(t, f);
    k := |f| - |t|;
    assert t + b[..k] == f;
    CompletesFrame(comm, t, b[..k]);
    ReceiveStep(s);
    assert (t + b)[|f|..] == b[k..] == [] + b[k..];
  }

  /** A portion of bytes, wherever it ends, is received by the frames it completes. */
  lemma {:induction false} PortionIsRun(tr: Trace, comm: C.Comm, t: seq<byte>, b: seq<byte>) returns (longer: Trace)
    requires FromStart(tr) && Matches(comm, t, tr.Last().me) && t + b <= JoinWire(tr.Last().inn)
    ensures FromStart(longer) && longer.Last() == TakeIn(tr.Last(), t + b).0
    ensures Does(tr, longer, C.AfterBytes(comm, b).1)
    ensures OnlyReceived(tr.Last().me, longer.Last().me)
    ensures Matches(C.AfterBytes(comm, b).0, TakeIn(tr.Last(), t + b).1, longer.Last().me)
    decreases |tr.Last().inn|
  {
    hide IsRun, Represents, C.AfterBytes, WholeFrames, Do, Enabled, Inv, CanStep, Apply, TakeIn, Does, StepDoes;
    longer := tr;
    LastIsReachable(tr);
    var s := tr.Last();
    if s.inn == [] || |t + b| < |s.inn[0].bytes| {
      PartTaken(s, comm, t, b);
      StandsStill(tr);
    } else {
      var k := HeadTaken(s, comm, t, b);
      ReceiveStep(s);
      var effects := C.AfterBytes(comm, b[..k]).1;
      var received := Go(tr, Step(true, Receive), effects);
      longer := PortionIsRun(received, C.AfterBytes(comm, b[..k]).0, [], b[k..]);
      DoesOn(tr, received, longer, effects, C.AfterBytes(C.AfterBytes(comm, b[..k]).0, b[k..]).1);
      C.AfterBytesAppend(comm, b[..k], b[k..]);
      assert b[..k] + b[k..] == b;
    }
  }

  lemma {:induction false} StandsStill(tr: Trace)
    requires FromStart(tr)
    ensures Does(tr, tr, [])
  {
    DoesNothing(tr);
  }

  lemma NoBytes(comm: C.Comm)
    requires C.Good(comm)
    ensures C.AfterBytes(comm, []) == (comm, [])
  {}

  // ---------------------------------------------------------------------------------------
  // Noise
  // ---------------------------------------------------------------------------------------

  lemma {:induction false} HandleAllDamaged(link: LinkState, events: seq<Event>)
    requires AllDamaged(events)
    ensures Handleable(events) && HandleAll(link, events).0 == link
    decreases |events|
  {
    hide Handle;
    if events != [] {
      assert events[0] in events;
      NackEffects(link, events[0]);
      HandleAllDamaged(link, events[1..]);
    }
  }

  /** To the object noise is bytes that leave its machine idle and its link state alone. */
  lemma {:induction false} NoiseTaken(comm: C.Comm, t: seq<byte>, b: seq<byte>)
    requires Represents(comm.parser, t) && Deframe(t + b).rest == [] && AllDamaged(Deframe(t + b).events)
    ensures var (next, effects) := C.AfterBytes(comm, b); var events := Deframe(t + b).events;
      && next.link == comm.link && Represents(next.parser, [])
      && Handleable(events) && effects == HandleAll(comm.link, events).1
  {
    hide Represents, Partial, Run, ScanAll, C.AfterBytes, HandleAll, Deframe, AllDamaged;
    assert Partial(t) by { C.FramePartial(comm.parser, t); }
    WholeIsPartial(t);
    ScanAllAppend([], t, b);
    ScanIsDeframe(t + b);
    assert [] + ScanAll(t, b).1 == ScanAll(t, b).1;
    RunIsScanAll(comm.parser, t, b);
    C.AfterBytesIsHandleAll(comm, t, b);
    HandleAllDamaged(comm.link, Deframe(t + b).events);
  }

  lemma {:induction false} NoiseStep(s: State, e: Event)
    requires Damaged(e)
    ensures CanStep(s, Step(true, Noise(e))) && Apply(s, Step(true, Noise(e))) == Do(s, Noise(e))
    ensures Do(s, Noise(e)).me == s.me && StepDoes(s, Step(true, Noise(e)), Handle(s.me.link, e).1)
  {
    hide Handle;
    NackEffects(s.me.link, e);
    var t, written := Do(s, Noise(e)), WrittenIn(Handle(s.me.link, e).1);
    assert t.out[|s.out|..] == Nacks(written);
    assert BytesOf(Nacks(written)) == written;
  }

  lemma {:induction false} NoiseIsRun(tr: Trace, events: seq<Event>) returns (longer: Trace)
    requires FromStart(tr) && AllDamaged(events)
    ensures FromStart(longer) && longer.Last() == HearAll(tr.Last(), events)
    ensures Handleable(events) && Does(tr, longer, HandleAll(tr.Last().me.link, events).1)
    ensures longer.Last().me == tr.Last().me
    decreases |events|
  {
    hide IsRun, Do, CanStep, Apply, Does, StepDoes, Damaged, Handle;
    longer := tr;
    var link := tr.Last().me.link;
    HandleAllDamaged(link, events);
    if events == [] {
      StandsStill(tr);
    } else {
      assert events[0] in events;
      NoiseStep(tr.Last(), events[0]);
      NackEffects(link, events[0]);
      var effects := Handle(link, events[0]).1;
      var heard := Go(tr, Step(true, Noise(events[0])), effects);
      longer := NoiseIsRun(heard, events[1..]);
      DoesOn(tr, heard, longer, effects, HandleAll(link, events[1..]).1);
    }
  }

  // ---------------------------------------------------------------------------------------
  // Moments
  // ---------------------------------------------------------------------------------------

  lemma {:induction false} MomentIsRun(tr: Trace, comm: C.Comm, t: seq<byte>, m: Moment) returns (longer: Trace)
    requires FromStart(tr) && Matches(comm, t, tr.Last().me) && CanTake(tr.Last(), t, m)
    ensures FromStart(longer) && longer.Last() == AfterMoment(tr.Last(), t, m).0
    ensures Does(tr, longer, C.AfterBytes(comm, m.bytes).1)
    ensures OnlyReceived(tr.Last().me, longer.Last().me)
    ensures Matches(C.AfterBytes(comm, m.bytes).0, AfterMoment(tr.Last(), t, m).1, longer.Last().me)
  {
    hide IsRun, Represents, C.AfterBytes, TakeIn, HearAll, Outside, JoinWire, Does, Deframe, AllDamaged, HandleAll;
    var moved := GoOutside(tr, m.outside);
    var effects := C.AfterBytes(comm, m.bytes).1;
    if m.Clean? {
      longer := PortionIsRun(moved, comm, t, m.bytes);
    } else {
      NoiseTaken(comm, t, m.bytes);
      longer := NoiseIsRun(moved, Deframe(t + m.bytes).events);
    }
    DoesOn(tr, moved, longer, [], effects);
    assert [] + effects == effects;
  }

  /** Moments, one after the other. */
  lemma {:induction false} SpanIsRun(tr: Trace, comm: C.Comm, t: seq<byte>, span: seq<Moment>) returns (longer: Trace)
    requires FromStart(tr) && Matches(comm, t, tr.Last().me) && CanPass(tr.Last(), t, span)
    ensures FromStart(longer) && longer.Last() == AfterSpan(tr.Last(), t, span).0
    ensures Does(tr, longer, C.AfterBytes(comm, Bytes(span)).1)
    ensures OnlyReceived(tr.Last().me, longer.Last().me)
    ensures Matches(C.AfterBytes(comm, Bytes(span)).0, AfterSpan(tr.Last(), t, span).1, longer.Last().me)
    decreases |span|
  {
    hide IsRun, Represents, C.AfterBytes, CanTake, AfterMoment, Does;
    if span == [] {
      longer := tr;
      NoBytes(comm);
      StandsStill(tr);
    } else {
      var m := span[0];
      var taken := MomentIsRun(tr, comm, t, m);
      var next := C.AfterBytes(comm, m.bytes).0;
      longer := SpanIsRun(taken, next, AfterMoment(tr.Last(), t, m).1, span[1..]);
      DoesOn(tr, taken, longer, C.AfterBytes(comm, m.bytes).1, C.AfterBytes(next, Bytes(span[1..])).1);
      C.AfterBytesAppend(comm, m.bytes, Bytes(span[1..]));
    }
  }

  // ---------------------------------------------------------------------------------------
  // The whole send
  // ---------------------------------------------------------------------------------------

  /** About to write the frame of the last send, with `n` waits left. */
  predicate AtWrite(me: Endpoint, n: nat) {
    && me.phase.Writing? && me.phase.reliable && n == me.phase.resends + 1
    && me.writes != [] && me.history != []
  }

  lemma {:induction false} WriteStep(s: State)
    requires s.me.phase.Writing? && s.me.writes != []
    ensures CanStep(s, Step(true, Write)) && Apply(s, Step(true, Write)) == Do(s, Write)
    ensures var t, last := Do(s, Write), |s.me.writes| - 1;
      && t.me.link == s.me.link && t.me.history == s.me.history
      && t.me.writes == s.me.writes[last := s.me.writes[last] + 1]
      && t.me.phase == (if s.me.phase.reliable then Waiting(s.me.phase.frame, s.me.phase.resends) else Idle)
      && t.me.results == (if s.me.phase.reliable then s.me.results else s.me.results + [Result(last, false, OK, -1)])
    ensures StepDoes(s, Step(true, Write), [Written(s.me.phase.frame)])
  {
    var frame := s.me.phase.frame;
    assert Do(s, Write).out[|s.out|..] == [Data(|s.me.writes| - 1, frame)];
    assert BytesOf([Data(|s.me.writes| - 1, frame)]) == [frame];
    assert [Written(frame)][1..] == [];
  }

  lemma {:induction false} WakeStep(s: State)
    requires s.me.phase.Waiting? && s.me.history != []
    ensures CanStep(s, Step(true, Wake)) && Apply(s, Step(true, Wake)) == Do(s, Wake)
    ensures var me, t := s.me, Do(s, Wake);
      && t.me.link == me.link && t.me.history == me.history && t.me.writes == me.writes && t.me.ackOf == me.ackOf
      && if !me.link.acked && me.phase.resends > 0
         then t.me.phase == Writing(me.phase.frame, true, me.phase.resends - 1) && t.me.results == me.results
         else t.me.phase == Idle && t.me.results == me.results
                + [Result(|me.history| - 1, true, if me.link.acked then OK else PAYLOAD_ACK_TIMEOUT, me.ackOf)]
    ensures StepDoes(s, Step(true, Wake), [])
  {}

  /** How a reliable send that was about to write has ended. */
  ghost predicate Ended(me: Endpoint, sent: C.Sent, me': Endpoint)
    requires me.writes != [] && me.history != []
  {
    var last := |me.writes| - 1;
    && me'.phase.Idle? && me'.link == sent.comm.link && me'.history == me.history
    && me'.results == me.results + [Result(|me.history| - 1, true, sent.ret, me'.ackOf)]
    && me'.writes == me.writes[last := me.writes[last] + sent.writes]
  }

  /** What one more round leaves of a send that goes on. */
  predicate OneMoreWrite(me: Endpoint, me': Endpoint)
    requires me.writes != [] && me.phase.Writing?
  {
    var last := |me.writes| - 1;
    && me'.phase.Writing? && me'.phase.frame == me.phase.frame
    && me'.history == me.history && me'.results == me.results
    && me'.writes == me.writes[last := me.writes[last] + 1]
  }

  /** Up to the write, the write, and the wait. */
  lemma {:induction false} WriteAndWait(tr: Trace, comm: C.Comm, t: seq<byte>, rounds: seq<Around>)
    returns (waited: Trace, rest: seq<byte>)
    requires FromStart(tr) && rounds != [] && AtWrite(tr.Last().me, |rounds|)
    requires Matches(comm, t, tr.Last().me) && CanWrite(tr.Last(), t, rounds)
    ensures FromStart(waited) && Does(tr, waited, C.Round(comm, tr.Last().me.phase.frame, true, Arrivals(rounds)[0]).1)
    ensures var me, me', last := tr.Last().me, waited.Last().me, |tr.Last().me.writes| - 1;
      && Matches(C.Round(comm, me.phase.frame, true, Arrivals(rounds)[0]).0, rest, me')
      && me'.phase == Waiting(me.phase.frame, me.phase.resends)
      && me'.history == me.history && me'.results == me.results && me'.writes == me.writes[last := me.writes[last] + 1]
    ensures waited.Last().me.link.acked ||
      (Enabled(waited.Last(), Wake) && CanWrite(Do(waited.Last(), Wake), rest, rounds[1..]))
  {
    hide IsRun, Represents, C.AfterBytes, Do, CanStep, Apply, CanPass, AfterSpan, Does, StepDoes;
    var frame := tr.Last().me.phase.frame;
    var ready := SpanIsRun(tr, comm, t, rounds[0].before);
    var mid := AfterSpan(tr.Last(), t, rounds[0].before).1;
    WriteStep(ready.Last());
    var wrote := Go(ready, Step(true, Write), [Written(frame)]);
    var (next, early) := C.AfterBytes(comm, Bytes(rounds[0].before));
    waited := SpanIsRun(wrote, next, mid, rounds[0].during);
    var later := C.AfterBytes(next, Bytes(rounds[0].during)).1;
    DoesOn(ready, wrote, waited, [Written(frame)], later);
    DoesOn(tr, ready, waited, early, [Written(frame)] + later);
    rest := AfterSpan(wrote.Last(), mid, rounds[0].during).1;
  }

  lemma {:induction false} RoundIsRun(tr: Trace, comm: C.Comm, t: seq<byte>, rounds: seq<Around>)
    returns (longer: Trace, rest: seq<byte>)
    requires FromStart(tr) && rounds != [] && AtWrite(tr.Last().me, |rounds|)
    requires Matches(comm, t, tr.Last().me) && CanWrite(tr.Last(), t, rounds)
    ensures FromStart(longer)
    ensures var me, me' := tr.Last().me, longer.Last().me;
      var (next, effects, ret) := C.Round(comm, me.phase.frame, true, Arrivals(rounds)[0]);
      && Matches(next, rest, me') && Does(tr, longer, effects)
      && (if ret == OK || |rounds| == 1 then Ended(me, C.Sent(next, [], ret, 1), me')
          else AtWrite(me', |rounds| - 1) && OneMoreWrite(me, me') && CanWrite(longer.Last(), rest, rounds[1..]))
  {
    hide IsRun, Represents, C.AfterBytes, C.Round, Do, CanStep, Apply, CanWrite, Does, StepDoes;
    var waited: Trace;
    waited, rest := WriteAndWait(tr, comm, t, rounds);
    C.RoundReceives(comm, tr.Last().me.phase.frame, Arrivals(rounds)[0]);
    WakeStep(waited.Last());
    longer := Go(waited, Step(true, Wake), []);
    var effects := C.Round(comm, tr.Last().me.phase.frame, true, Arrivals(rounds)[0]).1;
    DoesOn(tr, waited, longer, effects, []);
    assert effects + [] == effects;
  }

  /** Rounds after the first add their writes. */
  lemma {:induction false} EndedAfterRound(me: Endpoint, me1: Endpoint, sent: C.Sent, rest: C.Sent, me': Endpoint)
    requires me.phase.Writing? && me.writes != [] && me.history != [] && OneMoreWrite(me, me1)
    requires Ended(me1, rest, me')
    requires sent.comm == rest.comm && sent.ret == rest.ret && sent.writes == rest.writes + 1
    ensures Ended(me, sent, me')
  {}

  lemma {:induction false} RoundsAreRun(tr: Trace, comm: C.Comm, t: seq<byte>, rounds: seq<Around>)
    returns (longer: Trace, rest: seq<byte>)
    requires FromStart(tr) && rounds != [] && AtWrite(tr.Last().me, |rounds|)
    requires Matches(comm, t, tr.Last().me) && CanWrite(tr.Last(), t, rounds)
    ensures FromStart(longer)
    ensures var sent := C.SendRounds(comm, tr.Last().me.phase.frame, true, Arrivals(rounds));
      && Ended(tr.Last().me, sent, longer.Last().me) && Matches(sent.comm, rest, longer.Last().me)
      && Does(tr, longer, sent.effects)
    decreases |rounds|
  {
    hide IsRun, Represents, C.Round, CanWrite, Does;
    longer, rest := RoundIsRun(tr, comm, t, rounds);
    var frame, arrivals := tr.Last().me.phase.frame, Arrivals(rounds);
    var (next, effects, ret) := C.Round(comm, frame, true, arrivals[0]);
    assert arrivals[1..] == Arrivals(rounds[1..]);
    if ret != OK && |rounds| > 1 {
      var woken := longer;
      longer, rest := RoundsAreRun(woken, next, rest, rounds[1..]);
      var sent := C.SendRounds(next, frame, true, arrivals[1..]);
      DoesOn(tr, woken, longer, effects, sent.effects);
      EndedAfterRound(tr.Last().me, woken.Last().me, C.SendRounds(comm, frame, true, arrivals), sent, longer.Last().me);
    }
  }

  /** An application's call: the frame it makes, and what happens until it returns. */
  datatype Call = Call(cmd: u16, payload: seq<byte>, reliable: bool, gap: seq<Moment>, rounds: seq<Around>)
  {
    predicate Valid() {
      |payload| <= 65519 && !TooLong(|payload|) && |rounds| == TRY_RESEND_TIMES + 1
    }

    /** What the object makes of it. */
    ghost function Sent(comm: C.Comm): C.Sent
      requires Valid() && C.Good(comm)
    {
      C.SendPacket(comm, cmd, payload, reliable, Bytes(gap), Arrivals(rounds))
    }

    function Assembled(s: State): State
      requires Valid() && s.me.phase.Idle?
    {
      Do(s, Assemble(cmd, payload, reliable))
    }

    /** The gap, and the moments around the writes, can happen from here. */
    ghost predicate CanHappen(s: State, t: seq<byte>)
      requires Valid()
    {
      && s.me.phase.Idle?
      && CanPass(Assembled(s), t, gap)
      && var (ready, mid) := AfterSpan(Assembled(s), t, gap);
         Enabled(ready, Begin) &&
         if reliable then CanWrite(Do(ready, Begin), mid, rounds) else CanPass(Do(ready, Begin), mid, rounds[0].before)
    }
  }

  lemma {:induction false} AssembleStep(s: State, comm: C.Comm, t: seq<byte>, call: Call)
    requires call.Valid() && s.me.phase.Idle? && Matches(comm, t, s.me)
    ensures var step := Step(true, Assemble(call.cmd, call.payload, call.reliable));
      CanStep(s, step) && Apply(s, step) == call.Assembled(s)
    ensures var p := DataPacket(comm.link.sequence, call.reliable, call.cmd, call.payload);
      var me := call.Assembled(s).me;
      && me.phase == Prepared(OnUart(p), call.reliable)
      && Matches(C.Numbered(comm), t, me)
      && me.history == s.me.history + [p] && me.writes == s.me.writes + [0] && me.results == s.me.results
    ensures StepDoes(s, Step(true, Assemble(call.cmd, call.payload, call.reliable)), [])
  {
    hide Encode, OnUart, Represents;
    WholeOnUart(DataPacket(comm.link.sequence, call.reliable, call.cmd, call.payload));
  }

  lemma {:induction false} BeginStep(s: State, comm: C.Comm, t: seq<byte>)
    requires s.me.phase.Prepared? && Matches(comm, t, s.me)
    ensures CanStep(s, Step(true, Begin)) && Apply(s, Step(true, Begin)) == Do(s, Begin)
    ensures var me := Do(s, Begin).me;
      && me.phase == Writing(s.me.phase.frame, s.me.phase.reliable, TRY_RESEND_TIMES)
      && Matches(C.Cleared(comm, s.me.phase.reliable), t, me)
      && me.history == s.me.history && me.writes == s.me.writes && me.results == s.me.results
    ensures StepDoes(s, Step(true, Begin), [])
  {
    hide Represents;
  }

  /** From the call to the begin of the write loop. */
  lemma {:induction false} CallBegins(tr: Trace, comm: C.Comm, t: seq<byte>, call: Call)
    returns (longer: Trace, rest: seq<byte>)
    requires FromStart(tr) && call.Valid() && Matches(comm, t, tr.Last().me) && call.CanHappen(tr.Last(), t)
    ensures FromStart(longer) && Does(tr, longer, C.AfterBytes(C.Numbered(comm), Bytes(call.gap)).1)
    ensures var p := DataPacket(comm.link.sequence, call.reliable, call.cmd, call.payload);
      var me, me' := tr.Last().me, longer.Last().me;
      && me'.phase == Writing(OnUart(p), call.reliable, TRY_RESEND_TIMES)
      && Matches(C.Cleared(C.AfterBytes(C.Numbered(comm), Bytes(call.gap)).0, call.reliable), rest, me')
      && me'.history == me.history + [p] && me'.writes == me.writes + [0] && me'.results == me.results
      && if call.reliable then CanWrite(longer.Last(), rest, call.rounds)
         else CanPass(longer.Last(), rest, call.rounds[0].before)
  {
    hide IsRun, Represents, C.AfterBytes, Do, CanStep, Apply, CanPass, AfterSpan, CanWrite, Does, StepDoes, OnUart;
    hide C.Cleared, C.Numbered, Call.Assembled;
    AssembleStep(tr.Last(), comm, t, call);
    var assembled := Go(tr, Step(true, Assemble(call.cmd, call.payload, call.reliable)), []);
    var ready := SpanIsRun(assembled, C.Numbered(comm), t, call.gap);
    var early := C.AfterBytes(C.Numbered(comm), Bytes(call.gap)).1;
    DoesOn(tr, assembled, ready, [], early);
    assert [] + early == early && early + [] == early;
    rest := AfterSpan(assembled.Last(), t, call.gap).1;
    BeginStep(ready.Last(), C.AfterBytes(C.Numbered(comm), Bytes(call.gap)).0, rest);
    longer := Go(ready, Step(true, Begin), []);
    DoesOn(tr, ready, longer, early, []);
  }

  lemma {:induction false} WritesOnce(comm: C.Comm, frame: seq<byte>, arrivals: seq<C.Arrival>)
    requires C.Good(comm) && arrivals != []
    ensures var sent := C.SendRounds(comm, frame, false, arrivals);
      && sent.comm == C.AfterBytes(comm, arrivals[0].before).0 && sent.ret == OK && sent.writes == 1
      && sent.effects == C.AfterBytes(comm, arrivals[0].before).1 + [Written(frame)]
  {
    hide C.AfterBytes, C.Good;
  }

  /** An unreliable send writes once and does not wait. */
  lemma {:induction false} UnreliableIsRun(tr: Trace, comm: C.Comm, t: seq<byte>, rounds: seq<Around>)
    returns (longer: Trace, rest: seq<byte>)
    requires FromStart(tr) && rounds != [] && Matches(comm, t, tr.Last().me)
    requires tr.Last().me.phase.Writing? && !tr.Last().me.phase.reliable && tr.Last().me.writes != []
    requires CanPass(tr.Last(), t, rounds[0].before)
    ensures FromStart(longer)
    ensures var me, me', last := tr.Last().me, longer.Last().me, |tr.Last().me.writes| - 1;
      var sent := C.SendRounds(comm, me.phase.frame, false, Arrivals(rounds));
      && Matches(sent.comm, rest, me') && me'.phase.Idle? && me'.history == me.history
      && sent.ret == OK && sent.writes == 1 && me'.writes == me.writes[last := me.writes[last] + 1]
      && me'.results == me.results + [Result(last, false, OK, -1)] && Does(tr, longer, sent.effects)
  {
    hide IsRun, Represents, C.AfterBytes, C.SendRounds, Do, CanStep, Apply, CanPass, AfterSpan, Does, StepDoes;
    var ready := SpanIsRun(tr, comm, t, rounds[0].before);
    rest := AfterSpan(tr.Last(), t, rounds[0].before).1;
    var frame := tr.Last().me.phase.frame;
    WritesOnce(comm, frame, Arrivals(rounds));
    WriteStep(ready.Last());
    longer := Go(ready, Step(true, Write), [Written(frame)]);
    DoesOn(tr, ready, longer, C.AfterBytes(comm, Bytes(rounds[0].before)).1, [Written(frame)]);
  }

  /**
    A send by the object, reliable or not, is a run of the endpoint's steps among those of the other
    side and of the channel: whatever moves and in whatever portions bytes and noise arrive, between
    its steps and during its waits, the run goes on from the one so far and ends with the send
    recorded as the object reports it. On the way this side puts the very frames on its channel
    that the object writes, in that order, and gives the application what the object notifies.
   */
  lemma {:induction false} SendIsRun(tr: Trace, comm: C.Comm, t: seq<byte>, call: Call)
    returns (longer: Trace, rest: seq<byte>)
    requires FromStart(tr) && call.Valid() && Matches(comm, t, tr.Last().me) && call.CanHappen(tr.Last(), t)
    ensures FromStart(longer) && Does(tr, longer, call.Sent(comm).effects)
    ensures var me, me', sent := tr.Last().me, longer.Last().me, call.Sent(comm);
      && me'.phase.Idle? && Matches(sent.comm, rest, me')
      && me'.history == me.history + [DataPacket(me.link.sequence, call.reliable, call.cmd, call.payload)]
      && me'.writes == me.writes + [sent.writes]
      && me'.results == me.results
           + [Result(|me.history|, call.reliable, sent.ret, if call.reliable then me'.ackOf else -1)]
  {
    hide IsRun, Represents, C.AfterBytes, C.SendRounds, CanPass, CanWrite, Does, OnUart, Call.CanHappen;
    var me := tr.Last().me;
    SameLength(tr);
    var begun: Trace;
    begun, rest := CallBegins(tr, comm, t, call);
    var (gone, early) := C.AfterBytes(C.Numbered(comm), Bytes(call.gap));
    var prepared := C.Cleared(gone, call.reliable);
    var frame := begun.Last().me.phase.frame;
    if call.reliable {
      longer, rest := RoundsAreRun(begun, prepared, rest, call.rounds);
      DoesOn(tr, begun, longer, early, C.SendRounds(prepared, frame, true, Arrivals(call.rounds)).effects);
    } else {
      longer, rest := UnreliableIsRun(begun, prepared, rest, call.rounds);
      DoesOn(tr, begun, longer, early, C.SendRounds(prepared, frame, false, Arrivals(call.rounds)).effects);
    }
    assert longer.Last().me.writes == me.writes + [longer.Last().me.writes[|me.writes|]];
  }

  lemma {:induction false} SameLength(tr: Trace)
    requires FromStart(tr)
    ensures |tr.Last().me.writes| == |tr.Last().me.history|
  {
    LastIsReachable(tr);
  }

  /**
    From the object to the peer's application: when `AssembleAndSend` returns 0 for a reliable
    send, the peer's application has been given exactly that command and payload exactly once,
    after 1 to 6 writes, provided the 8-bit numbers were unambiguous on the run.
   */
  lemma {:induction false} ReturnedZeroMeansGiven(tr: Trace, comm: C.Comm, t: seq<byte>, call: Call)
    returns (longer: Trace, rest: seq<byte>)
    requires FromStart(tr) && call.Valid() && call.reliable
    requires Matches(comm, t, tr.Last().me) && call.CanHappen(tr.Last(), t)
    ensures FromStart(longer) && Extends(longer, tr) && Matches(call.Sent(comm).comm, rest, longer.Last().me)
    ensures var sent := call.Sent(comm);
      sent.ret == 0 && R.AcksInWindow(longer.states, longer.run) && R.LossesInWindow(longer.Last().peer.accepted) ==>
        1 <= sent.writes <= 6 && R.GivenOnce(longer.Last(), |tr.Last().me.history|, call.cmd, call.payload)
  {
    hide IsRun, Represents, Emitted, Extends, Call.CanHappen, Call.Sent, R.AcksInWindow, R.LossesInWindow;
    longer, rest := SendIsRun(tr, comm, t, call);
    var sent := call.Sent(comm);
    if sent.ret == 0 && R.AcksInWindow(longer.states, longer.run) && R.LossesInWindow(longer.Last().peer.accepted) {
      SameLength(tr);
      LastAt(longer);
      R.ReliableDelivery(longer.states, longer.run, |longer.run|, |tr.Last().me.results|);
    }
  }

  lemma {:induction false} LastAt(tr: Trace)
    requires FromStart(tr)
    ensures |tr.states| == |tr.run| + 1 && tr.Last() == tr.states[|tr.run|]
  {}

  // ---------------------------------------------------------------------------------------
  // A chunk dropped in front of the receive machine
  // ---------------------------------------------------------------------------------------

  /** The channel without its first n frames. */
  lemma {:induction false} LoseFirst(s: State, n: nat) returns (tr: Trace)
    requires n <= |s.inn|
    ensures tr.Valid() && tr.First() == s && tr.Last() == s.(inn := s.inn[n..]) && forall x <- tr.run :: Outside(x)
    decreases n
  {
    hide IsRun, Handle, Received, Encode;
    if n == 0 {
      Limits.Begins(s);
      tr := Trace([s], []);
      assert s.inn[0..] == s.inn;
    } else {
      var fewer := LoseFirst(s, n - 1);
      var t := Step(true, Lose(0));
      tr := Limits.Then(fewer, t);
      assert s.inn[n - 1..][..0] + s.inn[n - 1..][1..] == s.inn[n..];
      assert forall x <- tr.run :: x in fewer.run || x == t;
    }
  }

  /**
    A dropped chunk cuts the line: of frame n of the channel and those before it only the `t` bytes
    taken in before the cut and the last bytes `r` of frame n arrive. That is a loss of these frames
    with noise in their place if and only if the machine is idle after `r` and has made nothing but
    damage of it.
   */
  lemma {:induction false} DroppedChunkIsNoise(s: State, t: seq<byte>, n: nat, r: seq<byte>) returns (m: Moment)
    requires n < |s.inn| && |r| <= |s.inn[n].bytes| && r == s.inn[n].bytes[|s.inn[n].bytes| - |r|..]
    ensures m.Noisy? && m.bytes == r && m.outside.states != [] && m.outside.Last() == s.(inn := s.inn[n + 1..])
    ensures CanTake(s, t, m) <==> Deframe(t + r).rest == [] && AllDamaged(Deframe(t + r).events)
  {
    hide IsRun, Deframe, AllDamaged, Outside;
    var lost := LoseFirst(s, n + 1);
    m := Noisy(lost, r);
  }

  /** And the next frame is found in its place if and only if the machine is idle after `r`. */
  lemma {:induction false} FrameAfterDropExactly(p: Parser, t: seq<byte>, r: seq<byte>, f: seq<byte>)
    requires Represents(p, t) && Delimited(f) && LengthField(f) <= MAX_PAYLOAD
    ensures |f| >= HEADER_SIZE
    ensures var q := Run(p, r).0;
      Receiver.Step(Run(q, f[..|f| - 1]).0, f[|f| - 1]).1 == [Frame(f)] <==> Deframe(t + r).rest == []
  {
    hide Represents, Partial, Run, ScanAll, Deframe, Receiver.Step, Delimited, LengthCrcValid;
    assert |f| >= HEADER_SIZE by { DelimitedLength(f); }
    assert Partial(t) by { C.FramePartial(p, t); }
    WholeIsPartial(t);
    ScanAllAppend([], t, r);
    ScanIsDeframe(t + r);
    RunIsScanAll(p, t, r);
    FoundInPlace(Run(p, r).0, Deframe(t + r).rest, f);
  }
}
