/**
  Two endpoints of the link layer over two lossy FIFO channels, as a step system.

  A step is one action of one endpoint: assembling a frame, starting a send, writing, waking from
  a wait, taking the next frame off the incoming channel, losing one, or making something of noise;
  a damaged frame is lost, after any number of such noises. Frames are real bytes and are processed
  by `Link.HandleAll`. Every application send also has an unbounded number, which the code does not
  have: 8-bit sequence numbers are these modulo 256.
 */
module Protocol {
  import opened Bits
  import opened Frames
  import opened Receiver
  import opened Link

  const OK := 0

  /** A frame in a channel; `num` is the send it carries or acknowledges. */
  datatype Wire =
    | Data(num: nat, bytes: seq<byte>)
    | Ack(num: nat, bytes: seq<byte>)
    | Nack(bytes: seq<byte>)

  /** Where a send stands; `resends` is how many are left. */
  datatype Phase =
    | Idle
    | Prepared(frame: seq<byte>, reliable: bool)
    | Writing(frame: seq<byte>, reliable: bool, resends: nat)
    | Waiting(frame: seq<byte>, resends: nat)

  /** Why the stored "current acked" number has the value it has. */
  datatype AckOrigin = AtInit | AfterUdp | OfSend(num: nat)

  /** How a send ended; `ackOf` is the send whose acknowledgement had last set the acked flag. */
  datatype Result = Result(num: nat, reliable: bool, ret: int, ackOf: int)

  datatype Endpoint = Endpoint(
    link: LinkState,
    phase: Phase,
    history: seq<Packet>,       // what the application has sent, by number
    writes: seq<nat>,           // how often each was written
    origin: AckOrigin,
    ackOf: int,
    results: seq<Result>,
    accepted: seq<nat>,         // the peer's sends whose frames passed the checksum, repeats left out
    delivered: seq<nat>,        // the peer's sends given to the application
    given: seq<(u16, seq<byte>)> // what the application was given
  )

  datatype State = State(me: Endpoint, peer: Endpoint, out: seq<Wire>, inn: seq<Wire>)

  datatype Action =
    | Assemble(cmd: u16, payload: seq<byte>, reliable: bool)
    | Begin
    | Write
    | Wake
    | Receive
    | Lose(index: nat)
    | Noise(seen: Event)

  const NEW_ENDPOINT := Endpoint(INITIAL_LINK, Idle, [], [], AtInit, -1, [], [], [], [])
  const START := State(NEW_ENDPOINT, NEW_ENDPOINT, [], [])

  // ---------------------------------------------------------------------------------------
  // Steps
  // ---------------------------------------------------------------------------------------

  function Last(s: seq<nat>): nat
    requires s != []
  {
    s[|s| - 1]
  }

  function Note(accepted: seq<nat>, num: nat): seq<nat> {
    if accepted != [] && Last(accepted) == num then accepted else accepted + [num]
  }

  function WrittenIn(effects: seq<Effect>): seq<seq<byte>> {
    if effects == [] then []
    else (if effects[0].Written? then [effects[0].bytes] else []) + WrittenIn(effects[1..])
  }

  function NotifiedIn(effects: seq<Effect>): seq<(u16, seq<byte>)> {
    if effects == [] then []
    else (if effects[0].Notified? then [(effects[0].cmd, effects[0].payload)] else []) + NotifiedIn(effects[1..])
  }

  predicate Receivable(f: seq<byte>) { |f| >= HEADER_SIZE && Handleable(Delivered(f)) }

  /** The effect of a frame that arrives undamaged, byte by byte, at an idle receive machine. */
  function Received(link: LinkState, f: seq<byte>): (LinkState, seq<Effect>)
    requires Receivable(f)
  {
    HandleAll(link, Delivered(f))
  }

  /** What damaged frames and noise can be taken for: anything but a valid data frame or an acknowledgement. */
  predicate Damaged(e: Event) {
    e.Frame? ==> Sized(e.bytes) && !ChecksumValid(e.bytes) && !IsAcked(Decode(e.bytes))
  }

  predicate Enabled(s: State, a: Action) {
    match a
    case Assemble(cmd, payload, reliable) => s.me.phase.Idle? && |payload| <= 65519 && !TooLong(|payload|)
    case Begin => s.me.phase.Prepared?
    case Write => s.me.phase.Writing? && s.me.writes != []
    case Wake => s.me.phase.Waiting? && s.me.history != []
    case Receive => s.inn != [] && Receivable(s.inn[0].bytes)
    case Lose(i) => i < |s.inn|
    case Noise(e) => Damaged(e)
  }

  function Do(s: State, a: Action): State
    requires Enabled(s, a)
  {
    match a
    case Assemble(cmd, payload, reliable) => s.(me := DoAssemble(s.me, cmd, payload, reliable))
    case Begin => s.(me := s.me.(
        link := s.me.link.(acked := if s.me.phase.reliable then false else s.me.link.acked),
        phase := Writing(s.me.phase.frame, s.me.phase.reliable, TRY_RESEND_TIMES)))
    case Write => DoWrite(s)
    case Wake => s.(me := DoWake(s.me))
    case Receive => DoReceive(s)
    case Lose(i) => s.(inn := s.inn[..i] + s.inn[i + 1..])
    case Noise(e) =>
      var (link, effects) := Handle(s.me.link, e);
      s.(me := s.me.(link := link), out := s.out + Nacks(WrittenIn(effects)))
  }

  function Nacks(frames: seq<seq<byte>>): seq<Wire> {
    seq(|frames|, i requires 0 <= i < |frames| => Nack(frames[i]))
  }

  function Acks(num: nat, frames: seq<seq<byte>>): seq<Wire> {
    seq(|frames|, i requires 0 <= i < |frames| => Ack(num, frames[i]))
  }

  function DoAssemble(me: Endpoint, cmd: u16, payload: seq<byte>, reliable: bool): Endpoint
    requires |payload| <= 65519
  {
    var p := DataPacket(me.link.sequence, reliable, cmd, payload);
    me.(link := me.link.(sequence := (me.link.sequence + 1) % 0x100),
        phase := Prepared(Encode(p), reliable),
        history := me.history + [p],
        writes := me.writes + [0])
  }

  function DoWrite(s: State): State
    requires Enabled(s, Write)
  {
    var num := |s.me.writes| - 1;
    var phase := s.me.phase;
    s.(out := s.out + [Data(num, phase.frame)],
       me := s.me.(
         writes := s.me.writes[num := s.me.writes[num] + 1],
         phase := if phase.reliable then Waiting(phase.frame, phase.resends) else Idle,
         results := if phase.reliable then s.me.results else s.me.results + [Result(num, false, OK, -1)]))
  }

  function DoWake(me: Endpoint): Endpoint
    requires me.phase.Waiting? && me.history != []
  {
    if !me.link.acked && me.phase.resends > 0
    then me.(phase := Writing(me.phase.frame, true, me.phase.resends - 1))
    else me.(phase := Idle,
             results := me.results
               + [Result(|me.history| - 1, true, if me.link.acked then OK else PAYLOAD_ACK_TIMEOUT, me.ackOf)])
  }

  function DoReceive(s: State): State
    requires Enabled(s, Receive)
  {
    var w := s.inn[0];
    var (link, effects) := Received(s.me.link, w.bytes);
    var notified := NotifiedIn(effects);
    var num := if w.Nack? then 0 else w.num;
    var accepts := w.Data? && Delivered(w.bytes) != [];
    var me := s.me.(
      link := link,
      origin := if link.currentAcked == s.me.link.currentAcked then s.me.origin
                else if link.currentAcked == -1 then AfterUdp else OfSend(num),
      ackOf := if w.Ack? && effects != [] then num else s.me.ackOf,
      accepted := if accepts then Note(s.me.accepted, num) else s.me.accepted,
      delivered := s.me.delivered + seq(|notified|, _ => num),
      given := s.me.given + notified);
    s.(me := me, inn := s.inn[1..], out := s.out + Acks(num, WrittenIn(effects)))
  }

  function Swap(s: State): State { State(s.peer, s.me, s.inn, s.out) }

  /** A step of the run: an action of this side or of the other. */
  datatype Step = Step(mine: bool, action: Action)

  predicate CanStep(s: State, t: Step) { Enabled(if t.mine then s else Swap(s), t.action) }

  function Apply(s: State, t: Step): State
    requires CanStep(s, t)
  {
    if t.mine then Do(s, t.action) else Swap(Do(Swap(s), t.action))
  }

  predicate StepAt(states: seq<State>, run: seq<Step>, i: nat) {
    i < |run| && i + 1 < |states| ==> CanStep(states[i], run[i]) && states[i + 1] == Apply(states[i], run[i])
  }

  /** Each state comes from the one before it by the step between them. */
  ghost predicate IsRun(states: seq<State>, run: seq<Step>) {
    |states| == |run| + 1 && forall i: nat :: StepAt(states, run, i)
  }

  /** A run together with its states. */
  datatype Trace = Trace(states: seq<State>, run: seq<Step>)
  {
    ghost predicate Valid() { states != [] && IsRun(states, run) }

    function First(): State
      requires states != []
    {
      states[0]
    }

    function Last(): State
      requires states != []
    {
      states[|states| - 1]
    }
  }
}
