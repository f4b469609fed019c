/**
  The channel on top of the link: the counters that bound the backlog of voice packets, and the
  loop that sends audio in chunks against the credit the other side reports.
 */
module Channel {
  import opened Bits

  const IOT_INIT: u16 := 100
  const RASR_START: u16 := 101
  const RASR_STOP: u16 := 102
  const RASR_DATA_FEED: u16 := 103
  const DAEMON_REBOOT_REQUEST: u16 := 107
  const ASR_CHALLENGE_PACK: u16 := 108
  const IOT_DEVICE_BASE: u16 := 1000
  const MAX_DATA_PACKETS: byte := 16
  const MAX_CHUNK := 512

  // ---------------------------------------------------------------------------------------
  // Admission
  // ---------------------------------------------------------------------------------------

  datatype Counters = Counters(data: byte, start: byte, stop: byte)

  /** The counters after a packet has arrived, and whether it is let through. */
  function Admit(c: Counters, cmd: u16): (Counters, bool) {
    if cmd == RASR_DATA_FEED then
      if c.data >= MAX_DATA_PACKETS then (c, false) else (c.(data := c.data + 1), true)
    else if cmd == RASR_START then
      if c.start != 0 then (c, false) else (c.(start := 1), true)
    else if cmd == RASR_STOP then
      if c.stop != 0 then (c, false) else (c.(stop := 1), true)
    else (c, true)
  }

  /** The counters after the handler of a packet has run; the data counter is eight bits wide. */
  function HandledOne(c: Counters, cmd: u16): Counters {
    if cmd == RASR_DATA_FEED then c.(data := (c.data + 0xff) % 0x100)
    else if cmd == RASR_START then c.(start := 0)
    else if cmd == RASR_STOP then c.(stop := 0)
    else c
  }

  /** `pending` has been accepted and not yet handled; `lost` was let through but could not be allocated. */
  datatype Backlog = Backlog(counters: Counters, pending: multiset<u16>, lost: multiset<u16>)

  datatype Action = Arrive(cmd: u16, stored: bool) | Handle(cmd: u16)

  const IDLE := Backlog(Counters(0, 0, 0), multiset{}, multiset{})

  predicate Enabled(b: Backlog, a: Action) { a.Handle? ==> a.cmd in b.pending }

  function Do(b: Backlog, a: Action): Backlog
    requires Enabled(b, a)
  {
    match a
    case Arrive(cmd, stored) =>
      var (counters, admitted) := Admit(b.counters, cmd);
      if !admitted then b.(counters := counters)
      else if stored then b.(counters := counters, pending := b.pending + multiset{cmd})
      else b.(counters := counters, lost := b.lost + multiset{cmd})
    case Handle(cmd) =>
      b.(counters := HandledOne(b.counters, cmd), pending := b.pending - multiset{cmd})
  }

  predicate Possible(b: Backlog, run: seq<Action>)
    decreases |run|
  {
    run == [] || (Enabled(b, run[0]) && Possible(Do(b, run[0]), run[1..]))
  }

  function Execute(b: Backlog, run: seq<Action>): Backlog
    requires Possible(b, run)
    decreases |run|
  {
    if run == [] then b else Execute(Do(b, run[0]), run[1..])
  }

  /** Each counter is the number of its packets that were let through and have not been handled. */
  predicate Counted(b: Backlog) {
    && b.counters.data == b.pending[RASR_DATA_FEED] + b.lost[RASR_DATA_FEED] <= MAX_DATA_PACKETS
    && b.counters.start == b.pending[RASR_START] + b.lost[RASR_START] <= 1
    && b.counters.stop == b.pending[RASR_STOP] + b.lost[RASR_STOP] <= 1
  }

  lemma DoIsCounted(b: Backlog, a: Action)
    requires Counted(b) && Enabled(b, a)
    ensures Counted(Do(b, a))
  {
    hide Do, Counted;
    match a {
      case Arrive(cmd, stored) => ArriveIsCounted(b, cmd, stored);
      case Handle(cmd) => HandleIsCounted(b, cmd);
    }
  }

  lemma ArriveIsCounted(b: Backlog, cmd: u16, stored: bool)
    requires Counted(b)
    ensures Counted(Do(b, Arrive(cmd, stored)))
  {
    hide HandledOne;
  }

  lemma HandleIsCounted(b: Backlog, cmd: u16)
    requires Counted(b) && cmd in b.pending
    ensures Counted(Do(b, Handle(cmd)))
  {
    hide Admit;
  }

  lemma {:induction false} RunIsCounted(b: Backlog, run: seq<Action>)
    requires Counted(b) && Possible(b, run)
    ensures Counted(Execute(b, run))
    decreases |run|
  {
    hide Counted, Do, Enabled;
    if run != [] {
      DoIsCounted(b, run[0]);
      RunIsCounted(Do(b, run[0]), run[1..]);
    }
  }

  predicate AllStored(run: seq<Action>) { forall a <- run :: a.Arrive? ==> a.stored }

  lemma {:induction false} NothingLost(b: Backlog, run: seq<Action>)
    requires Possible(b, run) && AllStored(run)
    ensures Execute(b, run).lost == b.lost
    decreases |run|
  {
    if run != [] {
      assert run[0] in run;
      NothingLost(Do(b, run[0]), run[1..]);
    }
  }

  /**
    Over every interleaving of arrivals and handlers, with every allocation succeeding: the data
    counter is the number of data packets waiting, at most 16 of them, and at most one START and
    one STOP wait.
   */
  lemma BoundedBacklog(run: seq<Action>)
    requires Possible(IDLE, run) && AllStored(run)
    ensures var b := Execute(IDLE, run);
      && b.counters.data == b.pending[RASR_DATA_FEED] <= 16
      && b.counters.start == b.pending[RASR_START] <= 1
      && b.counters.stop == b.pending[RASR_STOP] <= 1
  {
    RunIsCounted(IDLE, run);
    NothingLost(IDLE, run);
  }

  /**
    A packet is refused exactly when it is data (103) and 16 of these are waiting or have been lost,
    or START (101) or STOP (102) and one of its kind is: a packet whose allocation failed is never
    given back. Everything else is let through.
   */
  lemma RefusedExactly(run: seq<Action>, cmd: u16)
    requires Possible(IDLE, run)
    ensures var b := Execute(IDLE, run); var held := b.pending[cmd] + b.lost[cmd];
      !Admit(b.counters, cmd).1 <==>
        (cmd == 103 && held == 16) || (cmd == 101 && held == 1) || (cmd == 102 && held == 1)
  {
    RunIsCounted(IDLE, run);
  }

  /** How many packets of a kind may be waiting or lost: 16 with data, one START, one STOP. */
  predicate Full(cmd: u16, held: nat) {
    (cmd == 103 && held >= 16) || ((cmd == 101 || cmd == 102) && held >= 1)
  }

  /** How many packets of a kind are waiting and how many are lost after a run, counted from the run alone. */
  function Tally(run: seq<Action>, cmd: u16, waiting: nat, lost: nat): (nat, nat) {
    if run == [] then (waiting, lost)
    else
      match run[0]
      case Arrive(c, stored) =>
        if c != cmd || Full(cmd, waiting + lost) then Tally(run[1..], cmd, waiting, lost)
        else if stored then Tally(run[1..], cmd, waiting + 1, lost)
        else Tally(run[1..], cmd, waiting, lost + 1)
      case Handle(c) =>
        Tally(run[1..], cmd, if c == cmd && waiting > 0 then waiting - 1 else waiting, lost)
  }

  lemma {:induction false} RunTallies(b: Backlog, run: seq<Action>, cmd: u16)
    requires Counted(b) && Possible(b, run)
    ensures var c := Execute(b, run); (c.pending[cmd], c.lost[cmd]) == Tally(run, cmd, b.pending[cmd], b.lost[cmd])
    decreases |run|
  {
    hide Counted, Do, Enabled;
    if run != [] {
      DoIsCounted(b, run[0]);
      StepTallies(b, run[0], cmd);
      RunTallies(Do(b, run[0]), run[1..], cmd);
    }
  }

  lemma {:induction false} StepTallies(b: Backlog, a: Action, cmd: u16)
    requires Counted(b) && Enabled(b, a)
    ensures var c := Do(b, a); var held := b.pending[cmd] + b.lost[cmd];
      match a
      case Arrive(d, stored) =>
        if d != cmd || Full(cmd, held) then c.pending[cmd] == b.pending[cmd] && c.lost[cmd] == b.lost[cmd]
        else if stored then c.pending[cmd] == b.pending[cmd] + 1 && c.lost[cmd] == b.lost[cmd]
        else c.pending[cmd] == b.pending[cmd] && c.lost[cmd] == b.lost[cmd] + 1
      case Handle(d) =>
        c.lost[cmd] == b.lost[cmd] && (d == cmd ==> b.pending[cmd] > 0)
        && c.pending[cmd] == if d == cmd then b.pending[cmd] - 1 else b.pending[cmd]
  {}

  /** What waits and what is lost, over every run, are what the arrivals and handlers of the run leave. */
  lemma BacklogExactly(run: seq<Action>, cmd: u16)
    requires Possible(IDLE, run)
    ensures var b := Execute(IDLE, run); (b.pending[cmd], b.lost[cmd]) == Tally(run, cmd, 0, 0)
  {
    RunTallies(IDLE, run, cmd);
  }

  lemma {:induction false} LostStaysLost(b: Backlog, run: seq<Action>, cmd: u16)
    requires Possible(b, run)
    ensures Execute(b, run).lost[cmd] >= b.lost[cmd]
    decreases |run|
  {
    if run != [] { LostStaysLost(Do(b, run[0]), run[1..], cmd); }
  }

  /**
    Failed allocations that use up the allowance of a kind block it for good: 16 for data packets,
    a single one for START and for STOP.
   */
  lemma LossesBlockForGood(before: seq<Action>, after: seq<Action>, cmd: u16)
    requires Possible(IDLE, before)
    requires var lost := Execute(IDLE, before).lost[cmd];
      (cmd == 103 && lost == 16) || (cmd == 101 && lost == 1) || (cmd == 102 && lost == 1)
    requires Possible(Execute(IDLE, before), after)
    ensures !Admit(Execute(Execute(IDLE, before), after).counters, cmd).1
  {
    var b := Execute(IDLE, before);
    RunIsCounted(IDLE, before);
    RunIsCounted(b, after);
    LostStaysLost(b, after, cmd);
  }

  datatype Event = Event(cmd: u16, payload: seq<byte>)

  predicate IsIotCmd(cmd: u16) { cmd > IOT_DEVICE_BASE }

  predicate IsNonBlockCmd(cmd: u16) { cmd == IOT_INIT || cmd == ASR_CHALLENGE_PACK || cmd == DAEMON_REBOOT_REQUEST }

  class ChannelState {
    var adpcmPacketCnt: byte
    var rasrStartCnt: byte
    var rasrStopCnt: byte
    var events: seq<Event>
    var nonBlockEvents: seq<Event>
    var iotEvents: seq<Event>

    function TheCounters(): Counters
      reads this
    {
      Counters(adpcmPacketCnt, rasrStartCnt, rasrStopCnt)
    }

    constructor ()
      ensures TheCounters() == IDLE.counters && events == nonBlockEvents == iotEvents == []
    {
      adpcmPacketCnt, rasrStartCnt, rasrStopCnt := 0, 0, 0;
      events, nonBlockEvents, iotEvents := [], [], [];
    }

    method IsMemoryCostPacketLimited(cmd: u16) returns (limited: bool)
      modifies `adpcmPacketCnt
      ensures limited <==> cmd == RASR_DATA_FEED && old(adpcmPacketCnt) >= MAX_DATA_PACKETS
      ensures adpcmPacketCnt == old(adpcmPacketCnt) + (if cmd == RASR_DATA_FEED && !limited then 1 else 0)
    {
      if cmd != RASR_DATA_FEED {
        return false;
      }
      if adpcmPacketCnt >= MAX_DATA_PACKETS {
        return true;
      }
      adpcmPacketCnt := adpcmPacketCnt + 1;
      return false;
    }

    method NeedSkipRasrEvent(cmd: u16) returns (skip: bool)
      modifies `rasrStartCnt, `rasrStopCnt
      ensures skip <==> (cmd == RASR_START && old(rasrStartCnt) != 0) || (cmd == RASR_STOP && old(rasrStopCnt) != 0)
      ensures rasrStartCnt == if cmd == RASR_START && !skip then 1 else old(rasrStartCnt)
      ensures rasrStopCnt == if cmd == RASR_STOP && !skip then 1 else old(rasrStopCnt)
    {
      if cmd == RASR_START {
        if rasrStartCnt != 0 {
          return true;
        }
        rasrStartCnt := 1;
        return false;
      }
      if cmd == RASR_STOP {
        if rasrStopCnt != 0 {
          return true;
        }
        rasrStopCnt := 1;
        return false;
      }
      return false;
    }

    /** A packet from the link; `stored` says whether memory for its copy was found. */
    method ReceivePacket(packet: Event, stored: bool)
      modifies this
      ensures TheCounters() == Admit(old(TheCounters()), packet.cmd).0
      ensures var added := if Admit(old(TheCounters()), packet.cmd).1 && stored then [packet] else [];
        && iotEvents == old(iotEvents) + (if packet.cmd > 1000 then added else [])
        && nonBlockEvents == old(nonBlockEvents) + (if packet.cmd in {100, 107, 108} then added else [])
        && events == old(events) + (if packet.cmd <= 1000 && packet.cmd !in {100, 107, 108} then added else [])
    {
      var limited := IsMemoryCostPacketLimited(packet.cmd);
      if limited {
        return;
      }
      var skip := NeedSkipRasrEvent(packet.cmd);
      if skip || !stored {
        return;
      }
      if IsIotCmd(packet.cmd) {
        iotEvents := iotEvents + [packet];
      } else if IsNonBlockCmd(packet.cmd) {
        nonBlockEvents := nonBlockEvents + [packet];
      } else {
        events := events + [packet];
      }
    }

    /** The counters' part of handling an event; commands above the base go to the callback first. */
    method HandleEvent(cmd: u16)
      modifies `adpcmPacketCnt, `rasrStartCnt, `rasrStopCnt
      ensures TheCounters() == HandledOne(old(TheCounters()), cmd)
    {
      if IsIotCmd(cmd) {
        return;
      }
      if cmd == RASR_START {
        rasrStartCnt := 0;
      } else if cmd == RASR_STOP {
        rasrStopCnt := 0;
      } else if cmd == RASR_DATA_FEED {
        adpcmPacketCnt := (adpcmPacketCnt + 0xff) % 0x100;
      }
    }
  }

  // ---------------------------------------------------------------------------------------
  // Audio
  // ---------------------------------------------------------------------------------------

  function Join(packets: seq<seq<byte>>): seq<byte> {
    if packets == [] then [] else Join(packets[..|packets| - 1]) + packets[|packets| - 1]
  }

  function Sum(credits: seq<nat>): nat {
    if credits == [] then 0 else Sum(credits[..|credits| - 1]) + credits[|credits| - 1]
  }

  lemma JoinSnoc(packets: seq<seq<byte>>, p: seq<byte>)
    ensures Join(packets + [p]) == Join(packets) + p
  {
    assert (packets + [p])[..|packets|] == packets;
  }

  lemma SumNext(credits: seq<nat>, k: nat)
    requires k < |credits|
    ensures Sum(credits[..k + 1]) == Sum(credits[..k]) + credits[k]
  {
    assert credits[..k + 1][..k] == credits[..k];
  }

  /** Refused: bad arguments. Waiting: the credits that were reported are used up before the data. */
  datatype FeedResult = Refused | Finished | Waiting

  class AudioFeeder {
    var remainLen: nat              // credit left, kept from one call to the next
    var submitted: seq<seq<byte>>   // the packets given to the link
    ghost var reported: nat         // the credit last reported
    ghost var sinceQuery: nat       // bytes submitted since then

    ghost predicate Valid()
      reads this
    {
      sinceQuery + remainLen == reported
    }

    constructor ()
      ensures Valid() && remainLen == 0 && submitted == []
    {
      remainLen, submitted, reported, sinceQuery := 0, [], 0, 0;
    }

    /** `credits` are the answers to the queries, in order; a failed query counts as an answer of 0. */
    method FeedAudioData(pcm: array?<byte>, len: int, credits: seq<nat>) returns (result: FeedResult, ghost used: nat)
      requires Valid() && (pcm != null ==> len <= pcm.Length)
      modifies this
      ensures Valid() && used <= |credits|
      ensures result == Refused <==> pcm == null || len == 0
      ensures result == Refused || len < 0 ==> used == 0 && submitted == old(submitted) && remainLen == old(remainLen)
      ensures result != Refused && len > 0 ==> exists packets, done: nat ::
        && submitted == old(submitted) + packets
        && Progress(packets, pcm[..len], done, old(remainLen), credits[..used], remainLen)
        && (result == Finished <==> done == len)
        && (result == Waiting ==> used == |credits| && remainLen == 0)
      ensures result != Refused && old(remainLen) + Sum(credits) >= len ==> result == Finished
    {
      hide Progress;
      if pcm == null || len == 0 {
        return Refused, 0;
      }
      var remain := len;
      var next := 0;
      if len < 0 {
        return Finished, 0; // the loop is not entered
      }
      ghost var packets: seq<seq<byte>>, data, credit := [], pcm[..len], remainLen;
      StartProgress(data, credit, credits[..0]);
      while remain > 0
        invariant Valid() && 0 <= remain <= len && next <= |credits|
        invariant pcm[..len] == data
        invariant submitted == old(submitted) + packets
        invariant Progress(packets, data, len - remain, credit, credits[..next], remainLen)
        decreases |credits| - next, remain
      {
        if remainLen == 0 {
          if next == |credits| {
            CreditSpent(packets, data, len - remain, credit, credits);
            return Waiting, next;
          }
          NextCredit(packets, data, len - remain, credit, credits, next);
          TakeCredit(credits[next]);
          next := next + 1;
        }
        var pushLen := if remainLen < remain then remainLen else remain;
        pushLen := if MAX_CHUNK < pushLen then MAX_CHUNK else pushLen;
        var from, to := len - remain, len - remain + pushLen;
        var packet := pcm[from..to];
        PrefixSlice(pcm[..], len, from, to);
        assert packet == pcm[..][from..to] && data == pcm[..][..len];
        NextPacket(packets, data, from, credit, credits[..next], remainLen, pushLen);
        packets := packets + [packet];
        Push(packet);
        remain := remain - pushLen;
      }
      return Finished, next;
    }

    method TakeCredit(answer: nat)
      requires Valid() && remainLen == 0
      modifies `remainLen, `reported, `sinceQuery
      ensures Valid() && remainLen == answer && reported == answer && sinceQuery == 0
    {
      remainLen := answer;
      reported, sinceQuery := answer, 0;
    }

    method Push(packet: seq<byte>)
      requires Valid() && |packet| <= remainLen
      modifies this
      ensures Valid() && remainLen == old(remainLen) - |packet| && submitted == old(submitted) + [packet]
      ensures reported == old(reported)
    {
      remainLen := remainLen - |packet|;
      sinceQuery := sinceQuery + |packet|;
      submitted := submitted + [packet];
    }
  }

  /** The bytes that may have been sent on the first `j` answers. */
  function Allowed(before: nat, answers: seq<nat>, j: nat): nat
    requires j <= |answers|
  {
    before + Sum(answers[..j])
  }

  /**
    Packet i is as long as can be: it has 512 bytes, or with it the data or the credit answered so
    far is used up; and it does not go beyond what was allowed before the next answer.
   */
  ghost predicate LongAsCanBe(packets: seq<seq<byte>>, len: nat, before: nat, answers: seq<nat>, i: nat)
    requires i < |packets|
  {
    var start, end := |Join(packets[..i])|, |Join(packets[..i + 1])|;
    && (|packets[i]| == 512 || end == len || exists j: nat :: j <= |answers| && Allowed(before, answers, j) == end)
    && forall j: nat :: j <= |answers| ==> Allowed(before, answers, j) <= start || end <= Allowed(before, answers, j)
  }

  /** `packets` carry exactly the first `done` bytes of `data`, as long as can be, and the credit adds up. */
  ghost predicate Progress(packets: seq<seq<byte>>, data: seq<byte>, done: nat,
                           before: nat, answers: seq<nat>, left: nat) {
    && done <= |data|
    && (forall p <- packets :: |p| <= 512)
    && (forall i :: 0 <= i < |packets| ==> LongAsCanBe(packets, |data|, before, answers, i))
    && (forall j: nat :: j < |answers| ==> Allowed(before, answers, j) <= done)
    && Join(packets) == data[..done]
    && before + Sum(answers) == done + left
  }

  lemma PrefixSlice(s: seq<byte>, len: nat, from: nat, to: nat)
    requires from <= to <= len <= |s|
    ensures s[..len][from..to] == s[from..to]
  {}

  lemma StartProgress(data: seq<byte>, before: nat, answers: seq<nat>)
    requires answers == []
    ensures Progress([], data, 0, before, answers, before)
  {}

  lemma CreditSpent(packets: seq<seq<byte>>, data: seq<byte>, done: nat, before: nat, credits: seq<nat>)
    requires Progress(packets, data, done, before, credits[..|credits|], 0) && done < |data|
    ensures before + Sum(credits) < |data|
  {
    assert credits[..|credits|] == credits;
  }

  lemma NextCredit(packets: seq<seq<byte>>, data: seq<byte>, done: nat, before: nat, credits: seq<nat>, next: nat)
    requires next < |credits| && Progress(packets, data, done, before, credits[..next], 0)
    ensures Progress(packets, data, done, before, credits[..next + 1], credits[next])
  {
    SumNext(credits, next);
    var answers, more := credits[..next], credits[..next + 1];
    SameAllowed(before, answers, more);
    assert answers[..next] == answers && more[..next + 1] == more;
    forall i | 0 <= i < |packets| ensures LongAsCanBe(packets, |data|, before, more, i) {
      JoinGrows(packets, i);
      MoreAnswers(packets, |data|, before, answers, more, i);
    }
  }

  lemma SameAllowed(before: nat, answers: seq<nat>, more: seq<nat>)
    requires answers <= more
    ensures forall j: nat :: j <= |answers| ==> Allowed(before, more, j) == Allowed(before, answers, j)
  {
    assert forall j: nat :: j <= |answers| ==> answers[..j] == more[..j];
  }

  lemma {:induction false} JoinGrows(packets: seq<seq<byte>>, i: nat)
    requires i < |packets|
    ensures |Join(packets[..i])| <= |Join(packets[..i + 1])| <= |Join(packets)|
    decreases |packets|
  {
    assert packets[..i + 1][..i] == packets[..i];
    var k := |packets| - 1;
    if i < k {
      JoinGrows(packets[..k], i);
      assert packets[..k][..i + 1] == packets[..i + 1];
    } else {
      assert packets[..i + 1] == packets;
    }
  }

  lemma MoreAnswers(packets: seq<seq<byte>>, len: nat, before: nat, answers: seq<nat>, more: seq<nat>, i: nat)
    requires i < |packets| && LongAsCanBe(packets, len, before, answers, i)
    requires answers <= more && |more| == |answers| + 1
    requires |Join(packets[..i + 1])| <= Allowed(before, more, |more|)
    ensures LongAsCanBe(packets, len, before, more, i)
  {
    SameAllowed(before, answers, more);
    var end := |Join(packets[..i + 1])|;
    if j: nat :| j <= |answers| && Allowed(before, answers, j) == end { assert Allowed(before, more, j) == end; }
    forall j: nat | j <= |more|
      ensures Allowed(before, more, j) <= |Join(packets[..i])| || end <= Allowed(before, more, j)
    {
      if j <= |answers| { assert Allowed(before, more, j) == Allowed(before, answers, j); }
    }
  }

  lemma NextPacket(packets: seq<seq<byte>>, data: seq<byte>, done: nat,
                   before: nat, answers: seq<nat>, left: nat, n: nat)
    requires Progress(packets, data, done, before, answers, left)
    requires n <= 512 && n <= left && done + n <= |data| && (n == 512 || n == left || done + n == |data|)
    ensures Progress(packets + [data[done..done + n]], data, done + n, before, answers, left - n)
  {
    var packet := data[done..done + n];
    var all := packets + [packet];
    JoinSnoc(packets, packet);
    assert data[..done + n] == data[..done] + packet;
    forall i | 0 <= i < |all| ensures LongAsCanBe(all, |data|, before, answers, i) {
      if i < |packets| {
        assert LongAsCanBe(packets, |data|, before, answers, i);
        assert all[..i + 1] == packets[..i + 1] && all[..i] == packets[..i];
      } else {
        LastIsLong(packets, packet, data, done, before, answers, left);
      }
    }
  }

  lemma LastIsLong(packets: seq<seq<byte>>, packet: seq<byte>, data: seq<byte>, done: nat,
                   before: nat, answers: seq<nat>, left: nat)
    requires |Join(packets)| == done && before + Sum(answers) == done + left && |packet| <= left
    requires |packet| == 512 || |packet| == left || done + |packet| == |data|
    requires forall j: nat :: j < |answers| ==> Allowed(before, answers, j) <= done
    ensures LongAsCanBe(packets + [packet], |data|, before, answers, |packets|)
  {
    var all, n := packets + [packet], |answers|;
    JoinSnoc(packets, packet);
    assert all[..|packets| + 1] == all && all[..|packets|] == packets;
    assert answers[..n] == answers;
    assert Allowed(before, answers, n) == done + left;
    forall j: nat | j <= n
      ensures Allowed(before, answers, j) <= done || done + |packet| <= Allowed(before, answers, j)
    {
      if j < n { assert Allowed(before, answers, j) <= done; }
    }
  }

  /** If every answer is positive, as many answers as bytes are enough to finish. */
  lemma {:induction false} PositiveCreditSuffices(credits: seq<nat>)
    requires forall c <- credits :: c > 0
    ensures Sum(credits) >= |credits|
    decreases |credits|
  {
    if credits != [] {
      var k := |credits| - 1;
      assert credits[k] in credits && forall c <- credits[..k] :: c in credits;
      PositiveCreditSuffices(credits[..k]);
    }
  }
}
