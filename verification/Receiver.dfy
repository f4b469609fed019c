/**
  The byte-at-a-time receive machine, on values.

  `Step` follows the code: an index, a countdown, a length CRC and a buffer that grows and is
  garbage collected. `Scan` says what it does in terms of the bytes of the current frame alone,
  and `Deframe` says, without any machine, which frames a whole byte stream contains. The
  three are proved to agree on every stream.
 */
module Receiver {
  import opened Bits
  import opened Crc16
  import opened Frames

  const DEFAULT_SIZE := HEADER_SIZE
  const GC_TRIGGER_SIZE := 1024 + HEADER_SIZE
  const MAX_SIZE := 8192

  /** The longest payload that still fits when the last enlargement is made. */
  const MAX_PAYLOAD := 8161

  /** `cur` is the part of the buffer below the index. */
  datatype Parser = Parser(cur: seq<byte>, length: int, lengthCrc: int, capacity: int, hasBuffer: bool)

  /** A frame handed over for processing, or a header whose length CRC was wrong. */
  datatype Event = Frame(bytes: seq<byte>) | BadLength(sequence: byte)

  const INITIAL := Parser([], 0, 0, DEFAULT_SIZE, false)

  // ---------------------------------------------------------------------------------------
  // The machine
  // ---------------------------------------------------------------------------------------

  predicate Overflow(length: int) { length >= MAX_SIZE }

  function Reset(p: Parser): Parser { p.(cur := [], length := 0, lengthCrc := 0) }

  function CollectGarbage(p: Parser): Parser {
    if p.capacity > GC_TRIGGER_SIZE then p.(capacity := DEFAULT_SIZE, hasBuffer := false) else p
  }

  function Allocate(p: Parser): Parser {
    if !p.hasBuffer then p.(hasBuffer := true)
    else if p.capacity <= |p.cur| then p.(capacity := (p.capacity * 2 + HEADER_SIZE) % 0x10000)
    else p
  }

  /** The fields picked out of the header as their bytes go by. */
  function NoteHeaderByte(p: Parser, c: byte): Parser {
    match |p.cur|
    case 12 => p.(length := 0x100 * c)
    case 13 => p.(length := p.length + c)
    case 14 => p.(lengthCrc := 0x100 * c)
    case 15 => p.(lengthCrc := p.lengthCrc + c)
    case _ => p
  }

  function Store(p: Parser, c: byte): Parser {
    if |p.cur| < HEADER_SIZE then p.(cur := p.cur + [c])
    else if p.length > 0 then p.(cur := p.cur + [c], length := p.length - 1)
    else p
  }

  function Step(p: Parser, c: byte): (Parser, seq<Event>) {
    if Overflow(p.capacity) then
      if p.length > 1 then (p.(length := p.length - 1), [])
      else (CollectGarbage(Reset(p)), [])
    else StepInBuffer(Allocate(p), c)
  }

  function StepInBuffer(p: Parser, c: byte): (Parser, seq<Event>) {
    if |p.cur| < |SYNC| then
      (if c == SYNC[|p.cur|] then p.(cur := p.cur + [c]) else Reset(p), [])
    else
      var q := NoteHeaderByte(p, c);
      if |p.cur| == 15 && !LengthAccepted(q.length, q.lengthCrc) then (Reset(q), [BadLength(p.cur[6])])
      else
        var r := Store(q, c);
        if |r.cur| >= HEADER_SIZE && r.length == 0 then (CollectGarbage(Reset(r)), [Frame(r.cur)])
        else (r, [])
  }

  predicate LengthAccepted(length: int, crc: int) {
    0 <= length < 0x10000 && crc == Crc([High(length), Low(length)])
  }

  function Run(p: Parser, s: seq<byte>): (Parser, seq<Event>)
    decreases |s|
  {
    if s == [] then (p, [])
    else
      var (q, first) := Step(p, s[0]);
      var (r, later) := Run(q, s[1..]);
      (r, first + later)
  }

  // ---------------------------------------------------------------------------------------
  // The machine in terms of the bytes of the current frame
  // ---------------------------------------------------------------------------------------

  /** `t` may be the beginning of a frame, and is not yet a whole one. */
  predicate Partial(t: seq<byte>) {
    && (if |t| < |SYNC| then t == SYNC[..|t|] else t[..|SYNC|] == SYNC)
    && (|t| >= HEADER_SIZE ==> LengthCrcValid(t) && |t| < HEADER_SIZE + LengthField(t))
  }

  function Scan(t: seq<byte>, c: byte): (seq<byte>, seq<Event>) {
    var u := t + [c];
    if Partial(u) then (u, [])
    else if |u| < HEADER_SIZE then ([], [])
    else if !LengthCrcValid(u) then ([], [BadLength(u[6])])
    else ([], Delivered(u))
  }

  /** A whole frame is handed over unless its payload is too long for the buffer. */
  function Delivered(f: seq<byte>): seq<Event>
    requires |f| >= HEADER_SIZE
  {
    if LengthField(f) <= MAX_PAYLOAD then [Frame(f)] else []
  }

  function ScanAll(t: seq<byte>, s: seq<byte>): (seq<byte>, seq<Event>)
    decreases |s|
  {
    if s == [] then (t, [])
    else
      var (u, first) := Scan(t, s[0]);
      var (v, later) := ScanAll(u, s[1..]);
      (v, first + later)
  }

  /** The capacities that doubling can reach: 16 * (2^k - 1) for k from 1 to 10. */
  predicate ReachableCapacity(capacity: int) {
    exists k: nat :: 1 <= k <= 10 && capacity == 16 * (Pow2(k) - 1)
  }

  /** The countdown, as the code keeps it, after the bytes `t`. */
  function Countdown(t: seq<byte>): int {
    if |t| <= 12 then 0
    else if |t| == 13 then 0x100 * t[12]
    else if |t| < HEADER_SIZE then BigEndian(t[12], t[13])
    else HEADER_SIZE + LengthField(t) - |t|
  }

  function LengthCrcSoFar(t: seq<byte>): int {
    if |t| < 15 then 0
    else if |t| == 15 then 0x100 * t[14]
    else BigEndian(t[14], t[15])
  }

  /** The bytes that were stored before dropping began. */
  function Stored(t: seq<byte>): seq<byte> {
    if |t| <= HEADER_SIZE + MAX_PAYLOAD then t else t[..HEADER_SIZE + MAX_PAYLOAD]
  }

  /** Parser `p` has taken in exactly `t` since it was last idle. */
  predicate Represents(p: Parser, t: seq<byte>) {
    && Partial(t)
    && p.cur == Stored(t)
    && p.length == Countdown(t)
    && p.lengthCrc == LengthCrcSoFar(t)
    && ReachableCapacity(p.capacity)
    && |p.cur| <= p.capacity
    && (p.capacity > 1008 ==> |t| > (p.capacity - HEADER_SIZE) / 2)
    && (Overflow(p.capacity) <==> |t| >= HEADER_SIZE + MAX_PAYLOAD)
    && (!p.hasBuffer ==> p.capacity == DEFAULT_SIZE && t == [])
  }

  lemma CapacityCases(capacity: int)
    ensures ReachableCapacity(capacity) <==>
      capacity in [16, 48, 112, 240, 496, 1008, 2032, 4080, 8176, 16368]
  {
    assert Pow2(1) == 2 && Pow2(2) == 4 && Pow2(3) == 8 && Pow2(4) == 16 && Pow2(5) == 32;
    assert Pow2(6) == 64 && Pow2(7) == 128 && Pow2(8) == 256 && Pow2(9) == 512 && Pow2(10) == 1024;
  }

  lemma InitiallyIdle()
    ensures Represents(INITIAL, [])
  {
    CapacityCases(DEFAULT_SIZE);
  }

  lemma SyncStep(p: Parser, t: seq<byte>, c: byte)
    requires Represents(p, t) && |t| < |SYNC|
    ensures Represents(Step(p, c).0, Scan(t, c).0) && Step(p, c).1 == Scan(t, c).1
  {
    hide ReachableCapacity, Crc;
    CapacityCases(p.capacity);
  }

  lemma HeaderStep(p: Parser, t: seq<byte>, c: byte)
    requires Represents(p, t) && |SYNC| <= |t| < HEADER_SIZE - 1
    ensures Represents(Step(p, c).0, Scan(t, c).0) && Step(p, c).1 == Scan(t, c).1
  {
    hide ReachableCapacity, Crc, LengthCrcValid;
    CapacityCases(p.capacity);
    var u := t + [c];
    assert u[..|SYNC|] == t[..|SYNC|];
  }

  lemma LastHeaderStep(p: Parser, t: seq<byte>, c: byte)
    requires Represents(p, t) && |t| == HEADER_SIZE - 1
    ensures Represents(Step(p, c).0, Scan(t, c).0) && Step(p, c).1 == Scan(t, c).1
  {
    hide ReachableCapacity, Crc, LengthAccepted, LengthCrcValid;
    CapacityCases(p.capacity);
    var u := t + [c];
    assert u[..|SYNC|] == t[..|SYNC|];
    LengthAcceptedIsValid(u);
  }

  lemma LengthAcceptedIsValid(u: seq<byte>)
    requires |u| == HEADER_SIZE
    ensures LengthAccepted(BigEndian(u[12], u[13]), BigEndian(u[14], u[15])) <==> LengthCrcValid(u)
  {
    hide Crc;
    WordInverse(u[12], u[13]);
  }

  /** Making room for one more byte of a payload. */
  lemma {:induction false} RoomInPayload(p: Parser, t: seq<byte>)
    requires Represents(p, t) && HEADER_SIZE <= |t| < HEADER_SIZE + MAX_PAYLOAD
    ensures !Overflow(p.capacity) && p.cur == t
    ensures var r := Allocate(p);
      && r == p.(capacity := r.capacity) && r.hasBuffer && ReachableCapacity(r.capacity)
      && |t| + 1 <= r.capacity
      && (r.capacity > 1008 ==> |t| + 1 > (r.capacity - HEADER_SIZE) / 2)
      && (Overflow(r.capacity) <==> |t| + 1 >= HEADER_SIZE + MAX_PAYLOAD)
  {
    hide ReachableCapacity, Partial, Countdown, LengthCrcSoFar;
    CapacityCases(p.capacity);
    CapacityCases(Allocate(p).capacity);
  }

  lemma {:induction false} PayloadStep(p: Parser, t: seq<byte>, c: byte)
    requires Represents(p, t) && HEADER_SIZE <= |t| < HEADER_SIZE + MAX_PAYLOAD
    ensures Represents(Step(p, c).0, Scan(t, c).0) && Step(p, c).1 == Scan(t, c).1
  {
    hide ReachableCapacity, LengthCrcValid, Allocate, Crc;
    RoomInPayload(p, t);
    CapacityCases(Allocate(p).capacity);
    CapacityCases(DEFAULT_SIZE);
    SamePrefix(t, c);
  }

  lemma DropStep(p: Parser, t: seq<byte>, c: byte)
    requires Represents(p, t) && HEADER_SIZE + MAX_PAYLOAD <= |t|
    ensures Represents(Step(p, c).0, Scan(t, c).0) && Step(p, c).1 == Scan(t, c).1
  {
    hide ReachableCapacity, Crc;
    CapacityCases(DEFAULT_SIZE);
    SamePrefix(t, c);
  }

  lemma SamePrefix(t: seq<byte>, c: byte)
    requires Partial(t) && |t| >= HEADER_SIZE
    ensures var u := t + [c];
      && u[..|SYNC|] == SYNC && LengthCrcValid(u) && LengthField(u) == LengthField(t)
      && (Partial(u) <==> |u| < HEADER_SIZE + LengthField(t))
  {
    hide Crc;
    assert (t + [c])[..|SYNC|] == t[..|SYNC|];
  }

  /** One byte: the machine and the scanner stay together and report the same. */
  lemma StepIsScan(p: Parser, t: seq<byte>, c: byte)
    requires Represents(p, t)
    ensures Represents(Step(p, c).0, Scan(t, c).0) && Step(p, c).1 == Scan(t, c).1
  {
    if |t| < |SYNC| { SyncStep(p, t, c); }
    else if |t| < HEADER_SIZE - 1 { HeaderStep(p, t, c); }
    else if |t| < HEADER_SIZE { LastHeaderStep(p, t, c); }
    else if |t| < HEADER_SIZE + MAX_PAYLOAD { PayloadStep(p, t, c); }
    else { DropStep(p, t, c); }
  }

  /** Every byte stream: the machine and the scanner stay together and report the same. */
  lemma {:induction false} RunIsScanAll(p: Parser, t: seq<byte>, s: seq<byte>)
    requires Represents(p, t)
    ensures Represents(Run(p, s).0, ScanAll(t, s).0) && Run(p, s).1 == ScanAll(t, s).1
    decreases |s|
  {
    hide Step, Scan, Represents;
    if s != [] {
      StepIsScan(p, t, s[0]);
      RunIsScanAll(Step(p, s[0]).0, Scan(t, s[0]).0, s[1..]);
    }
  }

  /** The buffer, in every state a byte stream can lead to from the start. */
  lemma BufferInvariant(s: seq<byte>)
    ensures var p := Run(INITIAL, s).0; var t := ScanAll([], s).0;
      && ReachableCapacity(p.capacity) && p.capacity < 0x10000
      && |p.cur| <= p.capacity
      && p.cur == Stored(t)
      && (p.capacity > 1040 ==> |p.cur| > 16)
      && (HEADER_SIZE <= |t| ==> 0 < p.length && |t| + p.length == HEADER_SIZE + LengthField(t))
      && (Overflow(p.capacity) <==> |t| >= HEADER_SIZE + MAX_PAYLOAD)
  {
    InitiallyIdle();
    RunIsScanAll(INITIAL, [], s);
    CapacityCases(Run(INITIAL, s).0.capacity);
  }

  // ---------------------------------------------------------------------------------------
  // What a byte stream contains, with no machine
  // ---------------------------------------------------------------------------------------

  datatype Deframed = Deframed(events: seq<Event>, rest: seq<byte>)
  {
    function After(earlier: seq<Event>): Deframed { Deframed(earlier + events, rest) }
  }

  /** How many leading bytes agree with the sync word. */
  function SyncLength(s: seq<byte>): (k: nat)
    ensures k <= |SYNC| && k <= |s| && s[..k] == SYNC[..k]
    ensures k < |SYNC| && k < |s| ==> s[k] != SYNC[k]
  {
    SyncLengthFrom(s, 0)
  }

  function SyncLengthFrom(s: seq<byte>, i: nat): (k: nat)
    requires i <= |SYNC| && i <= |s| && s[..i] == SYNC[..i]
    ensures k <= |SYNC| && k <= |s| && s[..k] == SYNC[..k]
    ensures k < |SYNC| && k < |s| ==> s[k] != SYNC[k]
    decreases |s| - i
  {
    if i < |SYNC| && i < |s| && s[i] == SYNC[i] then SyncLengthFrom(s, i + 1) else i
  }

  /**
    A byte that breaks the sync word is dropped together with what matched before it; a header
    with a bad length CRC is dropped as 16 bytes and reported; a frame takes its declared length.
   */
  function Deframe(s: seq<byte>): Deframed
    decreases |s|
  {
    var k := SyncLength(s);
    if k < |SYNC| then
      if k == |s| then Deframed([], s) else Deframe(s[k + 1..])
    else if |s| < HEADER_SIZE then Deframed([], s)
    else if !LengthCrcValid(s) then Deframe(s[HEADER_SIZE..]).After([BadLength(s[6])])
    else
      var n := HEADER_SIZE + LengthField(s);
      if |s| < n then Deframed([], s) else Deframe(s[n..]).After(Delivered(s[..n]))
  }

  lemma {:induction false} ScanAllAppend(t: seq<byte>, a: seq<byte>, b: seq<byte>)
    ensures var (u, first) := ScanAll(t, a); var (v, later) := ScanAll(u, b);
      ScanAll(t, a + b) == (v, first + later)
    decreases |a|
  {
    hide Scan;
    if a == [] {
      assert a + b == b;
      assert [] + ScanAll(t, b).1 == ScanAll(t, b).1;
    } else {
      var (u, first) := Scan(t, a[0]);
      assert (a + b)[1..] == a[1..] + b;
      ScanAllAppend(u, a[1..], b);
      var middle := ScanAll(u, a[1..]);
      var later := ScanAll(middle.0, b).1;
      assert (first + middle.1) + later == first + (middle.1 + later);
    }
  }

  lemma PartialPrefix(t: seq<byte>, n: nat)
    requires Partial(t) && n <= |t|
    ensures Partial(t[..n])
  {
    hide Crc;
    if n >= |SYNC| { assert t[..n][..|SYNC|] == t[..|SYNC|]; }
  }

  lemma {:induction false} ScanPartial(t: seq<byte>, s: seq<byte>)
    requires Partial(t + s)
    ensures ScanAll(t, s) == (t + s, [])
    decreases |s|
  {
    hide Partial;
    if s == [] {
      assert t + s == t;
    } else {
      assert t + s == (t + [s[0]]) + s[1..];
      assert (t + s)[..|t| + 1] == t + [s[0]];
      PartialPrefix(t + s, |t| + 1);
      ScanPartial(t + [s[0]], s[1..]);
      var (u, first) := Scan(t, s[0]);
      assert first + ScanAll(u, s[1..]).1 == [];
    }
  }

  /** The scanner on a string whose last byte ends what came before it. */
  lemma ScanUpTo(s: seq<byte>, n: nat)
    requires 0 < n <= |s| && Partial(s[..n - 1]) && !Partial(s[..n])
    ensures var (none, event) := Scan(s[..n - 1], s[n - 1]); var (v, later) := ScanAll([], s[n..]);
      && none == [] && ScanAll([], s) == (v, event + later)
      && s[..n - 1] + [s[n - 1]] == s[..n]
  {
    hide Partial, LengthCrcValid, Delivered;
    var a, b := s[..n - 1], s[n - 1..];
    assert a + [s[n - 1]] == s[..n];
    assert [] + a == a;
    ScanPartial([], a);
    ScanAllAppend([], a, b);
    assert s == a + b;
    assert b[1..] == s[n..];
    assert ScanAll([], s) == (ScanAll(a, b).0, [] + ScanAll(a, b).1);
    assert [] + ScanAll(a, b).1 == ScanAll(a, b).1;
  }

  lemma {:induction false} ScanIsDeframe(s: seq<byte>)
    ensures ScanAll([], s) == (Deframe(s).rest, Deframe(s).events)
    decreases |s|
  {
    hide Crc, LengthCrcValid, ScanAll, Delivered;
    var k := SyncLength(s);
    if k < |SYNC| {
      if k == |s| {
        WholeIsPartial(s);
      } else {
        ScanIsDeframe(s[k + 1..]);
        ScanBroken(s, k);
      }
    } else if |s| < HEADER_SIZE {
      WholeIsPartial(s);
    } else if !LengthCrcValid(s) {
      ScanIsDeframe(s[HEADER_SIZE..]);
      ScanHeader(s);
    } else {
      var n := HEADER_SIZE + LengthField(s);
      if |s| < n {
        WholeIsPartial(s);
      } else {
        ScanIsDeframe(s[n..]);
        ScanFrame(s, n);
      }
    }
  }

  lemma {:induction false} ScanBroken(s: seq<byte>, k: nat)
    requires k < |SYNC| && k < |s| && s[..k] == SYNC[..k] && s[k] != SYNC[k]
    ensures ScanAll([], s) == ScanAll([], s[k + 1..])
  {
    hide Partial, Scan, LengthCrcValid, ScanAll;
    SyncBroken(s, k);
    ScanUpTo(s, k + 1);
    assert s[..k + 1 - 1] == s[..k];
    assert [] + ScanAll([], s[k + 1..]).1 == ScanAll([], s[k + 1..]).1;
  }

  lemma {:induction false} ScanHeader(s: seq<byte>)
    requires |s| >= HEADER_SIZE && s[..|SYNC|] == SYNC && !LengthCrcValid(s)
    ensures ScanAll([], s) == (ScanAll([], s[HEADER_SIZE..]).0, [BadLength(s[6])] + ScanAll([], s[HEADER_SIZE..]).1)
  {
    hide Crc, LengthCrcValid, ScanAll;
    HeaderOf(s, HEADER_SIZE - 1);
    HeaderOf(s, HEADER_SIZE);
    ScanUpTo(s, HEADER_SIZE);
  }

  lemma {:induction false} ScanFrame(s: seq<byte>, n: nat)
    requires |s| >= HEADER_SIZE && s[..|SYNC|] == SYNC && LengthCrcValid(s) && n == HEADER_SIZE + LengthField(s) <= |s|
    ensures ScanAll([], s) == (ScanAll([], s[n..]).0, Delivered(s[..n]) + ScanAll([], s[n..]).1)
  {
    hide Crc, LengthCrcValid, ScanAll, Delivered;
    HeaderOf(s, n - 1);
    HeaderOf(s, n);
    ScanUpTo(s, n);
  }

  lemma SyncBroken(s: seq<byte>, k: nat)
    requires k < |SYNC| && k < |s| && s[..k] == SYNC[..k] && s[k] != SYNC[k]
    ensures Partial(s[..k]) && !Partial(s[..k + 1])
    ensures Scan(s[..k], s[k]) == ([], [])
  {
    hide LengthCrcValid;
    var u := s[..k + 1];
    assert s[..k] + [s[k]] == u;
    if k + 1 < |SYNC| { assert SYNC[..k + 1][k] != u[k]; } else { assert u[..|SYNC|][k] != SYNC[k]; }
  }

  lemma WholeIsPartial(s: seq<byte>)
    requires Partial(s)
    ensures ScanAll([], s) == (s, [])
  {
    assert [] + s == s;
    ScanPartial([], s);
  }

  lemma HeaderOf(s: seq<byte>, n: nat)
    requires |SYNC| <= n <= |s| && s[..|SYNC|] == SYNC
    ensures s[..n][..|SYNC|] == SYNC
    ensures n >= HEADER_SIZE ==>
      LengthField(s[..n]) == LengthField(s) && (LengthCrcValid(s[..n]) <==> LengthCrcValid(s))
  {
    hide Crc;
    assert s[..n][..|SYNC|] == s[..|SYNC|];
  }

  /** From any idle state, whatever its buffer, the machine finds in a stream what `Deframe` finds. */
  lemma RunIsDeframe(p: Parser, s: seq<byte>)
    requires Represents(p, [])
    ensures Run(p, s).1 == Deframe(s).events && Represents(Run(p, s).0, Deframe(s).rest)
  {
    RunIsScanAll(p, [], s);
    ScanIsDeframe(s);
  }

  /** Every reachable state whose index is 0 is idle, however large its buffer has grown. */
  lemma ReachableIdle(s: seq<byte>)
    requires Run(INITIAL, s).0.cur == []
    ensures Represents(Run(INITIAL, s).0, []) && Deframe(s).rest == []
  {
    hide Run, Deframe, Partial, ReachableCapacity, Countdown, LengthCrcSoFar;
    InitiallyIdle();
    RunIsDeframe(INITIAL, s);
    assert Represents(Run(INITIAL, s).0, Deframe(s).rest);
  }

  // ---------------------------------------------------------------------------------------
  // Streams put together from pieces
  // ---------------------------------------------------------------------------------------

  lemma DeframeAppend(a: seq<byte>, b: seq<byte>)
    requires Deframe(a).rest == []
    ensures Deframe(a + b) == Deframe(b).After(Deframe(a).events)
  {
    ScanAllAppend([], a, b);
    ScanIsDeframe(a);
    ScanIsDeframe(b);
    ScanIsDeframe(a + b);
  }

  /** More bytes never take back what has been found. */
  lemma DeframeGrows(a: seq<byte>, b: seq<byte>)
    requires a <= b
    ensures Deframe(a).events <= Deframe(b).events
  {
    hide Deframe, ScanAll;
    ScanAllAppend([], a, b[|a|..]);
    assert a + b[|a|..] == b;
    ScanIsDeframe(a);
    ScanIsDeframe(b);
  }

  lemma SyncLengthOfSync(s: seq<byte>)
    requires |s| >= |SYNC| && s[..|SYNC|] == SYNC
    ensures SyncLength(s) == |SYNC|
  {
    assert forall i :: 0 <= i < |SYNC| ==> s[i] == s[..|SYNC|][i];
  }

  lemma {:induction false} SyncLengthAt(s: seq<byte>, i: nat, k: nat)
    requires i <= k < |SYNC| && k < |s| && s[..k] == SYNC[..k] && s[k] != SYNC[k]
    requires s[..i] == SYNC[..i]
    ensures SyncLengthFrom(s, i) == k
    decreases k - i
  {
    if i < k {
      assert s[i] == s[..k][i] == SYNC[..k][i];
      SyncLengthAt(s, i + 1, k);
    }
  }

  lemma DeframeBroken(s: seq<byte>, k: nat)
    requires k < |SYNC| && k < |s| && s[..k] == SYNC[..k] && s[k] != SYNC[k]
    ensures Deframe(s) == Deframe(s[k + 1..])
  {
    SyncLengthAt(s, 0, k);
  }

  lemma DeframeOneFrame(f: seq<byte>)
    requires Delimited(f)
    ensures Deframe(f) == Deframed(Delivered(f), [])
  {
    hide Crc;
    SyncLengthOfSync(f);
    assert f[..|f|] == f && f[|f|..] == [];
    assert Delivered(f) + [] == Delivered(f);
  }

  lemma {:induction false} DeframeGarbage(g: seq<byte>)
    requires SYNC[0] !in g
    ensures Deframe(g) == Deframed([], [])
    decreases |g|
  {
    if g != [] {
      assert g[0] in g;
      assert SyncLength(g) == 0;
      DeframeGarbage(g[1..]);
    }
  }

  /** A piece of a byte stream. */
  datatype Piece =
    | Garbage(bytes: seq<byte>)
    | Whole(bytes: seq<byte>)
  {
    predicate Valid() {
      match this
      case Garbage(g) => SYNC[0] !in g
      case Whole(f) => Delimited(f)
    }

    function Events(): seq<Event>
      requires Valid()
    {
      match this
      case Garbage(_) => []
      case Whole(f) => Delivered(f)
    }
  }

  function Join(pieces: seq<Piece>): seq<byte> {
    if pieces == [] then [] else pieces[0].bytes + Join(pieces[1..])
  }

  function AllEvents(pieces: seq<Piece>): seq<Event>
    requires forall q <- pieces :: q.Valid()
  {
    if pieces == [] then [] else pieces[0].Events() + AllEvents(pieces[1..])
  }

  lemma {:induction false} DeframePieces(pieces: seq<Piece>)
    requires forall q <- pieces :: q.Valid()
    ensures Deframe(Join(pieces)) == Deframed(AllEvents(pieces), [])
    decreases |pieces|
  {
    hide Crc, Deframe;
    if pieces == [] {
      DeframeGarbage([]);
    } else {
      var q := pieces[0];
      assert q in pieces && q.Valid();
      match q {
        case Garbage(g) => DeframeGarbage(g);
        case Whole(f) => DeframeOneFrame(f);
      }
      DeframeAppend(q.bytes, Join(pieces[1..]));
      DeframePieces(pieces[1..]);
    }
  }

  /**
    From any idle state, any interleaving of garbage and frames hands over exactly the frames
    that fit the buffer, in order, skips the longer ones, and ends idle.
   */
  lemma StreamParsing(p: Parser, pieces: seq<Piece>)
    requires Represents(p, [])
    requires forall q <- pieces :: q.Valid()
    ensures Run(p, Join(pieces)).1 == AllEvents(pieces)
    ensures Represents(Run(p, Join(pieces)).0, [])
  {
    hide Crc;
    RunIsDeframe(p, Join(pieces));
    DeframePieces(pieces);
  }

  /** A frame with a payload the buffer cannot hold costs its own bytes and nothing else. */
  lemma OversizeSkipped(f: seq<byte>, post: seq<byte>)
    requires Delimited(f) && LengthField(f) > MAX_PAYLOAD
    ensures Deframe(f + post) == Deframe(post)
  {
    hide Crc;
    DeframeOneFrame(f);
    DeframeAppend(f, post);
    assert [] + Deframe(post).events == Deframe(post).events;
  }

  /** A frame is handed over whole exactly up to 8161 bytes of payload. */
  lemma KeptExactly(p: Parser, f: seq<byte>)
    requires Represents(p, []) && Delimited(f)
    ensures Run(p, f).1 == if |f| <= 16 + 8161 then [Frame(f)] else []
  {
    hide Crc, Represents, Run;
    DeframeOneFrame(f);
    RunIsDeframe(p, f);
  }

  /** The first of the sizes c, 2c + 16, ... that holds n bytes. */
  function Grown(c: int, n: nat): int
    decreases n - c
  {
    if n <= c || c < 0 then c else Grown(2 * c + 16, n)
  }

  lemma {:induction false} RunSnoc(p: Parser, s: seq<byte>, c: byte)
    ensures Run(p, s + [c]).0 == Step(Run(p, s).0, c).0
    decreases |s|
  {
    hide Step;
    if s == [] {
      assert ([] + [c])[1..] == [];
    } else {
      assert (s + [c])[1..] == s[1..] + [c];
      RunSnoc(Step(p, s[0]).0, s[1..], c);
    }
  }

  /** The size comes from making room, unless a frame ends and the buffer is given back. */
  lemma {:induction false} SizeAfterStep(p: Parser, c: byte)
    requires !Overflow(p.capacity)
    ensures var (q, events) := Step(p, c); var room := Allocate(p);
      if events != [] && events[0].Frame?
      then if room.capacity > 1040 then q.capacity == 16 && !q.hasBuffer else q.capacity == room.capacity && q.hasBuffer
      else q.capacity == room.capacity
  {
    hide Crc;
  }

  /** Room is made exactly when the buffer is full. */
  lemma {:induction false} RoomMade(p: Parser, t: seq<byte>)
    requires Represents(p, t) && |t| < HEADER_SIZE + MAX_PAYLOAD
    ensures !Overflow(p.capacity)
    ensures Allocate(p).capacity == if p.hasBuffer && p.capacity <= |t| then 2 * p.capacity + 16 else p.capacity
  {
    hide ReachableCapacity, Partial, Countdown, LengthCrcSoFar;
    CapacityCases(p.capacity);
  }

  /** One more byte of a frame makes the buffer grow exactly when it is full. */
  lemma {:induction false} StepGrows(p: Parser, t: seq<byte>, c: byte)
    requires Represents(p, t) && |t| < HEADER_SIZE + MAX_PAYLOAD && Partial(t + [c])
    ensures Step(p, c).0.capacity == if p.hasBuffer && p.capacity <= |t| then 2 * p.capacity + 16 else p.capacity
  {
    hide Represents, Step, Partial, Allocate, LengthCrcValid;
    RoomMade(p, t);
    SizeAfterStep(p, c);
    StepIsScan(p, t, c);
  }

  lemma {:induction false} GrownNext(c: int, n: nat)
    requires c >= 0
    ensures Grown(c, n + 1) == if Grown(c, n) <= n then 2 * Grown(c, n) + 16 else Grown(c, n)
    decreases n - c
  {
    if n > c { GrownNext(2 * c + 16, n); }
  }

  lemma {:induction false} GrownInside(p: Parser, f: seq<byte>, n: nat)
    requires Represents(p, []) && Delimited(f) && |f| <= HEADER_SIZE + MAX_PAYLOAD && n < |f|
    ensures Represents(Run(p, f[..n]).0, f[..n])
    ensures Run(p, f[..n]).0.capacity == Grown(p.capacity, n)
    decreases n
  {
    hide Represents, Run, Step, Scan, Partial, Delimited, LengthCrcValid;
    BeginningIsPartial(f);
    PartialPrefix(f[..|f| - 1], n);
    assert f[..|f| - 1][..n] == f[..n];
    WholeIsPartial(f[..n]);
    RunIsScanAll(p, [], f[..n]);
    HasBufferInside(p, []);
    if n == 0 {
      NothingRun(p, f[..0]);
    } else {
      GrownInside(p, f, n - 1);
      assert f[..n] == f[..n - 1] + [f[n - 1]];
      RunSnoc(p, f[..n - 1], f[n - 1]);
      StepGrows(Run(p, f[..n - 1]).0, f[..n - 1], f[n - 1]);
      GrownNext(p.capacity, n - 1);
      HasBufferInside(Run(p, f[..n - 1]).0, f[..n - 1]);
    }
  }

  lemma NothingRun(p: Parser, s: seq<byte>)
    requires s == []
    ensures Run(p, s) == (p, [])
  {}

  lemma HasBufferInside(p: Parser, t: seq<byte>)
    requires Represents(p, t)
    ensures t != [] ==> p.hasBuffer
    ensures p.capacity >= 16
  {
    CapacityCases(p.capacity);
  }

  /**
    The buffer after a frame that is handed over: the smallest size the growing comes by that holds
    the frame, kept for the next frames if it is at most 1040, and otherwise given back for 16 bytes.
   */
  lemma BufferAfterFrame(p: Parser, f: seq<byte>)
    requires Represents(p, []) && Delimited(f) && |f| <= 16 + 8161
    ensures var q, grown := Run(p, f).0, Grown(p.capacity, |f|);
      && Represents(q, [])
      && q.capacity == (if grown > 1040 then 16 else grown)
      && (q.hasBuffer <==> grown <= 1040)
  {
    hide Represents, Run, Delimited, Step, LengthCrcValid;
    assert |f| >= HEADER_SIZE by { DelimitedLength(f); }
    var n := |f| - 1;
    GrownInside(p, f, n);
    assert f == f[..n] + [f[n]];
    RunSnoc(p, f[..n], f[n]);
    DeframeOneFrame(f);
    RunIsDeframe(p, f);
    LastByteCollects(Run(p, f[..n]).0, f);
    HasBufferInside(p, []);
    GrownNext(p.capacity, n);
  }

  lemma {:induction false} LastByteCollects(p: Parser, f: seq<byte>)
    requires Delimited(f) && |f| <= HEADER_SIZE + MAX_PAYLOAD && Represents(p, f[..|f| - 1])
    ensures var c := if p.capacity <= |f| - 1 then 2 * p.capacity + 16 else p.capacity;
      var q := Step(p, f[|f| - 1]).0;
      q.capacity == (if c > 1040 then 16 else c) && (q.hasBuffer <==> c <= 1040)
  {
    hide Represents, Step, Scan, Allocate, LengthCrcValid;
    var t := f[..|f| - 1];
    RoomMade(p, t);
    SizeAfterStep(p, f[|f| - 1]);
    StepIsScan(p, t, f[|f| - 1]);
    LastScan(f);
    HasBufferInside(p, t);
  }

  lemma {:induction false} LastScan(f: seq<byte>)
    requires Delimited(f) && LengthField(f) <= MAX_PAYLOAD
    ensures Scan(f[..|f| - 1], f[|f| - 1]).1 == [Frame(f)]
  {
    FrameEndsScan(f[..|f| - 1], f);
  }

  /** Whatever happens to the bytes that do not delimit a frame, only that frame is affected. */
  lemma CorruptionIsLocal(pre: seq<byte>, f: seq<byte>, g: seq<byte>, post: seq<byte>)
    requires Deframe(pre).rest == []
    requires Delimited(f) && |g| == |f|
    requires g[..6] == f[..6] && g[12..HEADER_SIZE] == f[12..HEADER_SIZE]
    ensures Deframe(pre + f + post) == Deframe(post).After(Deframe(pre).events + Delivered(f))
    ensures Deframe(pre + g + post) == Deframe(post).After(Deframe(pre).events + Delivered(g))
    ensures |Delivered(f)| == |Delivered(g)|
  {
    hide Crc, Deframe;
    assert forall i :: 12 <= i < HEADER_SIZE ==> g[i] == g[12..HEADER_SIZE][i - 12] == f[i];
    assert Delimited(g);
    BetweenStreams(pre, f, post);
    BetweenStreams(pre, g, post);
  }

  lemma BetweenStreams(pre: seq<byte>, f: seq<byte>, post: seq<byte>)
    requires Deframe(pre).rest == [] && Delimited(f)
    ensures Deframe(pre + f + post) == Deframe(post).After(Deframe(pre).events + Delivered(f))
  {
    hide Crc, Deframe;
    DeframeOneFrame(f);
    DeframeAppend(f, post);
    DeframeAppend(pre, f + post);
    assert pre + f + post == pre + (f + post);
    var a, b, c := Deframe(pre).events, Delivered(f), Deframe(post).events;
    assert a + (b + c) == (a + b) + c;
  }

  /** A header whose length CRC is wrong costs 16 bytes and is reported with its sequence number. */
  lemma BadLengthSkipped(h: seq<byte>, post: seq<byte>)
    requires |h| == HEADER_SIZE && h[..|SYNC|] == SYNC && !LengthCrcValid(h)
    ensures Deframe(h + post) == Deframe(post).After([BadLength(h[6])])
  {
    hide Crc;
    var s := h + post;
    assert s[..|SYNC|] == h[..|SYNC|];
    SyncLengthOfSync(s);
    assert s[HEADER_SIZE..] == post;
  }

  // ---------------------------------------------------------------------------------------
  // When a frame is found
  // ---------------------------------------------------------------------------------------

  /** Either nothing has ended, or what the scanner holds is shorter than what it was given. */
  lemma {:induction false} ScanRest(t: seq<byte>, s: seq<byte>)
    ensures var (v, events) := ScanAll(t, s);
      (v == t + s && events == []) || |v| < |s|
    decreases |s|
  {
    hide Partial, LengthCrcValid, Delivered;
    if s == [] {
      assert t + s == t;
    } else {
      var (u, first) := Scan(t, s[0]);
      ScanRest(u, s[1..]);
      assert (t + [s[0]]) + s[1..] == t + s;
    }
  }

  /** No frame is handed over that is longer than all the bytes there were. */
  lemma {:induction false} FramesAreContained(t: seq<byte>, s: seq<byte>)
    ensures forall e <- ScanAll(t, s).1 :: e.Frame? ==> |e.bytes| <= |t| + |s|
    decreases |s|
  {
    hide Partial, LengthCrcValid;
    if s != [] { FramesAreContained(Scan(t, s[0]).0, s[1..]); }
  }

  lemma FrameEndsScan(v: seq<byte>, f: seq<byte>)
    requires Delimited(f) && LengthField(f) <= MAX_PAYLOAD
    ensures Scan(v, f[|f| - 1]).1 == [Frame(f)] <==> v == f[..|f| - 1]
  {
    hide Crc;
    var u := v + [f[|f| - 1]];
    assert f == f[..|f| - 1] + [f[|f| - 1]];
    assert u[..|v|] == v;
  }

  lemma BeginningIsPartial(f: seq<byte>)
    requires Delimited(f)
    ensures Partial(f[..|f| - 1])
  {
    HeaderOf(f, |f| - 1);
  }

  /** From any state: the last byte of a frame hands that frame over exactly if its first byte met index 0. */
  lemma FoundInPlace(p: Parser, t: seq<byte>, f: seq<byte>)
    requires Represents(p, t) && Delimited(f) && LengthField(f) <= MAX_PAYLOAD
    ensures Step(Run(p, f[..|f| - 1]).0, f[|f| - 1]).1 == [Frame(f)] <==> t == []
  {
    hide Run, ScanAll, Step, Scan, Represents, Partial, Delimited, LengthCrcValid;
    assert |f| >= HEADER_SIZE by { DelimitedLength(f); }
    var g := f[..|f| - 1];
    var v := ScanAll(t, g).0;
    RunIsScanAll(p, t, g);
    StepIsScan(Run(p, g).0, v, f[|f| - 1]);
    FrameEndsScan(v, f);
    if t == [] {
      BeginningIsPartial(f);
      WholeIsPartial(g);
    } else {
      ScanRest(t, g);
    }
  }

  lemma DelimitedLength(f: seq<byte>)
    requires Delimited(f)
    ensures |f| >= HEADER_SIZE
  {}

  /**
    In every reachable state, whatever came before: a frame that fits the buffer is handed over
    by its own last byte if and only if the index is 0 when its first byte arrives.
   */
  lemma FrameFoundExactly(s: seq<byte>, f: seq<byte>)
    requires Delimited(f) && LengthField(f) <= MAX_PAYLOAD
    ensures |f| >= HEADER_SIZE
    ensures var p := Run(INITIAL, s).0;
      && (Step(Run(p, f[..|f| - 1]).0, f[|f| - 1]).1 == [Frame(f)] <==> p.cur == [])
      && (p.cur == [] <==> Deframe(s).rest == [])
  {
    hide Run, Deframe, Step, Delimited, LengthCrcValid, ReachableCapacity;
    assert |f| >= HEADER_SIZE by { DelimitedLength(f); }
    InitiallyIdle();
    RunIsDeframe(INITIAL, s);
    var t := Deframe(s).rest;
    StoredNothing(Run(INITIAL, s).0, t);
    FoundInPlace(Run(INITIAL, s).0, t, f);
  }

  lemma StoredNothing(p: Parser, t: seq<byte>)
    requires Represents(p, t)
    ensures p.cur == [] <==> t == []
  {}

  /**
    After noise that has left the machine inside a sync word or idle, a frame is handed over if
    and only if the index is 0: otherwise its own sync word breaks the one begun before it.
   */
  lemma FrameAfterNoiseExactly(p: Parser, t: seq<byte>, f: seq<byte>)
    requires Represents(p, t) && |p.cur| < |SYNC| && Delimited(f) && LengthField(f) <= MAX_PAYLOAD
    ensures Frame(f) in Run(p, f).1 <==> p.cur == []
  {
    hide Represents, Run, Crc, LengthCrcValid;
    StoredShort(p, t);
    RunIsScanAll(p, t, f);
    if t == [] {
      DeframeOneFrame(f);
      ScanIsDeframe(f);
    } else {
      assert f[..|SYNC|][0] == SYNC[0];
      assert (t + f)[..|t|] == t == SYNC[..|t|];
      SyncBroken(t + f, |t|);
      assert Scan(t, f[0]) == ([], []);
      FramesAreContained([], f[1..]);
    }
  }

  lemma StoredShort(p: Parser, t: seq<byte>)
    requires Represents(p, t) && |p.cur| < |SYNC|
    ensures p.cur == t && t == SYNC[..|t|]
  {}

  /**
    The byte that breaks a sync word is not tried again as the start of the next one: when k
    bytes of a sync word come just before a frame, the frame's own sync word is lost with them
    and the frame is not handed over.
   */
  lemma BrokenSyncSwallowsNextSync(k: nat, f: seq<byte>, post: seq<byte>)
    requires 0 < k < |SYNC| && Delimited(f)
    ensures Deframe(SYNC[..k] + f + post) == Deframe(f[|SYNC|..] + post)
    ensures Frame(f) !in Deframe(SYNC[..k] + f).events
  {
    hide Deframe, LengthCrcValid;
    BrokenSync(k, f, post);
    BrokenSync(k, f, []);
    assert SYNC[..k] + f + [] == SYNC[..k] + f && f[|SYNC|..] + [] == f[|SYNC|..];
    FramesAreContained([], f[|SYNC|..]);
    ScanIsDeframe(f[|SYNC|..]);
  }

  lemma BrokenSync(k: nat, f: seq<byte>, post: seq<byte>)
    requires 0 < k < |SYNC| && Delimited(f)
    ensures Deframe(SYNC[..k] + f + post) == Deframe(f[|SYNC|..] + post)
  {
    hide Deframe, LengthCrcValid;
    var s := SYNC[..k] + f + post;
    assert f[..|SYNC|][0] == SYNC[0];
    assert s[..k] == SYNC[..k] && s[k] == SYNC[0] != SYNC[k];
    DeframeBroken(s, k);
    var r := f[1..] + post;
    assert s[k + 1..] == r;
    NoSyncByte(f);
    assert r[..5] == f[1..][..5];
    DeframeSkip(r, 5);
    assert r[5..] == f[|SYNC|..] + post;
  }

  lemma NoSyncByte(f: seq<byte>)
    requires |f| >= |SYNC| && f[..|SYNC|] == SYNC
    ensures f[1..][..5] == SYNC[1..]
  {
    assert f[1..][..5] == f[..|SYNC|][1..];
  }

  lemma {:induction false} DeframeSkip(s: seq<byte>, n: nat)
    requires n <= |s| && SYNC[0] !in s[..n]
    ensures Deframe(s) == Deframe(s[n..])
    decreases n
  {
    if n > 0 {
      assert s[..n][0] == s[0];
      assert SyncLength(s) == 0;
      assert s[1..][..n - 1] == s[..n][1..];
      DeframeSkip(s[1..], n - 1);
      assert s[1..][n - 1..] == s[n..];
    }
  }
}
