/**
  The two tasks on the ring buffer: one keeps or drops each chunk read from the UART, the other
  drains the ring into the receive machine. They share the ring without a lock; a run is any
  interleaving of their steps, with every copy split into single bytes and memory sequentially
  consistent.
 */
module UartTasks {
  import opened Bits
  import opened RingBuffer
  import opened Receiver

  const RING_CAPACITY := 1024
  const MAX_CHUNK := 256
  const LOCAL_SIZE := 128

  datatype Producer =
    | Reading
    | Got(chunk: seq<byte>)
    | Checked(chunk: seq<byte>)
    | Copying(chunk: seq<byte>, copied: nat)

  datatype Consumer =
    | Polling
    | Measured(n: nat)
    | Taking(n: nat, copied: nat)
    | Feeding(n: nat)

  /** A chunk that came in, and whether it was put in the ring. */
  datatype Offer = Offer(chunk: seq<byte>, kept: bool)

  datatype State = State(
    buf: seq<byte>, head: nat, tail: nat,
    producer: Producer,
    consumer: Consumer, local: seq<byte>,
    offers: seq<Offer>,
    parsed: seq<byte>) // everything given to the receive machine

  datatype Action =
    | Arrive(chunk: seq<byte>) | Check | CheckAgain | PutByte | Publish
    | Measure | CheckRead | TakeByte | Release | Feed

  predicate Shape(s: State) { s.head < |s.buf| && s.tail < |s.buf| }

  function DataSize(s: State): nat
    requires Shape(s)
  {
    DataSizeOf(s.head, s.tail, |s.buf|)
  }

  function FreeSize(s: State): int
    requires Shape(s)
  {
    |s.buf| - DataSize(s) - 1
  }

  predicate Enabled(s: State, a: Action) {
    && Shape(s) && |s.local| == LOCAL_SIZE
    && match a
       case Arrive(chunk) => s.producer.Reading? && 0 < |chunk| <= MAX_CHUNK
       case Check => s.producer.Got?
       case CheckAgain => s.producer.Checked?
       case PutByte => s.producer.Copying? && s.producer.copied < |s.producer.chunk| && s.producer.copied < |s.buf|
       case Publish => s.producer.Copying? && s.producer.copied == |s.producer.chunk|
       case Measure => s.consumer.Polling?
       case CheckRead => s.consumer.Measured?
       case TakeByte =>
         && s.consumer.Taking? && s.consumer.copied < s.consumer.n
         && s.consumer.copied < LOCAL_SIZE && s.consumer.copied < |s.buf|
       case Release => s.consumer.Taking? && s.consumer.copied == s.consumer.n
       case Feed => s.consumer.Feeding? && s.consumer.n <= LOCAL_SIZE
  }

  function Do(s: State, a: Action): State
    requires Enabled(s, a)
  {
    match a
    case Arrive(chunk) => s.(producer := Got(chunk))
    case Check =>
      if FreeSize(s) > |s.producer.chunk| then s.(producer := Checked(s.producer.chunk)) else Dropped(s)
    case CheckAgain =>
      if FreeSize(s) < |s.producer.chunk| then Dropped(s) else s.(producer := Copying(s.producer.chunk, 0))
    case PutByte =>
      var k := s.producer.copied;
      s.(buf := s.buf[Wrap(s.head + k, |s.buf|) := s.producer.chunk[k]], producer := Copying(s.producer.chunk, k + 1))
    case Publish =>
      s.(head := (s.head + |s.producer.chunk|) % |s.buf|,
         producer := Reading,
         offers := s.offers + [Offer(s.producer.chunk, true)])
    case Measure =>
      var n := DataSize(s);
      if n == 0 then s else s.(consumer := Measured(if n > LOCAL_SIZE then LOCAL_SIZE else n))
    case CheckRead =>
      s.(consumer := if DataSize(s) < s.consumer.n then Feeding(s.consumer.n) else Taking(s.consumer.n, 0))
    case TakeByte =>
      var k := s.consumer.copied;
      s.(local := s.local[k := s.buf[Wrap(s.tail + k, |s.buf|)]], consumer := Taking(s.consumer.n, k + 1))
    case Release => s.(tail := (s.tail + s.consumer.n) % |s.buf|, consumer := Feeding(s.consumer.n))
    case Feed => s.(parsed := s.parsed + s.local[..s.consumer.n], consumer := Polling)
  }

  /** The chunk is forgotten, with a warning or without. */
  function Dropped(s: State): State
    requires s.producer.Got? || s.producer.Checked?
  {
    s.(producer := Reading, offers := s.offers + [Offer(s.producer.chunk, false)])
  }

  predicate Start(s: State) {
    && |s.buf| == RING_CAPACITY + 1 && s.head == 0 && s.tail == 0
    && s.producer == Reading && s.consumer == Polling && |s.local| == LOCAL_SIZE
    && s.offers == [] && s.parsed == []
  }

  predicate Possible(s: State, run: seq<Action>)
    decreases |run|
  {
    run == [] || (Enabled(s, run[0]) && Possible(Do(s, run[0]), run[1..]))
  }

  function Execute(s: State, run: seq<Action>): State
    requires Possible(s, run)
    decreases |run|
  {
    if run == [] then s else Execute(Do(s, run[0]), run[1..])
  }

  // ---------------------------------------------------------------------------------------
  // The invariant
  // ---------------------------------------------------------------------------------------

  /** The kept chunks, whole and in order. */
  function Kept(offers: seq<Offer>): seq<byte> {
    if offers == [] then []
    else
      var last := offers[|offers| - 1];
      Kept(offers[..|offers| - 1]) + (if last.kept then last.chunk else [])
  }

  function Contents(s: State): seq<byte>
    requires Shape(s)
  {
    DataSizeCases(s.head, s.tail, |s.buf|);
    Slots(s.buf, s.tail, DataSize(s))
  }

  /** Taken out of the ring but not yet parsed. */
  function InHand(s: State): seq<byte>
    requires |s.local| == LOCAL_SIZE
  {
    if s.consumer.Feeding? && s.consumer.n <= LOCAL_SIZE then s.local[..s.consumer.n] else []
  }

  predicate ProducerInv(s: State)
    requires Shape(s)
  {
    match s.producer
    case Reading => true
    case Got(c) => true
    case Checked(c) => |c| < FreeSize(s)
    case Copying(c, k) => k <= |c| <= FreeSize(s) && Slots(s.buf, s.head, k) == c[..k]
  }

  predicate ConsumerInv(s: State)
    requires Shape(s) && |s.local| == LOCAL_SIZE
  {
    match s.consumer
    case Polling => true
    case Measured(n) => 0 < n <= LOCAL_SIZE && n <= DataSize(s)
    case Taking(n, k) => k <= n <= LOCAL_SIZE && n <= DataSize(s) && s.local[..k] == Contents(s)[..k]
    case Feeding(n) => n <= LOCAL_SIZE
  }

  predicate Inv(s: State) {
    && Shape(s) && |s.local| == LOCAL_SIZE && 0 <= FreeSize(s)
    && ProducerInv(s)
    && ConsumerInv(s)
    && Kept(s.offers) == s.parsed + InHand(s) + Contents(s)
  }

  lemma StartInv(s: State)
    requires Start(s)
    ensures Inv(s)
  {
    DataSizeCases(0, 0, |s.buf|);
  }

  lemma DroppedKeeps(s: State)
    requires Inv(s) && (s.producer.Got? || s.producer.Checked?)
    ensures Inv(Dropped(s))
  {
    var t := Dropped(s);
    assert t.offers[..|s.offers|] == s.offers;
    assert Kept(t.offers) == Kept(s.offers) + [];
  }

  /** Where the i-th byte to be read is. */
  function SlotOf(s: State, i: nat): nat { Wrap(s.tail + i, |s.buf|) }

  /** The slot written next is not one the reader may read. */
  lemma PutIsOutside(s: State)
    requires Inv(s) && Enabled(s, PutByte)
    ensures forall i :: 0 <= i < DataSize(s) ==> SlotOf(s, i) != Wrap(s.head + s.producer.copied, |s.buf|)
  {
    DataSizeCases(s.head, s.tail, |s.buf|);
  }

  lemma PutByteKeeps(s: State)
    requires Inv(s) && Enabled(s, PutByte)
    ensures Inv(Do(s, PutByte))
  {
    hide Kept, Slots;
    var t, k, n := Do(s, PutByte), s.producer.copied, |s.buf|;
    DataSizeCases(s.head, s.tail, n);
    PutLeavesContents(s);
    PutExtendsCopy(s);
  }

  lemma PutLeavesContents(s: State)
    requires Inv(s) && Enabled(s, PutByte)
    ensures Contents(Do(s, PutByte)) == Contents(s)
  {
    hide Kept, Slots;
    var t := Do(s, PutByte);
    PutIsOutside(s);
    forall i | 0 <= i < DataSize(s) ensures Contents(t)[i] == Contents(s)[i] {
      SlotAt(s.buf, s.tail, DataSize(s), i);
      SlotAt(t.buf, t.tail, DataSize(s), i);
      assert SlotOf(s, i) != Wrap(s.head + s.producer.copied, |s.buf|);
    }
  }

  lemma PutExtendsCopy(s: State)
    requires Inv(s) && Enabled(s, PutByte)
    ensures var t, k := Do(s, PutByte), s.producer.copied;
      k < |s.producer.chunk| && Slots(t.buf, t.head, k + 1) == s.producer.chunk[..k + 1]
  {
    hide Kept, Slots, Contents;
    var t, k := Do(s, PutByte), s.producer.copied;
    DataSizeCases(s.head, s.tail, |s.buf|);
    forall i | 0 <= i < k + 1 ensures Slots(t.buf, t.head, k + 1)[i] == s.producer.chunk[i] {
      SlotAt(t.buf, t.head, k + 1, i);
      if i < k { SlotAt(s.buf, s.head, k, i); }
    }
  }

  lemma {:induction false} KeptAppend(offers: seq<Offer>, o: Offer)
    ensures Kept(offers + [o]) == Kept(offers) + (if o.kept then o.chunk else [])
  {
    assert (offers + [o])[..|offers|] == offers;
  }

  lemma {:induction false} PublishAdds(s: State)
    requires Inv(s) && Enabled(s, Publish)
    ensures var t := Do(s, Publish);
      && Kept(t.offers) == Kept(s.offers) + s.producer.chunk
      && Shape(t) && Contents(t) == Contents(s) + s.producer.chunk
  {
    hide Kept;
    KeptAppend(s.offers, Offer(s.producer.chunk, true));
    ContentsGrow(s);
  }

  lemma {:induction false} ContentsGrow(s: State)
    requires Shape(s) && s.producer.Copying? && ProducerInv(s) && s.producer.copied == |s.producer.chunk|
    ensures var c, n := s.producer.chunk, |s.buf|; var t := s.(head := (s.head + |c|) % n);
      Shape(t) && Contents(t) == Contents(s) + c
  {
    hide Slots;
    var c, n := s.producer.chunk, |s.buf|;
    var head := (s.head + |c|) % n;
    DataSizeCases(s.head, s.tail, n);
    ModIsWrap(s.head + |c|, n);
    DataSizeCases(head, s.tail, n);
    SlotsSplit(s.buf, s.tail, DataSize(s) + |c|, DataSize(s));
    assert c[..|c|] == c;
  }

  lemma PublishKeeps(s: State)
    requires Inv(s) && Enabled(s, Publish)
    ensures Inv(Do(s, Publish))
  {
    hide Slots, Kept;
    var t, c, n := Do(s, Publish), s.producer.chunk, |s.buf|;
    PublishAdds(s);
    DataSizeCases(s.head, s.tail, n);
    ModIsWrap(s.head + |c|, n);
    DataSizeCases(t.head, t.tail, n);
    assert s.parsed + InHand(s) + (Contents(s) + c) == (s.parsed + InHand(s) + Contents(s)) + c;
    if s.consumer.Taking? { assert Contents(t)[..s.consumer.copied] == Contents(s)[..s.consumer.copied]; }
  }

  lemma TakeByteKeeps(s: State)
    requires Inv(s) && Enabled(s, TakeByte)
    ensures Inv(Do(s, TakeByte))
  {
    var t, k := Do(s, TakeByte), s.consumer.copied;
    DataSizeCases(s.head, s.tail, |s.buf|);
    SlotAt(s.buf, s.tail, DataSize(s), k);
    assert t.local[..k] == s.local[..k];
    assert t.local[..k + 1] == Contents(s)[..k + 1];
  }

  lemma ReleaseKeeps(s: State)
    requires Inv(s) && Enabled(s, Release)
    ensures Inv(Do(s, Release))
  {
    hide Slots;
    var t, m, n := Do(s, Release), s.consumer.n, |s.buf|;
    DataSizeCases(s.head, s.tail, n);
    ModIsWrap(s.tail + m, n);
    DataSizeCases(t.head, t.tail, n);
    SlotsSplit(s.buf, s.tail, DataSize(s), m);
    var taken := s.local[..m];
    assert Contents(s)[..m] == Slots(s.buf, s.tail, m);
    assert Contents(s) == taken + Contents(t);
    assert s.parsed + [] + (taken + Contents(t)) == s.parsed + taken + Contents(t);
  }

  lemma FeedKeeps(s: State)
    requires Inv(s) && Enabled(s, Feed)
    ensures Inv(Do(s, Feed))
  {
    var t := Do(s, Feed);
    assert s.parsed + InHand(s) + Contents(s) == t.parsed + [] + Contents(t);
  }

  lemma SizesSuffice(s: State)
    requires Inv(s)
    ensures s.producer.Checked? || s.producer.Copying? ==> FreeSize(s) >= |s.producer.chunk|
    ensures s.consumer.Measured? || s.consumer.Taking? ==> DataSize(s) >= s.consumer.n
  {}

  lemma DoKeeps(s: State, a: Action)
    requires Inv(s) && Enabled(s, a)
    ensures Inv(Do(s, a))
  {
    hide Slots, Kept;
    match a {
      case Arrive(_) =>
      case Check => if FreeSize(s) <= |s.producer.chunk| { DroppedKeeps(s); }
      case CheckAgain => SizesSuffice(s); NothingCopied(s);
      case PutByte => PutByteKeeps(s);
      case Publish => PublishKeeps(s);
      case Measure =>
      case CheckRead => SizesSuffice(s);
      case TakeByte => TakeByteKeeps(s);
      case Release => ReleaseKeeps(s);
      case Feed => FeedKeeps(s);
    }
  }

  lemma NothingCopied(s: State)
    requires Shape(s)
    ensures Slots(s.buf, s.head, 0) == []
  {}

  lemma {:induction false} RunKeeps(s: State, run: seq<Action>)
    requires Inv(s) && Possible(s, run)
    ensures Inv(Execute(s, run))
    decreases |run|
  {
    hide Inv, Do, Enabled;
    if run != [] {
      DoKeeps(s, run[0]);
      RunKeeps(Do(s, run[0]), run[1..]);
    }
  }

  /**
    Every interleaving: the receive machine has been given a prefix of the kept chunks, each kept
    or dropped whole; what it has not been given yet is in hand or in the ring.
   */
  lemma ParsedIsPrefixOfKept(s: State, run: seq<Action>)
    requires Start(s) && Possible(s, run)
    ensures var t := Execute(s, run);
      && Shape(t) && |t.local| == LOCAL_SIZE
      && t.parsed <= Kept(t.offers)
      && Kept(t.offers) == t.parsed + InHand(t) + Contents(t)
  {
    hide Slots, Kept, Possible, Execute;
    StartInv(s);
    RunKeeps(s, run);
    var t := Execute(s, run);
    assert t.parsed + InHand(t) + Contents(t) == t.parsed + (InHand(t) + Contents(t));
  }

  /**
    Whatever the interleaving, the frames handed over so far are the first of those that the kept
    chunks contain, and all of them once nothing is left in hand or in the ring.
   */
  lemma PipelineFrames(s: State, run: seq<Action>)
    requires Start(s) && Possible(s, run)
    ensures var t := Execute(s, run);
      && Shape(t) && |t.local| == LOCAL_SIZE
      && Run(INITIAL, t.parsed).1 <= Deframe(Kept(t.offers)).events
      && (InHand(t) == [] && DataSize(t) == 0 ==> Run(INITIAL, t.parsed).1 == Deframe(Kept(t.offers)).events)
  {
    hide Possible, Execute, Run, Deframe, Kept, Slots;
    ParsedIsPrefixOfKept(s, run);
    InitiallyIdle();
    var t := Execute(s, run);
    RunIsDeframe(INITIAL, t.parsed);
    DeframeGrows(t.parsed, Kept(t.offers));
    if InHand(t) == [] && DataSize(t) == 0 {
      NothingLeft(t);
      assert t.parsed + [] + [] == t.parsed;
    }
  }

  lemma NothingLeft(s: State)
    requires Shape(s) && DataSize(s) == 0
    ensures Contents(s) == []
  {}

  /**
    Every interleaving: once a chunk has passed the producer's check, it fits the ring at every
    moment until it is published, and the bytes the consumer measured stay readable until they are
    released; so the checks repeated inside write and read succeed, and nothing measured is lost.
   */
  lemma RepeatedChecksSucceed(s: State, run: seq<Action>)
    requires Start(s) && Possible(s, run)
    ensures var t := Execute(s, run);
      && Shape(t)
      && (t.producer.Checked? || t.producer.Copying? ==> FreeSize(t) >= |t.producer.chunk|)
      && (t.consumer.Measured? || t.consumer.Taking? ==> DataSize(t) >= t.consumer.n)
      && (Enabled(t, CheckAgain) ==> Do(t, CheckAgain).producer == Copying(t.producer.chunk, 0))
      && (Enabled(t, CheckRead) ==> Do(t, CheckRead).consumer == Taking(t.consumer.n, 0))
  {
    hide Slots, Kept, Possible, Execute;
    StartInv(s);
    RunKeeps(s, run);
    SizesSuffice(Execute(s, run));
  }

  /** How many bytes have been kept and not yet taken out of the ring. */
  function Waiting(t: State): int
    requires |t.local| == LOCAL_SIZE
  {
    |Kept(t.offers)| - |t.parsed| - |InHand(t)|
  }

  /**
    Every interleaving: a chunk is kept exactly when there is room for it and one byte more, among
    1024; otherwise it is dropped whole, and nothing else changes.
   */
  lemma CheckExactly(s: State, run: seq<Action>)
    requires Start(s) && Possible(s, run) && Enabled(Execute(s, run), Check)
    ensures var t := Execute(s, run); var c, u := t.producer.chunk, Do(t, Check);
      if Waiting(t) + |c| < 1024 then u == t.(producer := Checked(c))
      else u == t.(producer := Reading, offers := t.offers + [Offer(c, false)])
  {
    hide Slots, Kept, Possible, Execute;
    WaitingIsInRing(s, run);
  }

  lemma WaitingIsInRing(s: State, run: seq<Action>)
    requires Start(s) && Possible(s, run)
    ensures var t := Execute(s, run);
      Shape(t) && |t.local| == LOCAL_SIZE && Waiting(t) == DataSize(t) && |t.buf| == 1025
  {
    hide Slots, Kept, Possible, Execute;
    ParsedIsPrefixOfKept(s, run);
    SizeStays(s, run);
    ContentsSize(Execute(s, run));
  }

  lemma {:induction false} SizeStays(s: State, run: seq<Action>)
    requires Possible(s, run)
    ensures |Execute(s, run).buf| == |s.buf|
    decreases |run|
  {
    if run != [] { SizeStays(Do(s, run[0]), run[1..]); }
  }

  lemma ContentsSize(s: State)
    requires Shape(s)
    ensures |Contents(s)| == DataSize(s)
  {}

  /** Every interleaving: a chunk that passed the check, and no other, is kept when its copy is complete. */
  lemma PublishExactly(s: State, run: seq<Action>)
    requires Start(s) && Possible(s, run) && Enabled(Execute(s, run), Publish)
    ensures var t := Execute(s, run); var u := Do(t, Publish);
      && u.producer == Reading && u.offers == t.offers + [Offer(t.producer.chunk, true)]
      && Kept(u.offers) == Kept(t.offers) + t.producer.chunk
      && Shape(u) && Contents(u) == Contents(t) + t.producer.chunk
  {
    hide Slots, Possible, Execute;
    StartInv(s);
    RunKeeps(s, run);
    PublishAdds(Execute(s, run));
  }

  /**
    Every interleaving: the consumer measures the smaller of 128 and what has been kept and not yet
    taken; it finds nothing exactly when all that was kept has been parsed.
   */
  lemma MeasureExactly(s: State, run: seq<Action>)
    requires Start(s) && Possible(s, run) && Enabled(Execute(s, run), Measure)
    ensures var t := Execute(s, run); var n, u := Waiting(t), Do(t, Measure);
      && n >= 0
      && (n == 0 <==> t.parsed == Kept(t.offers))
      && (n == 0 ==> u == t)
      && (n > 0 ==> u == t.(consumer := Measured(if n < 128 then n else 128)))
  {
    hide Slots, Kept, Possible, Execute;
    ParsedIsPrefixOfKept(s, run);
    WaitingIsInRing(s, run);
    var t := Execute(s, run);
    assert t.parsed + [] + Contents(t) == t.parsed + Contents(t);
  }

  /** The chunks that arrive, in order. */
  function Arrived(run: seq<Action>): seq<seq<byte>> {
    if run == [] then [] else (if run[0].Arrive? then [run[0].chunk] else []) + Arrived(run[1..])
  }

  function Chunks(offers: seq<Offer>): (chunks: seq<seq<byte>>)
    ensures |chunks| == |offers|
  {
    seq(|offers|, i requires 0 <= i < |offers| => offers[i].chunk)
  }

  function InProducer(p: Producer): seq<seq<byte>> {
    match p
    case Reading => []
    case Got(c) => [c]
    case Checked(c) => [c]
    case Copying(c, _) => [c]
  }

  lemma {:induction false} StepOffers(s: State, a: Action)
    requires Enabled(s, a)
    ensures var t := Do(s, a);
      Chunks(t.offers) + InProducer(t.producer) == Chunks(s.offers) + InProducer(s.producer) + Arrived([a])
  {
    hide Slots;
    assert [a][1..] == [];
    var t := Do(s, a);
    if t.offers != s.offers {
      var o := t.offers[|s.offers|];
      assert t.offers == s.offers + [o];
      assert Chunks(t.offers) == Chunks(s.offers) + [o.chunk];
    }
  }

  lemma {:induction false} RunOffers(s: State, run: seq<Action>)
    requires Possible(s, run)
    ensures var t := Execute(s, run);
      Chunks(t.offers) + InProducer(t.producer) == Chunks(s.offers) + InProducer(s.producer) + Arrived(run)
    decreases |run|
  {
    hide Do, Enabled, Chunks, InProducer;
    if run == [] {
      assert Chunks(s.offers) + InProducer(s.producer) + [] == Chunks(s.offers) + InProducer(s.producer);
    } else {
      StepOffers(s, run[0]);
      assert [run[0]][1..] == [];
      RunOffers(Do(s, run[0]), run[1..]);
      var before := Chunks(s.offers) + InProducer(s.producer);
      assert before + Arrived([run[0]]) + Arrived(run[1..]) == before + (Arrived([run[0]]) + Arrived(run[1..]));
    }
  }

  /** Every interleaving: each chunk that arrives is decided upon once, in order, except the one in hand. */
  lemma OffersAreArrivals(s: State, run: seq<Action>)
    requires Start(s) && Possible(s, run)
    ensures var t := Execute(s, run); Chunks(t.offers) + InProducer(t.producer) == Arrived(run)
  {
    hide Possible, Execute;
    RunOffers(s, run);
    assert Chunks(s.offers) + InProducer(s.producer) + Arrived(run) == Arrived(run);
  }

  /** No byte is ever stored in a slot that the reader may read. */
  lemma NoSlotWrittenWhileReadable(s: State, run: seq<Action>)
    requires Start(s) && Possible(s, run) && Enabled(Execute(s, run), PutByte)
    ensures var t := Execute(s, run);
      forall i :: 0 <= i < DataSize(t) ==> SlotOf(t, i) != Wrap(t.head + t.producer.copied, |t.buf|)
  {
    hide Slots, Kept, Possible, Execute;
    StartInv(s);
    RunKeeps(s, run);
    PutIsOutside(Execute(s, run));
  }
}
