/**
  The two locks of the sending side: any number of threads call the send function or, receiving,
  answer with control frames. One semaphore admits one application send at a time, the other one
  write to the UART. The counter is read and stored in two steps, and a frame is written byte by
  byte; every interleaving is shown to look like the steps of one endpoint of `Protocol`.
 */
module SendLocks {
  import opened Bits
  import opened Frames
  import opened Receiver
  import opened Link
  import P = Protocol
  import Limits = ProtocolLimits

  datatype Job = Job(cmd: u16, payload: seq<byte>, reliable: bool)
  {
    predicate Valid() { |payload| <= 65519 }
  }

  /** Where a thread is. */
  datatype Thread =
    | Idle
    | Asking(job: Job)                                                // in front of the send lock
    | Entered(job: Job)                                               // holds it
    | Numbering(job: Job, read: byte)                                 // has read the counter
    | Assembled(frame: seq<byte>, reliable: bool)
    | Sending(frame: seq<byte>, reliable: bool, left: nat)            // in front of the write lock
    | Writing(frame: seq<byte>, reliable: bool, left: nat, put: nat)  // holds it
    | Waiting(frame: seq<byte>, left: nat)
    | Leaving                                                         // about to give the send lock back
    | Replying(frame: seq<byte>)                                      // a control frame, at the write lock
    | PuttingReply(frame: seq<byte>, put: nat)

  /** A frame written to its last byte. */
  datatype Done = Data(num: nat, frame: seq<byte>) | Reply(frame: seq<byte>)

  /** The counter, what has been assembled, by number, and how often each was written. */
  datatype Book = Book(sequence: byte, history: seq<Packet>, writes: seq<nat>)

  datatype State = State(
    threads: seq<Thread>,
    sendLock: nat, writeLock: nat,  // semaphores
    book: Book, acked: bool,
    uart: seq<byte>,                // every byte written
    owner: int, writer: int,        // who holds the locks, or -1; the code does not look at these
    done: seq<Done>)

  datatype Action =
    | Call(i: nat, job: Job)
    | Answer(i: nat, packet: Packet)
    | Go(i: nat)
    | AckArrives

  predicate Start(s: State) {
    && (forall t <- s.threads :: t.Idle?)
    && s.sendLock == 1 && s.writeLock == 1 && s.book == Book(0, [], []) && !s.acked && s.uart == []
    && s.owner == -1 && s.writer == -1 && s.done == []
  }

  predicate CanGo(s: State, t: Thread) {
    match t
    case Idle => false
    case Asking(_) => s.sendLock > 0
    case Sending(_, _, _) => s.writeLock > 0
    case Replying(_) => s.writeLock > 0
    case Entered(job) => job.Valid()
    case Numbering(job, _) => job.Valid()
    case Writing(_, _, _, _) => s.book.writes != []
    case _ => true
  }

  predicate Enabled(s: State, a: Action) {
    match a
    case Call(i, job) => i < |s.threads| && s.threads[i].Idle? && job.Valid()
    case Answer(i, packet) => i < |s.threads| && s.threads[i].Idle? && packet.payload == []
    case Go(i) => i < |s.threads| && CanGo(s, s.threads[i])
    case AckArrives => true
  }

  function Do(s: State, a: Action): State
    requires Enabled(s, a)
  {
    match a
    case Call(i, job) => s.(threads := s.threads[i := Asking(job)])
    case Answer(i, packet) => s.(threads := s.threads[i := Replying(Encode(packet))])
    case Go(i) => Shared(s, s.threads[i], i).(threads := s.threads[i := Next(s, s.threads[i])])
    case AckArrives => s.(acked := true)
  }

  function Made(job: Job, read: byte): Packet { DataPacket(read, job.reliable, job.cmd, job.payload) }

  /** Where a thread gets by its next step. */
  function Next(s: State, t: Thread): Thread
    requires CanGo(s, t)
  {
    match t
    case Asking(job) => Entered(job)
    case Entered(job) => if TooLong(|job.payload|) then Leaving else Numbering(job, s.book.sequence)
    case Numbering(job, read) => Assembled(Encode(Made(job, read)), job.reliable)
    case Assembled(frame, reliable) => Sending(frame, reliable, TRY_RESEND_TIMES)
    case Sending(frame, reliable, left) => Writing(frame, reliable, left, 0)
    case Writing(frame, reliable, left, put) =>
      if put < |frame| then Writing(frame, reliable, left, put + 1)
      else if reliable then Waiting(frame, left) else Leaving
    case Waiting(frame, left) => if !s.acked && left > 0 then Sending(frame, true, left - 1) else Leaving
    case Leaving => Idle
    case Replying(frame) => PuttingReply(frame, 0)
    case PuttingReply(frame, put) => if put < |frame| then PuttingReply(frame, put + 1) else Idle
  }

  /** What its step does to what the threads share. */
  function Shared(s: State, t: Thread, i: nat): State
    requires CanGo(s, t)
  {
    match t
    case Asking(_) => s.(sendLock := s.sendLock - 1, owner := i)
    case Entered(_) => s
    case Numbering(job, read) => s.(book := NextNumber(s.book, Made(job, read)))
    case Assembled(_, reliable) => s.(acked := if reliable then false else s.acked)
    case Sending(_, _, _) => s.(writeLock := s.writeLock - 1, writer := i)
    case Writing(frame, _, _, put) =>
      if put < |frame| then
        var u := s.(uart := s.uart + [frame[put]]);
        if put + 1 < |frame| then u
        else u.(book := OneMoreWrite(s.book), done := s.done + [Data(|s.book.writes| - 1, frame)])
      else s.(writeLock := s.writeLock + 1, writer := -1)
    case Waiting(_, _) => s
    case Leaving => s.(sendLock := s.sendLock + 1, owner := -1)
    case Replying(_) => s.(writeLock := s.writeLock - 1, writer := i)
    case PuttingReply(frame, put) =>
      if put < |frame| then
        var u := s.(uart := s.uart + [frame[put]]);
        if put + 1 < |frame| then u else u.(done := s.done + [Reply(frame)])
      else s.(writeLock := s.writeLock + 1, writer := -1)
  }

  function NextNumber(b: Book, p: Packet): Book {
    Book((p.sequence + 1) % 0x100, b.history + [p], b.writes + [0])
  }

  function OneMoreWrite(b: Book): Book
    requires b.writes != []
  {
    b.(writes := b.writes[|b.writes| - 1 := b.writes[|b.writes| - 1] + 1])
  }

  predicate Possible(s: State, run: seq<Action>)
    decreases |run|
  {
    run == [] || (Enabled(s, run[0]) && Possible(Do(s, run[0]), run[1..]))
  }

  function Execute(s: State, run: seq<Action>): State
    requires Possible(s, run)
    decreases |run|
  {
    if run == [] then s else Execute(Do(s, run[0]), run[1..])
  }

  // ---------------------------------------------------------------------------------------
  // The locks
  // ---------------------------------------------------------------------------------------

  predicate InSend(t: Thread) { !t.Idle? && !t.Asking? && !t.Replying? && !t.PuttingReply? }

  predicate InWrite(t: Thread) { t.Writing? || t.PuttingReply? }

  /** Each lock is free, or exactly one thread holds it. */
  predicate LockInv(s: State) {
    && -1 <= s.owner < |s.threads| && -1 <= s.writer < |s.threads|
    && s.sendLock == (if s.owner == -1 then 1 else 0)
    && s.writeLock == (if s.writer == -1 then 1 else 0)
    && forall i :: 0 <= i < |s.threads| ==> Holds(s, i, s.threads[i])
  }

  predicate Holds(s: State, i: nat, t: Thread) {
    (InSend(t) <==> i == s.owner) && (InWrite(t) <==> i == s.writer)
  }

  lemma {:induction false} SharedLocks(s: State, t: Thread, i: nat)
    requires CanGo(s, t)
    ensures var u, t' := Shared(s, t, i), Next(s, t);
      && u.threads == s.threads
      && (if t.Asking? then u.owner == i && u.sendLock == s.sendLock - 1
          else if t.Leaving? then u.owner == -1 && u.sendLock == s.sendLock + 1
          else u.owner == s.owner && u.sendLock == s.sendLock)
      && (if InWrite(t') && !InWrite(t) then u.writer == i && u.writeLock == s.writeLock - 1 && s.writeLock > 0
          else if InWrite(t) && !InWrite(t') then u.writer == -1 && u.writeLock == s.writeLock + 1
          else u.writer == s.writer && u.writeLock == s.writeLock)
      && InSend(t') == (t.Asking? || (InSend(t) && !t.Leaving?))
  {
    hide Encode;
  }

  lemma {:induction false} LockKeeps(s: State, a: Action)
    requires LockInv(s) && Enabled(s, a)
    ensures LockInv(Do(s, a))
  {
    hide Encode, Next, Shared, InSend, InWrite;
    assert !InSend(Idle) && !InWrite(Idle) by { OutsideLocks(Idle); }
    if a.Go? {
      SharedLocks(s, s.threads[a.i], a.i);
      OutsideLocks(s.threads[a.i]);
      assert Holds(s, a.i, s.threads[a.i]);
    } else if !a.AckArrives? {
      OutsideLocks(Do(s, a).threads[a.i]);
      assert Holds(s, a.i, Idle);
    }
    var u := Do(s, a);
    forall j | 0 <= j < |u.threads| ensures Holds(u, j, u.threads[j]) {
      assert Holds(s, j, s.threads[j]);
    }
  }

  lemma {:induction false} OutsideLocks(t: Thread)
    ensures t.Idle? || t.Asking? || t.Replying? ==> !InSend(t) && !InWrite(t)
    ensures t.Leaving? ==> InSend(t) && !InWrite(t)
  {}

  // ---------------------------------------------------------------------------------------
  // The numbers
  // ---------------------------------------------------------------------------------------

  predicate NumberInv(b: Book) {
    && |b.writes| == |b.history| && b.sequence == |b.history| % 0x100
    && (forall n :: 0 <= n < |b.history| ==> b.history[n].sequence == n % 0x100 && |b.history[n].payload| < 0x10000)
    && (forall n :: 0 <= n < |b.writes| ==> b.writes[n] <= TRY_RESEND_TIMES + 1)
  }

  /** The frame is that of the last number given out, written so many times. */
  predicate CarriesLast(b: Book, f: seq<byte>, reliable: bool, written: nat)
    requires NumberInv(b)
  {
    && b.history != [] && f == Encode(b.history[|b.history| - 1]) && b.writes[|b.writes| - 1] == written
    && IsBitSet(b.history[|b.history| - 1].control, ACK) == reliable
  }

  /** What a thread goes by is so. */
  predicate Knows(b: Book, t: Thread)
    requires NumberInv(b)
  {
    match t
    case Idle => true
    case Leaving => true
    case Asking(job) => job.Valid()
    case Entered(job) => job.Valid()
    case Numbering(job, read) => job.Valid() && !TooLong(|job.payload|) && read == b.sequence
    case Assembled(f, r) => CarriesLast(b, f, r, 0)
    case Sending(f, r, left) =>
      && left <= TRY_RESEND_TIMES && (!r ==> left == TRY_RESEND_TIMES)
      && CarriesLast(b, f, r, TRY_RESEND_TIMES - left)
    case Writing(f, r, left, put) =>
      && left <= TRY_RESEND_TIMES && put <= |f| && (!r ==> left == TRY_RESEND_TIMES)
      && CarriesLast(b, f, r, TRY_RESEND_TIMES - left + if put < |f| then 0 else 1)
    case Waiting(f, left) => left <= TRY_RESEND_TIMES && CarriesLast(b, f, true, TRY_RESEND_TIMES + 1 - left)
    case Replying(f) => |f| >= HEADER_SIZE
    case PuttingReply(f, put) => |f| >= HEADER_SIZE && put <= |f|
  }

  predicate ThreadInv(s: State) {
    NumberInv(s.book) && forall t <- s.threads :: Knows(s.book, t)
  }

  lemma {:induction false} NumberGiven(b: Book, job: Job)
    requires NumberInv(b) && job.Valid()
    ensures var p := Made(job, b.sequence); var c := NextNumber(b, p);
      NumberInv(c) && CarriesLast(c, Encode(p), job.reliable, 0)
  {
    hide Encode;
    ControlBits(job.reliable, false, false);
  }

  lemma {:induction false} WriteCounted(b: Book, f: seq<byte>, r: bool, written: nat)
    requires NumberInv(b) && CarriesLast(b, f, r, written) && written <= TRY_RESEND_TIMES
    ensures NumberInv(OneMoreWrite(b)) && CarriesLast(OneMoreWrite(b), f, r, written + 1)
  {
    hide Encode;
  }

  lemma {:induction false} FrameIsLong(b: Book, f: seq<byte>, r: bool, written: nat)
    requires NumberInv(b) && CarriesLast(b, f, r, written)
    ensures |f| >= HEADER_SIZE
  {}

  /** The mover's next place is right, and the numbers still are. */
  lemma {:induction false} MoverKnows(s: State, t: Thread, i: nat)
    requires CanGo(s, t) && NumberInv(s.book) && Knows(s.book, t)
    ensures var b := Shared(s, t, i).book; NumberInv(b) && Knows(b, Next(s, t))
  {
    hide Encode, NumberInv, CarriesLast, TooLong, NextNumber, OneMoreWrite;
    match t {
      case Numbering(job, read) => NumberGiven(s.book, job);
      case Writing(f, r, left, put) =>
        FrameIsLong(s.book, f, r, TRY_RESEND_TIMES - left + if put < |f| then 0 else 1);
        if put + 1 == |f| { WriteCounted(s.book, f, r, TRY_RESEND_TIMES - left); }
      case Sending(f, r, left) => FrameIsLong(s.book, f, r, TRY_RESEND_TIMES - left);
      case _ =>
    }
  }

  /** Only the holder of the send lock changes the numbers, and others do not go by them. */
  lemma {:induction false} BookChanges(s: State, t: Thread, i: nat)
    requires CanGo(s, t)
    ensures Shared(s, t, i).book != s.book ==> InSend(t)
  {}

  lemma {:induction false} OutsideKnows(b: Book, c: Book, t: Thread)
    requires NumberInv(b) && NumberInv(c) && Knows(b, t) && !InSend(t)
    ensures Knows(c, t)
  {}

  lemma {:induction false} ThreadKeeps(s: State, a: Action)
    requires LockInv(s) && ThreadInv(s) && Enabled(s, a)
    ensures ThreadInv(Do(s, a))
  {
    hide Encode, Knows, NumberInv, Next, Shared, InSend, InWrite, CanGo;
    var u := Do(s, a);
    if a.Go? {
      var t := s.threads[a.i];
      assert t in s.threads;
      MoverKnows(s, t, a.i);
      BookChanges(s, t, a.i);
      SharedLocks(s, t, a.i);
      forall j | 0 <= j < |u.threads| ensures Knows(u.book, u.threads[j]) {
        if j != a.i {
          assert s.threads[j] in s.threads && Holds(s, j, s.threads[j]) && Holds(s, a.i, t);
          if u.book != s.book { OutsideKnows(s.book, u.book, s.threads[j]); }
        }
      }
    } else if !a.AckArrives? {
      NewcomerKnows(s, a);
      forall j | 0 <= j < |u.threads| ensures Knows(u.book, u.threads[j]) {
        if j != a.i { assert s.threads[j] in s.threads; }
      }
    }
  }

  lemma {:induction false} NewcomerKnows(s: State, a: Action)
    requires Enabled(s, a) && (a.Call? || a.Answer?) && NumberInv(s.book)
    ensures Do(s, a).book == s.book && Knows(s.book, Do(s, a).threads[a.i])
  {}

  // ---------------------------------------------------------------------------------------
  // The UART
  // ---------------------------------------------------------------------------------------

  function Flatten(done: seq<Done>): seq<byte> {
    if done == [] then [] else Flatten(done[..|done| - 1]) + done[|done| - 1].frame
  }

  /** The bytes of a frame that are out already, unless they are all of it. */
  function BegunBy(t: Thread): seq<byte> {
    match t
    case Writing(f, _, _, put) => if put < |f| then f[..put] else []
    case PuttingReply(f, put) => if put < |f| then f[..put] else []
    case _ => []
  }

  function Begun(s: State): seq<byte> {
    if 0 <= s.writer < |s.threads| then BegunBy(s.threads[s.writer]) else []
  }

  predicate UartInv(s: State) { s.uart == Flatten(s.done) + Begun(s) }

  lemma FlattenAppend(done: seq<Done>, d: Done)
    ensures Flatten(done + [d]) == Flatten(done) + d.frame
  {
    assert (done + [d])[..|done|] == done;
  }

  /** A writer's byte goes behind those of its frame. */
  lemma {:induction false} ByteGoesBehind(s: State, t: Thread, i: nat)
    requires CanGo(s, t) && InWrite(t) && t.put < |t.frame| && s.uart == Flatten(s.done) + BegunBy(t)
    ensures var u := Shared(s, t, i); u.uart == Flatten(u.done) + BegunBy(Next(s, t))
  {
    hide Flatten;
    var f, put := t.frame, t.put;
    assert f[..put] + [f[put]] == f[..put + 1];
    assert f[..|f|] == f;
    FlattenAppend(s.done, if t.Writing? then Data(|s.book.writes| - 1, f) else Reply(f));
  }

  lemma {:induction false} OthersWriteNothing(s: State, t: Thread, i: nat)
    requires CanGo(s, t) && (InWrite(t) ==> t.put >= |t.frame|)
    ensures var u := Shared(s, t, i);
      u.uart == s.uart && u.done == s.done && BegunBy(t) == BegunBy(Next(s, t)) == []
  {
    hide Encode;
  }

  lemma {:induction false} UartKeeps(s: State, a: Action)
    requires LockInv(s) && UartInv(s) && Enabled(s, a)
    ensures UartInv(Do(s, a))
  {
    hide Encode, Next, Shared, Flatten, InSend, InWrite, BegunBy, CanGo;
    LockKeeps(s, a);
    if a.Go? {
      var t := s.threads[a.i];
      assert Holds(s, a.i, t);
      SharedLocks(s, t, a.i);
      PlacesOfWriters(t);
      PlacesOfWriters(Next(s, t));
      if InWrite(t) && t.put < |t.frame| {
        ByteGoesBehind(s, t, a.i);
        StillWrites(s, t);
      } else {
        OthersWriteNothing(s, t, a.i);
      }
    } else if !a.AckArrives? {
      assert Holds(s, a.i, Idle) && Holds(Do(s, a), a.i, Do(s, a).threads[a.i]);
      OutsideLocks(Idle);
    }
  }

  lemma {:induction false} PlacesOfWriters(t: Thread)
    ensures InWrite(t) ==> t.Writing? || t.PuttingReply?
    ensures !InWrite(t) ==> BegunBy(t) == []
  {}

  lemma {:induction false} StillWrites(s: State, t: Thread)
    requires CanGo(s, t) && InWrite(t) && t.put < |t.frame|
    ensures InWrite(Next(s, t))
  {}

  // ---------------------------------------------------------------------------------------
  // What has been written
  // ---------------------------------------------------------------------------------------

  /** How often send `num` has been written to its last byte. */
  function TimesDone(done: seq<Done>, num: nat): nat {
    if done == [] then 0
    else
      var d := done[|done| - 1];
      TimesDone(done[..|done| - 1], num) + (if d.Data? && d.num == num then 1 else 0)
  }

  predicate DoneInv(s: State)
    requires NumberInv(s.book)
  {
    && (forall k :: 0 <= k < |s.done| ==> IsFrameOf(s.book, s.done[k]))
    && (forall j, k :: 0 <= j < k < |s.done| && s.done[j].Data? && s.done[k].Data? ==> s.done[j].num <= s.done[k].num)
    && (forall n :: 0 <= n < |s.book.writes| ==> TimesDone(s.done, n) == s.book.writes[n])
  }

  predicate IsFrameOf(b: Book, d: Done)
    requires NumberInv(b)
  {
    d.Data? ==> d.num < |b.history| && d.frame == Encode(b.history[d.num])
  }

  lemma {:induction false} TimesDoneAppend(done: seq<Done>, d: Done, n: nat)
    ensures TimesDone(done + [d], n) == TimesDone(done, n) + (if d.Data? && d.num == n then 1 else 0)
  {
    assert (done + [d])[..|done|] == done;
  }

  lemma {:induction false} NotYetDone(done: seq<Done>, n: nat)
    requires forall k :: 0 <= k < |done| && done[k].Data? ==> done[k].num < n
    ensures TimesDone(done, n) == 0
    decreases |done|
  {
    if done != [] { NotYetDone(done[..|done| - 1], n); }
  }

  lemma {:induction false} DoneAfterNumber(s: State, p: Packet)
    requires NumberInv(s.book) && DoneInv(s) && NumberInv(NextNumber(s.book, p))
    ensures DoneInv(s.(book := NextNumber(s.book, p)))
  {
    hide Encode, TimesDone;
    var b := NextNumber(s.book, p);
    forall k | 0 <= k < |s.done| ensures IsFrameOf(b, s.done[k]) { assert IsFrameOf(s.book, s.done[k]); }
    forall k | 0 <= k < |s.done| && s.done[k].Data? ensures s.done[k].num < |s.book.history| {
      assert IsFrameOf(s.book, s.done[k]);
    }
    NotYetDone(s.done, |s.book.writes|);
  }

  lemma {:induction false} DoneAfterWrite(s: State, f: seq<byte>, r: bool, written: nat)
    requires NumberInv(s.book) && DoneInv(s) && CarriesLast(s.book, f, r, written) && NumberInv(OneMoreWrite(s.book))
    ensures var d := Data(|s.book.writes| - 1, f);
      DoneInv(s.(book := OneMoreWrite(s.book), done := s.done + [d]))
  {
    hide Encode, TimesDone;
    var d, b := Data(|s.book.writes| - 1, f), OneMoreWrite(s.book);
    var done := s.done + [d];
    forall k | 0 <= k < |done| ensures IsFrameOf(b, done[k]) {
      if k < |s.done| { assert IsFrameOf(s.book, s.done[k]); }
    }
    forall k | 0 <= k < |s.done| && s.done[k].Data? ensures s.done[k].num <= d.num {
      assert IsFrameOf(s.book, s.done[k]);
    }
    forall n | 0 <= n < |b.writes| ensures TimesDone(done, n) == b.writes[n] { TimesDoneAppend(s.done, d, n); }
  }

  lemma {:induction false} DoneAfterReply(s: State, f: seq<byte>)
    requires NumberInv(s.book) && DoneInv(s)
    ensures DoneInv(s.(done := s.done + [Reply(f)]))
  {
    hide Encode, TimesDone, NumberInv;
    var done := s.done + [Reply(f)];
    forall k | 0 <= k < |done| ensures IsFrameOf(s.book, done[k]) {
      if k < |s.done| { assert IsFrameOf(s.book, s.done[k]); }
    }
    forall n | 0 <= n < |s.book.writes| ensures TimesDone(done, n) == s.book.writes[n] {
      TimesDoneAppend(s.done, Reply(f), n);
    }
  }

  lemma {:induction false} SharedDone(s: State, t: Thread, i: nat)
    requires CanGo(s, t) && NumberInv(s.book) && Knows(s.book, t) && DoneInv(s)
    ensures var u := Shared(s, t, i); NumberInv(u.book) && DoneInv(u)
  {
    hide Encode, NumberInv, CarriesLast, NextNumber, OneMoreWrite, DoneInv;
    MoverKnows(s, t, i);
    var u := Shared(s, t, i);
    match t {
      case Numbering(job, read) => DoneAfterNumber(s, Made(job, read));
      case Writing(f, r, left, put) =>
        if put + 1 == |f| {
          DoneAfterWrite(s, f, r, TRY_RESEND_TIMES - left);
          SameDone(s.(book := u.book, done := u.done), u);
        } else {
          SameDone(s, u);
        }
      case PuttingReply(f, put) =>
        if put + 1 == |f| {
          DoneAfterReply(s, f);
          SameDone(s.(done := u.done), u);
        } else {
          SameDone(s, u);
        }
      case _ => SameDone(s, u);
    }
  }

  lemma {:induction false} SameDone(s: State, u: State)
    requires NumberInv(s.book) && DoneInv(s) && u.book == s.book && u.done == s.done
    ensures DoneInv(u)
  {}

  // ---------------------------------------------------------------------------------------
  // Every step, every run
  // ---------------------------------------------------------------------------------------

  ghost predicate Inv(s: State) { LockInv(s) && ThreadInv(s) && UartInv(s) && DoneInv(s) }

  lemma {:induction false} DoKeeps(s: State, a: Action)
    requires Inv(s) && Enabled(s, a)
    ensures Inv(Do(s, a))
  {
    hide LockInv, NumberInv, Knows, UartInv, DoneInv, Next, Shared, CanGo;
    LockKeeps(s, a);
    ThreadKeeps(s, a);
    UartKeeps(s, a);
    if a.Go? {
      assert s.threads[a.i] in s.threads;
      SharedDone(s, s.threads[a.i], a.i);
      SameDone(Shared(s, s.threads[a.i], a.i), Do(s, a));
    } else {
      SameDone(s, Do(s, a));
    }
  }

  lemma {:induction false} RunKeeps(s: State, run: seq<Action>)
    requires Inv(s) && Possible(s, run)
    ensures Inv(Execute(s, run))
    decreases |run|
  {
    hide Inv, Do, Enabled;
    if run != [] {
      DoKeeps(s, run[0]);
      RunKeeps(Do(s, run[0]), run[1..]);
    }
  }

  lemma StartInv(s: State)
    requires Start(s)
    ensures Inv(s)
  {
    forall i | 0 <= i < |s.threads| ensures Holds(s, i, s.threads[i]) { assert s.threads[i] in s.threads; }
  }

  /** The frame a thread is sending. */
  predicate Sends(t: Thread, f: seq<byte>) {
    match t
    case Assembled(g, _) => g == f
    case Sending(g, _, _) => g == f
    case Writing(g, _, _, _) => g == f
    case Waiting(g, _) => g == f
    case _ => false
  }

  /**
    Whatever the interleaving: between assembling a frame and the end of its send the counter stays
    one ahead of the frame's number, the frame stays that of the last number, and no other thread is
    inside a send. So the current number that acknowledgements are compared with is the frame's.
   */
  lemma NumberIsStable(s: State, run: seq<Action>, i: nat, f: seq<byte>)
    requires Start(s) && Possible(s, run)
    requires i < |Execute(s, run).threads| && Sends(Execute(s, run).threads[i], f)
    ensures var u := Execute(s, run); var last := |u.book.history| - 1;
      && 0 <= last && |u.book.history[last].payload| < 0x10000 && f == Encode(u.book.history[last])
      && u.book.history[last].sequence == (u.book.sequence + 0xff) % 0x100
      && forall j :: 0 <= j < |u.threads| && InSend(u.threads[j]) ==> j == i
  {
    hide Encode, UartInv, DoneInv, Possible, Execute;
    StartInv(s);
    RunKeeps(s, run);
    var u := Execute(s, run);
    assert u.threads[i] in u.threads;
    assert Holds(u, i, u.threads[i]);
    forall j | 0 <= j < |u.threads| && InSend(u.threads[j]) ensures j == i { assert Holds(u, j, u.threads[j]); }
  }

  /**
    Whatever the interleaving: the bytes on the UART are whole frames, one after the other, and the
    beginning of at most one more, of the thread that holds the write lock.
   */
  lemma UartCarriesWholeFrames(s: State, run: seq<Action>)
    requires Start(s) && Possible(s, run)
    ensures var u := Execute(s, run);
      && u.uart == Flatten(u.done) + Begun(u)
      && (u.writeLock > 0 ==> u.uart == Flatten(u.done))
  {
    hide Encode, DoneInv, ThreadInv, Flatten, Possible, Execute;
    StartInv(s);
    RunKeeps(s, run);
  }

  /**
    Whatever the interleaving: sends are numbered in order from 0 modulo 256, each write of a send
    carries its frame, all of them come before any of the next send, and there are at most six.
   */
  lemma WritesAreSerial(s: State, run: seq<Action>)
    requires Start(s) && Possible(s, run)
    ensures var u := Execute(s, run);
      && |u.book.writes| == |u.book.history|
      && (forall n :: 0 <= n < |u.book.history| ==>
            u.book.history[n].sequence == n % 0x100 && |u.book.history[n].payload| < 0x10000
            && TimesDone(u.done, n) == u.book.writes[n] <= 6)
      && (forall k :: 0 <= k < |u.done| && u.done[k].Data? ==>
            u.done[k].num < |u.book.history| && u.done[k].frame == Encode(u.book.history[u.done[k].num]))
      && (forall j, k :: 0 <= j < k < |u.done| && u.done[j].Data? && u.done[k].Data? ==> u.done[j].num <= u.done[k].num)
  {
    hide Encode, UartInv, LockInv, Possible, Execute, TimesDone;
    StartInv(s);
    RunKeeps(s, run);
    var u := Execute(s, run);
    forall k | 0 <= k < |u.done| && u.done[k].Data?
      ensures u.done[k].num < |u.book.history| && u.done[k].frame == Encode(u.book.history[u.done[k].num])
    {
      assert IsFrameOf(u.book, u.done[k]);
    }
  }

  // ---------------------------------------------------------------------------------------
  // Calls return
  // ---------------------------------------------------------------------------------------

  /** How many steps a thread has left. */
  function Effort(t: Thread): nat {
    match t
    case Idle => 0
    case Leaving => 1
    case Asking(job) => Rounds(HEADER_SIZE + |job.payload|, TRY_RESEND_TIMES + 1) + 5
    case Entered(job) => Rounds(HEADER_SIZE + |job.payload|, TRY_RESEND_TIMES + 1) + 4
    case Numbering(job, _) => Rounds(HEADER_SIZE + |job.payload|, TRY_RESEND_TIMES + 1) + 3
    case Assembled(f, _) => Rounds(|f|, TRY_RESEND_TIMES + 1) + 2
    case Sending(f, _, left) => Rounds(|f|, left + 1) + 1
    case Writing(f, _, left, put) => Rounds(|f|, left) + (if put < |f| then |f| - put else 0) + 3
    case Waiting(f, left) => Rounds(|f|, left) + 2
    case Replying(f) => |f| + 2
    case PuttingReply(f, put) => (if put < |f| then |f| - put else 0) + 1
  }

  /** The steps of n rounds with a frame: lock, bytes, unlock, wake. */
  function Rounds(length: nat, n: nat): nat {
    if n == 0 then 0 else Rounds(length, n - 1) + length + 3
  }

  function Total(threads: seq<Thread>): nat {
    if threads == [] then 0 else Effort(threads[0]) + Total(threads[1..])
  }

  lemma {:induction false} TotalUpdated(threads: seq<Thread>, i: nat, t: Thread)
    requires i < |threads|
    ensures Total(threads[i := t]) + Effort(threads[i]) == Total(threads) + Effort(t)
    decreases i
  {
    hide Effort;
    if i > 0 {
      TotalUpdated(threads[1..], i - 1, t);
      assert threads[i := t][1..] == threads[1..][i - 1 := t];
    } else {
      assert threads[i := t][1..] == threads[1..];
    }
  }

  lemma {:induction false} MoveTakesEffort(s: State, t: Thread)
    requires CanGo(s, t)
    ensures Effort(Next(s, t)) < Effort(t)
  {
    hide Encode;
    if t.Numbering? {
      assert |Encode(Made(t.job, t.read))| == HEADER_SIZE + |t.job.payload|;
    }
  }

  function Moves(run: seq<Action>): nat {
    if run == [] then 0 else (if run[0].Go? then 1 else 0) + Moves(run[1..])
  }

  /** The effort that new calls and answers bring. */
  function NewEffort(run: seq<Action>): nat {
    if run == [] then 0
    else
      NewEffort(run[1..]) + match run[0]
                            case Call(_, job) => Effort(Asking(job))
                            case Answer(_, packet) => HEADER_SIZE + 2
                            case _ => 0
  }

  lemma {:induction false} StepTakesEffort(s: State, a: Action)
    requires Enabled(s, a)
    ensures Total(Do(s, a).threads) + Moves([a]) <= Total(s.threads) + NewEffort([a])
  {
    hide Encode, Next, Shared, CanGo;
    assert [a][1..] == [];
    match a {
      case Call(i, job) => TotalUpdated(s.threads, i, Asking(job));
      case Answer(i, packet) => TotalUpdated(s.threads, i, Replying(Encode(packet)));
      case Go(i) =>
        TotalUpdated(s.threads, i, Next(s, s.threads[i]));
        MoveTakesEffort(s, s.threads[i]);
      case AckArrives =>
    }
  }

  lemma {:induction false} EffortBound(s: State, run: seq<Action>)
    requires Possible(s, run)
    ensures Moves(run) + Total(Execute(s, run).threads) <= Total(s.threads) + NewEffort(run)
    decreases |run|
  {
    hide Do, Enabled, Total, Effort;
    if run != [] {
      StepTakesEffort(s, run[0]);
      assert [run[0]][1..] == [];
      EffortBound(Do(s, run[0]), run[1..]);
    }
  }

  lemma {:induction false} SomebodyCanGo(s: State, i: nat)
    requires LockInv(s) && ThreadInv(s) && i < |s.threads| && !s.threads[i].Idle?
    ensures exists j :: 0 <= j < |s.threads| && CanGo(s, s.threads[j])
  {
    hide Encode, TooLong;
    assert s.threads[i] in s.threads;
    if s.writer != -1 {
      assert Holds(s, s.writer, s.threads[s.writer]) && s.threads[s.writer] in s.threads;
      assert CanGo(s, s.threads[s.writer]);
    } else if s.owner != -1 {
      assert Holds(s, s.owner, s.threads[s.owner]) && s.threads[s.owner] in s.threads;
      assert CanGo(s, s.threads[s.owner]);
    } else {
      assert Holds(s, i, s.threads[i]);
      assert CanGo(s, s.threads[i]);
    }
  }

  /**
    No deadlock, and every call returns: over every run the threads take boundedly many steps for
    the calls and answers made, and as long as one of them is not idle, one of them can move.
   */
  lemma CallsReturn(s: State, run: seq<Action>)
    requires Start(s) && Possible(s, run)
    ensures var u := Execute(s, run);
      && Moves(run) + Total(u.threads) <= NewEffort(run)
      && ((exists i :: 0 <= i < |u.threads| && CanGo(u, u.threads[i])) <==> exists t <- u.threads :: !t.Idle?)
  {
    hide Encode, Possible, Execute, DoneInv, UartInv, Knows, LockInv;
    StartInv(s);
    RunKeeps(s, run);
    EffortBound(s, run);
    NoEffort(s.threads);
    var u := Execute(s, run);
    if t :| t in u.threads && !t.Idle? {
      var i :| 0 <= i < |u.threads| && u.threads[i] == t;
      SomebodyCanGo(u, i);
    }
    if i :| 0 <= i < |u.threads| && CanGo(u, u.threads[i]) { assert u.threads[i] in u.threads; }
  }

  lemma {:induction false} NoEffort(threads: seq<Thread>)
    requires forall t <- threads :: t.Idle?
    ensures Total(threads) == 0
    decreases |threads|
  {
    if threads != [] {
      assert threads[0] in threads;
      NoEffort(threads[1..]);
    }
  }

  // ---------------------------------------------------------------------------------------
  // Nothing asked for is lost
  // ---------------------------------------------------------------------------------------

  function Times(yes: bool): nat { if yes then 1 else 0 }

  /** Whether a thread has been called with this job and has not assembled its frame yet. */
  predicate HasJob(t: Thread, job: Job) {
    match t
    case Asking(j) => j == job
    case Entered(j) => j == job
    case Numbering(j, _) => j == job
    case _ => false
  }

  /** Whether a thread is to answer with this frame and has not written all of it yet. */
  predicate HasReply(t: Thread, f: seq<byte>) {
    match t
    case Replying(g) => g == f
    case PuttingReply(g, put) => g == f && put < |g|
    case _ => false
  }

  function JobsInside(threads: seq<Thread>, job: Job): nat {
    if threads == [] then 0 else Times(HasJob(threads[0], job)) + JobsInside(threads[1..], job)
  }

  function RepliesInside(threads: seq<Thread>, f: seq<byte>): nat {
    if threads == [] then 0 else Times(HasReply(threads[0], f)) + RepliesInside(threads[1..], f)
  }

  /** How often the packet that a job makes, under any number, has been assembled. */
  function JobsAssembled(history: seq<Packet>, job: Job): nat {
    if history == [] then 0
    else
      var p := history[|history| - 1];
      JobsAssembled(history[..|history| - 1], job)
        + Times(p.cmd == job.cmd && p.payload == job.payload && p.control == if job.reliable then 1 else 0)
  }

  function RepliesWritten(done: seq<Done>, f: seq<byte>): nat {
    if done == [] then 0
    else RepliesWritten(done[..|done| - 1], f) + Times(done[|done| - 1] == Reply(f))
  }

  function TimesCalled(run: seq<Action>, job: Job): nat {
    if run == [] then 0 else Times(run[0].Call? && run[0].job == job) + TimesCalled(run[1..], job)
  }

  function TimesAnswered(run: seq<Action>, f: seq<byte>): nat {
    if run == [] then 0
    else Times(run[0].Answer? && run[0].packet.payload == [] && Encode(run[0].packet) == f) + TimesAnswered(run[1..], f)
  }

  lemma {:induction false} InsideUpdated(threads: seq<Thread>, i: nat, t: Thread, job: Job, f: seq<byte>)
    requires i < |threads|
    ensures JobsInside(threads[i := t], job) + Times(HasJob(threads[i], job))
         == JobsInside(threads, job) + Times(HasJob(t, job))
    ensures RepliesInside(threads[i := t], f) + Times(HasReply(threads[i], f))
         == RepliesInside(threads, f) + Times(HasReply(t, f))
    decreases i
  {
    hide HasJob, HasReply;
    if i > 0 {
      InsideUpdated(threads[1..], i - 1, t, job, f);
      assert threads[i := t][1..] == threads[1..][i - 1 := t];
    } else {
      assert threads[i := t][1..] == threads[1..];
    }
  }

  lemma {:induction false} AssembledAppend(history: seq<Packet>, p: Packet, job: Job)
    ensures JobsAssembled(history + [p], job) == JobsAssembled(history, job)
      + Times(p.cmd == job.cmd && p.payload == job.payload && p.control == if job.reliable then 1 else 0)
  {
    assert (history + [p])[..|history|] == history;
  }

  lemma {:induction false} WrittenAppend(done: seq<Done>, d: Done, f: seq<byte>)
    ensures RepliesWritten(done + [d], f) == RepliesWritten(done, f) + Times(d == Reply(f))
  {
    assert (done + [d])[..|done|] == done;
  }

  /** Jobs assembled or still inside, and replies written or still inside. */
  function Jobs(s: State, job: Job): nat { JobsAssembled(s.book.history, job) + JobsInside(s.threads, job) }

  function Replies(s: State, f: seq<byte>): nat { RepliesWritten(s.done, f) + RepliesInside(s.threads, f) }

  predicate Admitted(job: Job) { |job.payload| < 0x10000 && !TooLong(|job.payload|) }

  /** A step of a thread loses no job and no reply. */
  lemma {:induction false} MoveAccounts(s: State, t: Thread, i: nat, job: Job, f: seq<byte>)
    requires CanGo(s, t) && NumberInv(s.book) && Knows(s.book, t) && Admitted(job)
    ensures var u, t' := Shared(s, t, i), Next(s, t);
      && JobsAssembled(u.book.history, job) + Times(HasJob(t', job))
           == JobsAssembled(s.book.history, job) + Times(HasJob(t, job))
      && RepliesWritten(u.done, f) + Times(HasReply(t', f)) == RepliesWritten(s.done, f) + Times(HasReply(t, f))
  {
    hide Encode, TooLong, NumberInv, CarriesLast, JobsAssembled, RepliesWritten, OneMoreWrite;
    match t {
      case Numbering(j, read) =>
        BitsByValue(0);
        AssembledAppend(s.book.history, Made(j, read), job);
        SameJob(j, job, read);
      case Writing(g, r, left, put) =>
        SameHistory(s.book);
        if put + 1 == |g| { WrittenAppend(s.done, Data(|s.book.writes| - 1, g), f); }
      case PuttingReply(g, put) => if put + 1 == |g| { WrittenAppend(s.done, Reply(g), f); }
      case _ =>
    }
  }

  lemma {:induction false} SameHistory(b: Book)
    requires b.writes != []
    ensures OneMoreWrite(b).history == b.history
  {}

  lemma {:induction false} SameJob(j: Job, job: Job, read: byte)
    ensures var p := Made(j, read);
      (p.cmd == job.cmd && p.payload == job.payload && p.control == if job.reliable then 1 else 0) <==> j == job
  {
    BitsByValue(0);
  }

  lemma {:induction false} StepAccounts(s: State, a: Action, job: Job, f: seq<byte>)
    requires Inv(s) && Enabled(s, a) && Admitted(job)
    ensures Jobs(Do(s, a), job) == Jobs(s, job) + TimesCalled([a], job)
    ensures Replies(Do(s, a), f) == Replies(s, f) + TimesAnswered([a], f)
  {
    hide Encode, TooLong, Next, Shared, CanGo, JobsAssembled, RepliesWritten, JobsInside, RepliesInside;
    hide LockInv, UartInv, DoneInv, NumberInv, Knows;
    assert [a][1..] == [];
    match a {
      case Call(i, j) => InsideUpdated(s.threads, i, Asking(j), job, f);
      case Answer(i, packet) => InsideUpdated(s.threads, i, Replying(Encode(packet)), job, f);
      case Go(i) =>
        var t := s.threads[i];
        assert t in s.threads;
        InsideUpdated(s.threads, i, Next(s, t), job, f);
        MoveAccounts(s, t, i, job, f);
      case AckArrives =>
    }
  }

  lemma {:induction false} RunAccounts(s: State, run: seq<Action>, job: Job, f: seq<byte>)
    requires Inv(s) && Possible(s, run) && Admitted(job)
    ensures Jobs(Execute(s, run), job) == Jobs(s, job) + TimesCalled(run, job)
    ensures Replies(Execute(s, run), f) == Replies(s, f) + TimesAnswered(run, f)
    decreases |run|
  {
    hide Inv, Do, Enabled, Admitted, Jobs, Replies;
    if run != [] {
      StepAccounts(s, run[0], job, f);
      assert [run[0]][1..] == [];
      DoKeeps(s, run[0]);
      RunAccounts(Do(s, run[0]), run[1..], job, f);
    }
  }

  /**
    Over every run nothing asked for is lost or made up: a send that the guard admits has been
    assembled, with its command, payload and control byte, as often as it was called, less the calls
    that have not come to it; and a control frame has been written whole as often as it was to be
    answered, less the answers under way.
   */
  lemma EveryCallCounts(s: State, run: seq<Action>, job: Job, f: seq<byte>)
    requires Start(s) && Possible(s, run) && |job.payload| <= 8175
    ensures var u := Execute(s, run);
      && JobsAssembled(u.book.history, job) + JobsInside(u.threads, job) == TimesCalled(run, job)
      && RepliesWritten(u.done, f) + RepliesInside(u.threads, f) == TimesAnswered(run, f)
  {
    hide Inv, Possible, Execute, TooLong;
    StartInv(s);
    TooLongExactly(|job.payload|);
    RunAccounts(s, run, job, f);
    NobodyInside(s.threads, job, f);
  }

  lemma {:induction false} NobodyInside(threads: seq<Thread>, job: Job, f: seq<byte>)
    requires forall t <- threads :: t.Idle?
    ensures JobsInside(threads, job) == 0 && RepliesInside(threads, f) == 0
    decreases |threads|
  {
    if threads != [] {
      assert threads[0] in threads;
      NobodyInside(threads[1..], job, f);
    }
  }

  // ---------------------------------------------------------------------------------------
  // One endpoint
  // ---------------------------------------------------------------------------------------

  /** The phase of the send a thread is in; a write counts from its last byte on. */
  function PhaseOf(t: Thread): P.Phase {
    match t
    case Assembled(f, r) => P.Prepared(f, r)
    case Sending(f, r, left) => P.Writing(f, r, left)
    case Writing(f, r, left, put) =>
      if put < |f| then P.Writing(f, r, left) else if r then P.Waiting(f, left) else P.Idle
    case Waiting(f, left) => P.Waiting(f, left)
    case _ => P.Idle
  }

  function Phase(s: State): P.Phase {
    if 0 <= s.owner < |s.threads| then PhaseOf(s.threads[s.owner]) else P.Idle
  }

  /** The step of the endpoint that a step of a thread shows as, if any. */
  datatype Shows = Nothing | Shows(action: P.Action)

  function ShownBy(t: Thread): Shows {
    match t
    case Numbering(job, _) => Shows(P.Assemble(job.cmd, job.payload, job.reliable))
    case Assembled(_, _) => Shows(P.Begin)
    case Writing(f, _, _, put) => if put + 1 == |f| then Shows(P.Write) else Nothing
    case Waiting(_, _) => Shows(P.Wake)
    case _ => Nothing
  }

  /** The threads, the two endpoints with their channels, and what the Write steps put on the channel. */
  datatype Joint = Joint(threads: State, world: P.State, put: seq<P.Wire>)

  /** A step of a thread, or one of the rest of the world: the receiving side, the channels, the peer. */
  datatype JointAction = Own(action: Action) | Elsewhere(step: P.Step)

  predicate JointEnabled(j: Joint, a: JointAction) {
    match a
    case Own(action) => Enabled(j.threads, action) && !action.AckArrives?
    case Elsewhere(step) =>
      P.CanStep(j.world, step) && (step.mine ==> step.action.Receive? || step.action.Lose? || step.action.Noise?)
  }

  function Show(world: P.State, shows: Shows): P.State {
    if shows.Shows? && P.Enabled(world, shows.action) then P.Do(world, shows.action) else world
  }

  function PutBy(before: P.State, after: P.State, shows: Shows): seq<P.Wire> {
    if shows == Shows(P.Write) && |before.out| <= |after.out| then after.out[|before.out|..] else []
  }

  function JointDo(j: Joint, a: JointAction): Joint
    requires JointEnabled(j, a)
  {
    match a
    case Own(action) =>
      var shows := if action.Go? then ShownBy(j.threads.threads[action.i]) else Nothing;
      var world := Show(j.world, shows);
      Joint(Do(j.threads, action), world, j.put + PutBy(j.world, world, shows))
    case Elsewhere(step) =>
      var world := P.Apply(j.world, step);
      Joint(j.threads.(acked := world.me.link.acked), world, j.put)
  }

  predicate JointPossible(j: Joint, run: seq<JointAction>)
    decreases |run|
  {
    run == [] || (JointEnabled(j, run[0]) && JointPossible(JointDo(j, run[0]), run[1..]))
  }

  function JointExecute(j: Joint, run: seq<JointAction>): Joint
    requires JointPossible(j, run)
    decreases |run|
  {
    if run == [] then j else JointExecute(JointDo(j, run[0]), run[1..])
  }

  /** The data frames written to their last byte, as the channel has them. */
  function DataWires(done: seq<Done>): seq<P.Wire> {
    if done == [] then []
    else
      var d := done[|done| - 1];
      DataWires(done[..|done| - 1]) + (if d.Data? then [P.Data(d.num, d.frame)] else [])
  }

  lemma {:induction false} DataWiresAppend(done: seq<Done>, d: Done)
    ensures DataWires(done + [d]) == DataWires(done) + (if d.Data? then [P.Data(d.num, d.frame)] else [])
  {
    assert (done + [d])[..|done|] == done;
  }

  lemma {:induction false} OutsidePhase(t: Thread)
    ensures !InSend(t) ==> PhaseOf(t) == P.Idle
  {}

  /** The endpoint is where a thread in a send is. */
  predicate Agrees(p: P.State, phase: P.Phase, b: Book, acked: bool) {
    && p.me.phase == phase && p.me.link.sequence == b.sequence && p.me.link.acked == acked
    && p.me.history == b.history && p.me.writes == b.writes
  }

  lemma {:induction false} NumberingShows(p: P.State, b: Book, job: Job, acked: bool)
    requires Agrees(p, P.Idle, b, acked) && job.Valid() && !TooLong(|job.payload|)
    ensures var made, action := Made(job, b.sequence), P.Assemble(job.cmd, job.payload, job.reliable);
      P.Enabled(p, action) &&
      Agrees(P.Do(p, action), P.Prepared(Encode(made), job.reliable), NextNumber(b, made), acked)
  {
    hide Encode, TooLong;
  }

  lemma {:induction false} BeginShows(p: P.State, b: Book, f: seq<byte>, r: bool, acked: bool)
    requires Agrees(p, P.Prepared(f, r), b, acked)
    ensures P.Enabled(p, P.Begin)
    ensures Agrees(P.Do(p, P.Begin), P.Writing(f, r, TRY_RESEND_TIMES), b, if r then false else acked)
  {}

  lemma {:induction false} WriteShows(p: P.State, b: Book, f: seq<byte>, r: bool, left: nat, acked: bool)
    requires Agrees(p, P.Writing(f, r, left), b, acked) && b.writes != []
    ensures P.Enabled(p, P.Write)
    ensures Agrees(P.Do(p, P.Write), if r then P.Waiting(f, left) else P.Idle, OneMoreWrite(b), acked)
    ensures PutBy(p, P.Do(p, P.Write), Shows(P.Write)) == [P.Data(|b.writes| - 1, f)]
  {}

  lemma {:induction false} WakeShows(p: P.State, b: Book, f: seq<byte>, left: nat, acked: bool)
    requires Agrees(p, P.Waiting(f, left), b, acked) && b.history != []
    ensures P.Enabled(p, P.Wake)
    ensures Agrees(P.Do(p, P.Wake), if !acked && left > 0 then P.Writing(f, true, left - 1) else P.Idle, b, acked)
  {}

  /** What it shows as can happen. */
  predicate CanShow(p: P.State, shows: Shows) { shows.Shows? ==> P.Enabled(p, shows.action) }

  /** The step of the thread inside a send. */
  lemma {:induction false} OwnerShows(s: State, t: Thread, i: nat, p: P.State)
    requires CanGo(s, t) && NumberInv(s.book) && Knows(s.book, t) && InSend(t)
    requires Agrees(p, PhaseOf(t), s.book, s.acked)
    ensures CanShow(p, ShownBy(t))
    ensures var u, q := Shared(s, t, i), Show(p, ShownBy(t));
      && Agrees(q, PhaseOf(Next(s, t)), u.book, u.acked)
      && DataWires(u.done) == DataWires(s.done) + PutBy(p, q, ShownBy(t))
  {
    hide Encode, TooLong, Agrees, NumberInv, NextNumber, OneMoreWrite, DataWires, P.Enabled, P.Do;
    match t {
      case Numbering(job, read) => NumberingShows(p, s.book, job, s.acked);
      case Assembled(f, r) => BeginShows(p, s.book, f, r, s.acked);
      case Writing(f, r, left, put) =>
        if put + 1 == |f| {
          WriteShows(p, s.book, f, r, left, s.acked);
          DataWiresAppend(s.done, Data(|s.book.writes| - 1, f));
        }
      case Sending(f, r, left) => FrameIsLong(s.book, f, r, TRY_RESEND_TIMES - left);
      case Waiting(f, left) => WakeShows(p, s.book, f, left, s.acked);
      case _ =>
    }
  }

  /** Steps outside the sends do not show. */
  lemma {:induction false} OutsideShowsNothing(s: State, t: Thread, i: nat)
    requires CanGo(s, t) && !InSend(t)
    ensures var u := Shared(s, t, i);
      && u.book == s.book && u.acked == s.acked && PhaseOf(t) == PhaseOf(Next(s, t)) == P.Idle
      && ShownBy(t) == Nothing && DataWires(u.done) == DataWires(s.done)
  {
    hide DataWires;
    if t.PuttingReply? { DataWiresAppend(s.done, Reply(t.frame)); }
  }

  /** All the threads together are where the endpoint is, and have written what it has put on the channel. */
  ghost predicate JointInv(j: Joint) {
    && Inv(j.threads) && Agrees(j.world, Phase(j.threads), j.threads.book, j.threads.acked)
    && j.put == DataWires(j.threads.done)
  }

  lemma {:induction false} OwnKeeps(j: Joint, a: Action)
    requires JointInv(j) && JointEnabled(j, Own(a))
    ensures JointInv(JointDo(j, Own(a)))
    ensures a.Go? ==> CanShow(j.world, ShownBy(j.threads.threads[a.i]))
  {
    hide Encode, Knows, NumberInv, UartInv, DoneInv, Next, Shared, CanGo, InSend, InWrite, PhaseOf, DataWires;
    hide ShownBy, Show, PutBy, P.Enabled;
    var s, u := j.threads, Do(j.threads, a);
    var t := s.threads[a.i];
    LockKeeps(s, a);
    DoKeeps(s, a);
    assert t in s.threads && Holds(s, a.i, t) && Holds(u, a.i, u.threads[a.i]);
    OutsidePhase(t);
    OutsidePhase(u.threads[a.i]);
    OutsideLocks(t);
    NothingShows(j.world);
    if a.Go? {
      SharedLocks(s, t, a.i);
      if InSend(t) {
        OwnerShows(s, t, a.i, j.world);
      } else {
        OutsideShowsNothing(s, t, a.i);
      }
    } else {
      OutsideLocks(u.threads[a.i]);
    }
  }

  lemma {:induction false} NothingShows(p: P.State)
    ensures Show(p, Nothing) == p && PutBy(p, p, Nothing) == [] && CanShow(p, Nothing)
  {}

  lemma {:induction false} ElsewhereKeeps(j: Joint, step: P.Step)
    requires JointInv(j) && JointEnabled(j, Elsewhere(step))
    ensures JointInv(JointDo(j, Elsewhere(step)))
  {
    hide DataWires, UartInv, DoneInv, NumberInv, Knows, P.Apply, P.CanStep;
    ElsewhereLeavesSends(j.world, step);
    var b := P.Apply(j.world, step).me.link.acked;
    SameDone(j.threads, j.threads.(acked := b));
    AckedKeepsUart(j.threads, b);
  }

  lemma {:induction false} AckedKeepsUart(s: State, b: bool)
    requires UartInv(s)
    ensures UartInv(s.(acked := b))
  {}

  /** Receiving, losing and noise, and all that the peer does, leave the sends of this side alone. */
  lemma {:induction false} ElsewhereLeavesSends(p: P.State, step: P.Step)
    requires P.CanStep(p, step) && (step.mine ==> step.action.Receive? || step.action.Lose? || step.action.Noise?)
    ensures var q := P.Apply(p, step);
      && q.me.phase == p.me.phase && q.me.link.sequence == p.me.link.sequence
      && q.me.history == p.me.history && q.me.writes == p.me.writes
  {
    hide Handle, P.Received, P.Receivable, Encode;
    if step.mine {
      match step.action {
        case Receive => ReceivedKeepsSequence(p.me.link, p.inn[0].bytes);
        case Noise(e) => HandleKeepsSequence(p.me.link, e);
        case _ =>
      }
    }
  }

  lemma {:induction false} HandleKeepsSequence(link: LinkState, e: Event)
    requires e.Frame? ==> Sized(e.bytes)
    ensures Handle(link, e).0.sequence == link.sequence
  {
    AckedStays(link, e);
  }

  lemma {:induction false} ReceivedKeepsSequence(link: LinkState, f: seq<byte>)
    requires P.Receivable(f)
    ensures P.Received(link, f).0.sequence == link.sequence
  {
    hide Handle;
    if Delivered(f) != [] {
      assert Delivered(f) == [Frame(f)] && Frame(f) in Delivered(f);
      HandleOne(link, Frame(f));
      HandleKeepsSequence(link, Frame(f));
    }
  }

  lemma {:induction false} JointStepIsRun(j: Joint, a: JointAction, tr: P.Trace) returns (longer: P.Trace)
    requires JointInv(j) && JointEnabled(j, a) && tr.Valid() && tr.Last() == j.world
    ensures longer.Valid() && longer.First() == tr.First() && longer.Last() == JointDo(j, a).world
  {
    hide P.IsRun, P.CanStep, P.Apply, P.Enabled, P.Do, Inv, Agrees, Phase, DataWires, ShownBy;
    longer := tr;
    match a {
      case Elsewhere(step) => longer := Limits.Then(tr, step);
      case Own(action) =>
        OwnKeeps(j, action);
        if action.Go? && ShownBy(j.threads.threads[action.i]).Shows? {
          var step := P.Step(true, ShownBy(j.threads.threads[action.i]).action);
          MineIsDo(j.world, step);
          longer := Limits.Then(tr, step);
        }
    }
  }

  lemma {:induction false} MineIsDo(p: P.State, step: P.Step)
    requires step.mine && P.Enabled(p, step.action)
    ensures P.CanStep(p, step) && P.Apply(p, step) == P.Do(p, step.action)
  {}

  lemma {:induction false} JointRunIsRun(j: Joint, run: seq<JointAction>, tr: P.Trace) returns (longer: P.Trace)
    requires JointInv(j) && JointPossible(j, run) && tr.Valid() && tr.Last() == j.world
    ensures longer.Valid() && longer.First() == tr.First() && longer.Last() == JointExecute(j, run).world
    ensures JointInv(JointExecute(j, run))
    decreases |run|
  {
    hide JointInv, JointEnabled, JointDo, P.IsRun;
    longer := tr;
    if run != [] {
      var next := JointStepIsRun(j, run[0], tr);
      if run[0].Own? { OwnKeeps(j, run[0].action); } else { ElsewhereKeeps(j, run[0].step); }
      longer := JointRunIsRun(JointDo(j, run[0]), run[1..], next);
    }
  }

  /**
    Every interleaving of all the threads with everything else - the receiving side, losses and
    noise on the channels, the other endpoint - is a run of `Protocol`, in which this endpoint sends
    one frame after the other. It ends where the threads are, and its Write steps have put exactly the
    data frames on the channel that the threads have written to the UART, in that order.
   */
  lemma {:induction false} ThreadsAreOneEndpoint(s: State, run: seq<JointAction>) returns (tr: P.Trace)
    requires Start(s) && JointPossible(Joint(s, P.START, []), run)
    ensures tr.Valid() && tr.First() == P.START
    ensures var j := JointExecute(Joint(s, P.START, []), run);
      && tr.Last() == j.world
      && Agrees(j.world, Phase(j.threads), j.threads.book, j.threads.acked)
      && j.put == DataWires(j.threads.done)
  {
    hide Inv, JointPossible, JointExecute, P.IsRun;
    StartInv(s);
    Limits.Begins(P.START);
    tr := JointRunIsRun(Joint(s, P.START, []), run, P.Trace([P.START], []));
  }
}
