/**
  The byte ring buffer: one slot more than the requested capacity, a head where the next byte is
  written and a tail where the next byte is read. It refines a bounded byte queue.
 */
module RingBuffer {
  import opened Bits

  // ---------------------------------------------------------------------------------------
  // Positions on the ring
  // ---------------------------------------------------------------------------------------

  /** A position at most once past the end comes back to the beginning. */
  function Wrap(i: nat, size: nat): nat {
    if i < size then i else i - size
  }

  lemma ModIsWrap(i: nat, size: nat)
    requires 0 < size && i < 2 * size
    ensures i % size == Wrap(i, size)
  {
    if i < size {
      ModUnique(i, size, 0, i);
    } else {
      ModUnique(i, size, 1, i - size);
    }
  }

  lemma ModUnique(i: nat, size: nat, q: nat, r: nat)
    requires 0 < size && i == q * size + r && r < size
    ensures i % size == r
  {
    var d := i / size;
    assert i == d * size + i % size;
    MulKeepsOrder(d + 1, q, size);
    MulKeepsOrder(q + 1, d, size);
  }

  lemma MulKeepsOrder(a: nat, b: nat, c: nat)
    ensures a <= b ==> a * c <= b * c
  {}

  function DataSizeOf(head: nat, tail: nat, size: nat): nat
    requires head < size && tail < size
  {
    (head + size - tail) % size
  }

  lemma DataSizeCases(head: nat, tail: nat, size: nat)
    requires head < size && tail < size
    ensures DataSizeOf(head, tail, size) == if head >= tail then head - tail else head + size - tail
  {
    ModIsWrap(head + size - tail, size);
  }

  /** The bytes in the `n` slots from `tail` on. */
  function Slots(buf: seq<byte>, tail: nat, n: nat): (bytes: seq<byte>)
    requires tail < |buf| && n <= |buf|
    ensures |bytes| == n
  {
    seq(n, i requires 0 <= i < n => buf[Wrap(tail + i, |buf|)])
  }

  lemma SlotAt(buf: seq<byte>, tail: nat, n: nat, i: nat)
    requires tail < |buf| && i < n <= |buf|
    ensures Slots(buf, tail, n)[i] == buf[Wrap(tail + i, |buf|)]
  {}

  lemma SlotsSplit(buf: seq<byte>, tail: nat, n: nat, k: nat)
    requires tail < |buf| && k <= n < |buf|
    ensures Slots(buf, tail, n) == Slots(buf, tail, k) + Slots(buf, Wrap(tail + k, |buf|), n - k)
  {
    var whole, parts := Slots(buf, tail, n), Slots(buf, tail, k) + Slots(buf, Wrap(tail + k, |buf|), n - k);
    forall i | 0 <= i < n ensures whole[i] == parts[i] {
      SlotAt(buf, tail, n, i);
      if i < k {
        SlotAt(buf, tail, k, i);
      } else {
        SlotAt(buf, Wrap(tail + k, |buf|), n - k, i - k);
        assert Wrap(Wrap(tail + k, |buf|) + (i - k), |buf|) == Wrap(tail + i, |buf|);
      }
    }
  }

  /** Slots that do not wrap are a slice; slots that do are two. */
  lemma SlotsAreSlices(buf: seq<byte>, tail: nat, n: nat)
    requires tail < |buf| && n <= |buf|
    ensures Slots(buf, tail, n) ==
      if tail + n <= |buf| then buf[tail..tail + n] else buf[tail..] + buf[..tail + n - |buf|]
  {
    forall i | 0 <= i < n
      ensures Slots(buf, tail, n)[i] == buf[if tail + i < |buf| then tail + i else tail + i - |buf|]
    {
      SlotAt(buf, tail, n, i);
    }
  }

  lemma TwoPieces(bytes: seq<byte>, buf: seq<byte>, at: nat, n: nat)
    requires at < |buf| && |bytes| == n <= |buf| <= at + n
    requires bytes[0..|buf| - at] == buf[at..|buf|]
    requires bytes[|buf| - at..n] == buf[0..at + n - |buf|]
    ensures bytes == buf[at..] + buf[..at + n - |buf|]
  {
    assert bytes == bytes[0..|buf| - at] + bytes[|buf| - at..n];
  }

  /** Slot `k` is not among the `n` slots from `head` on. */
  predicate Untouched(k: nat, head: nat, n: nat, size: nat) {
    !(head <= k < head + n) && k + size >= head + n
  }

  lemma SlotsUnchanged(buf: seq<byte>, buf': seq<byte>, head: nat, n: nat, tail: nat, m: nat)
    requires |buf'| == |buf| && head < |buf| && tail < |buf| && m + n < |buf| && head == Wrap(tail + m, |buf|)
    requires forall k :: 0 <= k < |buf| && Untouched(k, head, n, |buf|) ==> buf'[k] == buf[k]
    ensures Slots(buf', tail, m) == Slots(buf, tail, m)
  {
    forall i | 0 <= i < m ensures Slots(buf', tail, m)[i] == Slots(buf, tail, m)[i] {
      SlotAt(buf, tail, m, i);
      SlotAt(buf', tail, m, i);
      assert Untouched(Wrap(tail + i, |buf|), head, n, |buf|);
    }
  }

  // ---------------------------------------------------------------------------------------
  // The queue it stands for
  // ---------------------------------------------------------------------------------------

  datatype Operation = Write(bytes: seq<byte>) | Read(n: nat) | Peek(n: nat) | Clear

  /** The queue afterwards, and what a reader gets; -1 is the answer to what does not fit or is not there. */
  datatype Outcome = Outcome(queue: seq<byte>, ret: int, got: seq<byte>)

  function Perform(capacity: nat, queue: seq<byte>, op: Operation): Outcome {
    match op
    case Write(bytes) =>
      if |queue| + |bytes| <= capacity then Outcome(queue + bytes, |bytes|, []) else Outcome(queue, -1, [])
    case Read(n) => if n <= |queue| then Outcome(queue[n..], n, queue[..n]) else Outcome(queue, -1, [])
    case Peek(n) => if n <= |queue| then Outcome(queue, n, queue[..n]) else Outcome(queue, -1, [])
    case Clear => Outcome([], 0, [])
  }

  /** What went in and what has come out again, by being read or cleared away. */
  datatype Traffic = Traffic(queue: seq<byte>, written: seq<byte>, removed: seq<byte>)

  const NO_TRAFFIC := Traffic([], [], [])

  function After(capacity: nat, t: Traffic, op: Operation): Traffic {
    var o := Perform(capacity, t.queue, op);
    Traffic(o.queue,
            if op.Write? && o.ret >= 0 then t.written + op.bytes else t.written,
            if op.Read? then t.removed + o.got else if op.Clear? then t.removed + t.queue else t.removed)
  }

  /** All operations, with the bytes that writes put in and reads and clearing took out. */
  function PerformAll(capacity: nat, t: Traffic, ops: seq<Operation>): Traffic
    decreases |ops|
  {
    if ops == [] then t else PerformAll(capacity, After(capacity, t, ops[0]), ops[1..])
  }

  /** Nothing is lost, invented or reordered, and the capacity is never exceeded. */
  lemma {:induction false} QueueConserves(capacity: nat, t: Traffic, ops: seq<Operation>)
    requires t.removed + t.queue == t.written && |t.queue| <= capacity
    ensures var u := PerformAll(capacity, t, ops); u.removed + u.queue == u.written && |u.queue| <= capacity
    decreases |ops|
  {
    if ops != [] {
      var o := Perform(capacity, t.queue, ops[0]);
      var next := After(capacity, t, ops[0]);
      if ops[0].Read? && o.ret >= 0 {
        assert t.queue == t.queue[..ops[0].n] + t.queue[ops[0].n..];
      }
      assert next.removed + next.queue == next.written;
      QueueConserves(capacity, next, ops[1..]);
    }
  }

  /**
    Every answer, after any operations, in terms of what went in and came out: a write is refused if
    and only if it does not fit, a read or a peek if and only if there is not as much. Otherwise
    the write puts in all its bytes, and the reader gets the first bytes that have not come out.
   */
  lemma {:induction false} AnswersExactly(capacity: nat, ops: seq<Operation>, op: Operation)
    ensures var u := PerformAll(capacity, NO_TRAFFIC, ops);
      var o, held := Perform(capacity, u.queue, op), |u.written| - |u.removed|;
      match op
      case Write(bytes) =>
        && o.got == [] && |u.removed| <= |u.written|
        && (o.ret == -1 <==> held + |bytes| > capacity)
        && (o.ret == -1 ==> o.queue == u.written[|u.removed|..])
        && (o.ret != -1 ==> o.ret == |bytes| && o.queue == u.written[|u.removed|..] + bytes)
      case Read(n) =>
        && (o.ret == -1 <==> n > held)
        && (o.ret == -1 ==> o.got == [] && o.queue == u.queue)
        && (o.ret != -1 ==> o.ret == n && |u.removed| + n <= |u.written|)
        && (o.ret != -1 ==> o.got == u.written[|u.removed|..|u.removed| + n])
        && (o.ret != -1 ==> o.queue == u.written[|u.removed| + n..])
      case Peek(n) =>
        && o.queue == u.queue
        && (o.ret == -1 <==> n > held)
        && (o.ret == -1 ==> o.got == [])
        && (o.ret != -1 ==> o.ret == n && |u.removed| + n <= |u.written|)
        && (o.ret != -1 ==> o.got == u.written[|u.removed|..|u.removed| + n])
      case Clear => o == Outcome([], 0, [])
  {
    QueueConserves(capacity, NO_TRAFFIC, ops);
    var u := PerformAll(capacity, NO_TRAFFIC, ops);
    assert u.queue == u.written[|u.removed|..];
    if op.Read? && op.n <= |u.queue| { assert u.written[|u.removed| + op.n..] == u.queue[op.n..]; }
  }

  // ---------------------------------------------------------------------------------------
  // The object
  // ---------------------------------------------------------------------------------------

  method CopyBytes(dst: array<byte>, to: nat, src: array<byte>, from: nat, n: nat)
    requires dst != src && to + n <= dst.Length && from + n <= src.Length
    modifies dst
    ensures dst[to..to + n] == src[from..from + n]
    ensures forall k :: 0 <= k < dst.Length && !(to <= k < to + n) ==> dst[k] == old(dst[k])
  {
    for i := 0 to n
      invariant dst[to..to + i] == src[from..from + i]
      invariant forall k :: 0 <= k < dst.Length && !(to <= k < to + i) ==> dst[k] == old(dst[k])
    {
      dst[to + i] := src[from + i];
    }
  }

  method CopyFromRing(ring: array<byte>, at: nat, dst: array<byte>, n: nat)
    requires dst != ring && at < ring.Length && n <= dst.Length && n < ring.Length
    modifies dst
    ensures dst[..n] == Slots(ring[..], at, n)
    ensures forall k :: n <= k < dst.Length ==> dst[k] == old(dst[k])
  {
    hide Slots;
    SlotsAreSlices(ring[..], at, n);
    ModIsWrap(at + n, ring.Length);
    var pos := (at + n) % ring.Length;
    if pos >= at {
      CopyBytes(dst, 0, ring, at, n);
    } else {
      var remain := ring.Length - at;
      CopyBytes(dst, 0, ring, at, remain);
      ghost var first := dst[..];
      CopyBytes(dst, remain, ring, 0, n - remain);
      assert forall k :: 0 <= k < remain ==> dst[k] == first[k];
      assert dst[0..remain] == first[0..remain];
      TwoPieces(dst[..n], ring[..], at, n);
    }
  }

  method CopyToRing(ring: array<byte>, at: nat, src: array<byte>, n: nat)
    requires src != ring && at < ring.Length && n <= src.Length && n < ring.Length
    modifies ring
    ensures Slots(ring[..], at, n) == src[..n]
    ensures forall k :: 0 <= k < ring.Length && Untouched(k, at, n, ring.Length) ==> ring[k] == old(ring[k])
  {
    hide Slots;
    ModIsWrap(at + n, ring.Length);
    var pos := (at + n) % ring.Length;
    if pos >= at {
      CopyBytes(ring, at, src, 0, n);
    } else {
      var remain := ring.Length - at;
      CopyBytes(ring, at, src, 0, remain);
      ghost var first := ring[..];
      CopyBytes(ring, 0, src, remain, n - remain);
      assert forall k :: at <= k < ring.Length ==> ring[k] == first[k];
      assert ring[at..at + remain] == first[at..at + remain];
      TwoPieces(src[..n], ring[..], at, n);
    }
    SlotsAreSlices(ring[..], at, n);
  }

  class RingBuf {
    const size: nat
    const buf: array<byte>
    var head: nat
    var tail: nat

    ghost predicate Valid()
      reads this
    {
      0 < size == buf.Length && head < size && tail < size
    }

    function DataSize(): nat
      requires Valid()
      reads this
    {
      DataSizeOf(head, tail, size)
    }

    function FreeSize(): int
      requires Valid()
      reads this
    {
      size - DataSize() - 1
    }

    ghost function Contents(): seq<byte>
      requires Valid()
      reads this, buf
    {
      DataSizeCases(head, tail, size);
      Slots(buf[..], tail, DataSize())
    }

    constructor (capacity: nat)
      requires capacity > 0
      ensures Valid() && Contents() == [] && FreeSize() == capacity && size == capacity + 1
      ensures fresh(buf)
    {
      size := capacity + 1;
      buf := new byte[capacity + 1];
      head, tail := 0, 0;
      new;
      DataSizeCases(head, tail, size);
    }

    method Clear() returns (ret: int)
      requires Valid()
      modifies this
      ensures Valid()
      ensures var o := Perform(size - 1, old(Contents()), Operation.Clear); Contents() == o.queue && ret == o.ret
    {
      head, tail := 0, 0;
      DataSizeCases(head, tail, size);
      return 0;
    }

    method GetDataSize() returns (n: nat)
      requires Valid()
      ensures n == |Contents()|
    {
      DataSizeCases(head, tail, size);
      return DataSize();
    }

    method GetFreeSize() returns (n: int)
      requires Valid()
      ensures n == size - 1 - |Contents()| >= 0
    {
      DataSizeCases(head, tail, size);
      return FreeSize();
    }

    method CopyOut(dst: array<byte>, n: nat)
      requires Valid() && dst != buf && n <= dst.Length && n <= DataSize()
      modifies dst
      ensures dst[..n] == Contents()[..n]
      ensures forall k :: n <= k < dst.Length ==> dst[k] == old(dst[k])
    {
      hide Slots;
      DataSizeCases(head, tail, size);
      CopyFromRing(buf, tail, dst, n);
      SlotsSplit(buf[..], tail, DataSize(), n);
    }

    /** Peek and Read: the second also moves the tail. */
    method ReadInternal(dst: array<byte>, n: nat)
      requires Valid() && dst != buf && n <= dst.Length && n <= DataSize()
      modifies this`tail, dst
      ensures Valid()
      ensures dst[..n] == old(Contents())[..n]
      ensures forall k :: n <= k < dst.Length ==> dst[k] == old(dst[k])
      ensures Contents() == old(Contents())[n..]
    {
      CopyOut(dst, n);
      DataSizeCases(head, tail, size);
      ModIsWrap(tail + n, size);
      SlotsSplit(buf[..], tail, DataSize(), n);
      tail := (tail + n) % size;
      DataSizeCases(head, tail, size);
    }

    method WriteInternal(src: array<byte>, n: nat)
      requires Valid() && src != buf && n <= src.Length && n <= FreeSize()
      modifies this`head, buf
      ensures Valid() && Contents() == old(Contents()) + src[..n]
    {
      hide Slots, Untouched;
      DataSizeCases(head, tail, size);
      ModIsWrap(head + n, size);
      ghost var before, m := buf[..], DataSize();
      CopyToRing(buf, head, src, n);
      SlotsUnchanged(before, buf[..], head, n, tail, m);
      SlotsSplit(buf[..], tail, m + n, m);
      head := (head + n) % size;
      DataSizeCases(head, tail, size);
    }

    method Peek(dst: array<byte>, n: nat) returns (ret: int)
      requires Valid() && dst != buf && n <= dst.Length
      modifies dst
      ensures Valid()
      ensures var o := Perform(size - 1, old(Contents()), Operation.Peek(n));
        && Contents() == o.queue && ret == o.ret && dst[..|o.got|] == o.got
        && forall k :: |o.got| <= k < dst.Length ==> dst[k] == old(dst[k])
    {
      if DataSize() < n {
        return -1;
      }
      CopyOut(dst, n);
      return n;
    }

    method Read(dst: array<byte>, n: nat) returns (ret: int)
      requires Valid() && dst != buf && n <= dst.Length
      modifies this`tail, dst
      ensures Valid()
      ensures var o := Perform(size - 1, old(Contents()), Operation.Read(n));
        && Contents() == o.queue && ret == o.ret && dst[..|o.got|] == o.got
        && forall k :: |o.got| <= k < dst.Length ==> dst[k] == old(dst[k])
    {
      if DataSize() < n {
        return -1;
      }
      ReadInternal(dst, n);
      return n;
    }

    method Write(src: array<byte>, n: nat) returns (ret: int)
      requires Valid() && src != buf && n <= src.Length
      modifies this`head, buf
      ensures Valid()
      ensures var o := Perform(size - 1, old(Contents()), Operation.Write(src[..n]));
        Contents() == o.queue && ret == o.ret
    {
      if FreeSize() < n {
        return -1;
      }
      WriteInternal(src, n);
      return n;
    }
  }

  /** Creating a buffer without room for a single byte is refused. */
  method Create(capacity: int) returns (ring: RingBuf?)
    ensures ring == null <==> capacity <= 0
    ensures ring != null ==> fresh(ring) && ring.Valid() && ring.size == capacity + 1 && ring.Contents() == []
  {
    if capacity <= 0 {
      return null;
    }
    ring := new RingBuf(capacity);
  }
}
