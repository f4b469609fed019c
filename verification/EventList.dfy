/**
  The event list as the code has it: three circular lists on the heap with a counter each. Every
  critical section is a method, proved to be one atomic step on three FIFO queues.
 */
module EventList {
  import opened PriorityQueues
  import L = ListHead

  /** A list header and its counter, passed around together. */
  class Lane<T(0)> {
    const header: L.ListHead<T>
    var count: int
    ghost var nodes: seq<L.ListHead<T>>
    ghost var Repr: set<object>

    ghost predicate Valid()
      reads this, Repr
    {
      && this in Repr && header in Repr && (forall n <- nodes :: n in Repr && (n as object) != this)
      && (header as object) != this
      && L.IsRing([header] + nodes)
      && count == |nodes|
    }

    ghost function Items(): (items: seq<T>)
      reads this, nodes
    {
      seq(|nodes|, i requires 0 <= i < |nodes| reads this, nodes => nodes[i].item)
    }

    constructor (unused: T)
      ensures Valid() && fresh(Repr) && Items() == [] && nodes == []
    {
      header := new L.ListHead<T>(unused);
      count, nodes := 0, [];
      new;
      Repr := {this, header};
    }

    method AddTail(entry: L.ListHead<T>)
      requires Valid() && (entry as object) !in Repr && (entry as object) != this
      modifies Repr, entry
      ensures Valid() && Repr == old(Repr) + {entry}
      ensures Items() == old(Items()) + [entry.item] && entry.item == old(entry.item)
    {
      ghost var before := nodes;
      header.AddTail(entry, [header] + nodes);
      count := count + 1;
      nodes := nodes + [entry];
      Repr := Repr + {entry};
      assert [header] + nodes == [header] + before + [entry];
    }

    /** Unlinks the oldest node. */
    method RemoveHead() returns (node: L.ListHead<T>)
      requires Valid() && nodes != []
      modifies Repr
      ensures Valid() && Repr == old(Repr) && node == old(nodes[0]) && nodes == old(nodes[1..])
      ensures Items() == old(Items()[1..]) && node.item == old(Items()[0])
    {
      ghost var ring := [header] + nodes;
      assert ring[1] == nodes[0];
      L.EmptyExactly(ring);
      node := header.GetHead();
      node.Del(ring, 1);
      count := count - 1;
      nodes := nodes[1..];
      assert ring[..1] + ring[2..] == [header] + nodes;
    }
  }

  class EventList<T(0)> {
    const highest: Lane<T>
    const medium: Lane<T>
    const lowest: Lane<T>
    var isRunning: bool

    // What the event handler was called with, and what was freed, in order.
    var handled: seq<T>
    var freed: seq<T>

    ghost predicate Valid()
      reads highest, medium, lowest, highest.Repr, medium.Repr, lowest.Repr
    {
      && highest.Valid() && medium.Valid() && lowest.Valid()
      && highest.Repr !! medium.Repr && highest.Repr !! lowest.Repr && medium.Repr !! lowest.Repr
      && (this as object) !in highest.Repr + medium.Repr + lowest.Repr
    }

    ghost function Footprint(): set<object>
      reads highest, medium, lowest
    {
      highest.Repr + medium.Repr + lowest.Repr
    }

    /** The queues these lists stand for. */
    ghost function Contents(): Queues<T>
      reads highest, medium, lowest, highest.nodes, medium.nodes, lowest.nodes
    {
      Queues(highest.Items(), medium.Items(), lowest.Items())
    }

    function LaneOf(level: Level): Lane<T> {
      match level case Highest => highest case Medium => medium case Lowest => lowest
    }

    constructor (unused: T)
      ensures Valid() && fresh(Footprint()) && Contents() == Queues([], [], [])
      ensures isRunning && handled == [] && freed == []
    {
      hide L.IsRing;
      highest := new Lane(unused);
      medium := new Lane(unused);
      lowest := new Lane(unused);
      isRunning, handled, freed := true, [], [];
    }

    method Add(event: T, level: Level)
      requires Valid()
      modifies Footprint()
      ensures Valid() && fresh(Footprint() - old(Footprint()))
      ensures Contents() == PriorityQueues.Add(old(Contents()), level, event)
    {
      hide L.IsRing;
      var item := new L.ListHead(event);
      LaneOf(level).AddTail(item);
    }

    predicate InterruptedByCount(level: Level)
      reads highest, medium
    {
      match level
      case Highest => false
      case Medium => 0 < highest.count
      case Lowest => 0 < highest.count || 0 < medium.count
    }

    /** What the consumer does while it holds the mutex. */
    method TakeOne(level: Level, interruptible: bool) returns (node: L.ListHead?<T>)
      requires Valid()
      modifies Footprint()
      ensures Valid() && Footprint() == old(Footprint()) && unchanged(this) && (this as object) !in Footprint()
      ensures var (queues, got) := Take(old(Contents()), level, interruptible);
        Contents() == queues && (node == null <==> got.None?) && (node != null ==> node.item == got.value)
    {
      hide L.IsRing;
      if interruptible && InterruptedByCount(level) {
        return null;
      }
      var lane := LaneOf(level);
      L.EmptyExactly([lane.header] + lane.nodes);
      if lane.header.GetHead() == null {
        return null;
      }
      node := lane.RemoveHead();
    }

    /** One lane, until it is empty or a higher one has work; nobody else holds the mutex in between. */
    method ConsumeOne(level: Level, interruptible: bool, withHandler: bool)
      requires Valid()
      modifies this`handled, this`freed, Footprint()
      ensures Valid() && Footprint() == old(Footprint())
      ensures isRunning == old(isRunning)
      ensures var q := old(Contents());
        var taken := if interruptible && Interrupted(q, level) then [] else q.At(level);
        && Contents() == (if interruptible && Interrupted(q, level) then q else q.With(level, []))
        && freed == old(freed) + taken
        && handled == old(handled) + (if withHandler && isRunning then taken else [])
    {
      hide Valid, Contents, L.IsRing;
      ghost var q := Contents();
      ghost var i := 0;
      var node: L.ListHead?<T>;
      while true
        invariant Valid() && Footprint() == old(Footprint()) && isRunning == old(isRunning)
        invariant 0 <= i <= |q.At(level)|
        invariant interruptible && Interrupted(q, level) ==> i == 0
        invariant Contents() == q.With(level, q.At(level)[i..])
        invariant freed == old(freed) + q.At(level)[..i]
        invariant handled == old(handled) + (if withHandler && isRunning then q.At(level)[..i] else [])
        decreases |q.At(level)| - i
      {
        TakeAgain(q, level, i, interruptible);
        node := TakeOne(level, interruptible);
        if node == null {
          break;
        }
        if withHandler && isRunning {
          handled := handled + [node.item];
        }
        freed := freed + [node.item];
        i := i + 1;
      }
    }

    /** All three lanes, highest first. */
    method ConsumeAll(interruptible: bool, withHandler: bool)
      requires Valid()
      modifies this`handled, this`freed, Footprint()
      ensures Valid() && Footprint() == old(Footprint()) && isRunning == old(isRunning)
      ensures Contents() == Queues([], [], [])
      ensures freed == old(freed) + old(Contents()).All()
      ensures handled == old(handled) + (if withHandler && isRunning then old(Contents()).All() else [])
    {
      hide Valid, Footprint, Contents, L.IsRing;
      ConsumeOne(Highest, interruptible, withHandler);
      ConsumeOne(Medium, interruptible, withHandler);
      ConsumeOne(Lowest, interruptible, withHandler);
    }

    /** EventListClear: everything is freed, nothing handled. */
    method Clear()
      requires Valid()
      modifies this`handled, this`freed, Footprint()
      ensures Valid() && Contents() == Queues([], [], [])
      ensures freed == old(freed) + old(Contents()).All() && handled == old(handled)
    {
      ConsumeAll(false, false);
    }
  }

  /** Taking from a lane from which `i` items have been taken already. */
  lemma TakeAgain<T>(q: Queues<T>, level: Level, i: nat, interruptible: bool)
    requires i <= |q.At(level)| && (interruptible && Interrupted(q, level) ==> i == 0)
    ensures Take(q.With(level, q.At(level)[i..]), level, interruptible) ==
      if (interruptible && Interrupted(q, level)) || i == |q.At(level)| then (q.With(level, q.At(level)[i..]), None)
      else (q.With(level, q.At(level)[i + 1..]), Some(q.At(level)[i]))
    ensures q.With(level, q.At(level)[0..]) == q
    ensures i < |q.At(level)| ==> q.At(level)[..i + 1] == q.At(level)[..i] + [q.At(level)[i]]
    ensures q.At(level)[|q.At(level)|..] == [] && q.At(level)[..|q.At(level)|] == q.At(level)
  {}
}
