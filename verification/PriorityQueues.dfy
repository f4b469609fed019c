/** Three FIFO queues with strict priority: what the event list stands for. */
module PriorityQueues {

  datatype Option<+T> = None | Some(value: T)

  datatype Level = Highest | Medium | Lowest

  datatype Queues<T> = Queues(highest: seq<T>, medium: seq<T>, lowest: seq<T>)
  {
    function At(level: Level): seq<T> {
      match level case Highest => highest case Medium => medium case Lowest => lowest
    }

    function With(level: Level, s: seq<T>): Queues<T> {
      match level
      case Highest => this.(highest := s)
      case Medium => this.(medium := s)
      case Lowest => this.(lowest := s)
    }

    function All(): seq<T> { highest + medium + lowest }
  }

  /** How often an item occurs in the three queues. */
  function Count<T(==)>(q: Queues<T>, t: T): nat { multiset(q.All())[t] }

  function Add<T>(q: Queues<T>, level: Level, t: T): Queues<T> { q.With(level, q.At(level) + [t]) }

  /** The worker leaves a level alone while a higher one has items. */
  predicate Interrupted<T>(q: Queues<T>, level: Level) {
    match level
    case Highest => false
    case Medium => q.highest != []
    case Lowest => q.highest != [] || q.medium != []
  }

  /** One critical section of the consumer: take the oldest item of the level, unless interrupted. */
  function Take<T>(q: Queues<T>, level: Level, interruptible: bool): (Queues<T>, Option<T>) {
    if (interruptible && Interrupted(q, level)) || q.At(level) == [] then (q, None)
    else (q.With(level, q.At(level)[1..]), Some(q.At(level)[0]))
  }

  /** Strict priority: everything in the order in which it ought to be handled. */
  function PopFirst<T>(q: Queues<T>): (Queues<T>, Option<T>) {
    if q.highest != [] then (q.(highest := q.highest[1..]), Some(q.highest[0]))
    else if q.medium != [] then (q.(medium := q.medium[1..]), Some(q.medium[0]))
    else if q.lowest != [] then (q.(lowest := q.lowest[1..]), Some(q.lowest[0]))
    else (q, None)
  }

  /** Every item the worker takes is the oldest of the highest level that has any. */
  lemma TakeIsPopFirst<T>(q: Queues<T>, level: Level)
    ensures Take(q, level, true).1.Some? ==> Take(q, level, true) == PopFirst(q)
    ensures Take(q, level, true).1.None? <==> q.At(level) == [] || Interrupted(q, level)
    ensures Take(q, level, true).1.None? ==> Take(q, level, true).0 == q
  {}

  lemma AllTogether<T>(q: Queues<T>)
    ensures multiset(q.All()) == multiset(q.highest) + multiset(q.medium) + multiset(q.lowest)
  {}

  /** Adding puts in one item; taking takes out the one it returns. */
  lemma AddConserves<T>(q: Queues<T>, level: Level, t: T)
    ensures multiset(Add(q, level, t).All()) == multiset(q.All()) + multiset{t}
  {
    AllTogether(q);
    AllTogether(Add(q, level, t));
  }

  lemma TakeConserves<T>(q: Queues<T>, level: Level, interruptible: bool)
    ensures var (r, got) := Take(q, level, interruptible);
      multiset(q.All()) == multiset(r.All()) + (if got.Some? then multiset{got.value} else multiset{})
  {
    var (r, got) := Take(q, level, interruptible);
    AllTogether(q);
    AllTogether(r);
    if got.Some? { assert q.At(level) == [got.value] + q.At(level)[1..]; }
  }
}
