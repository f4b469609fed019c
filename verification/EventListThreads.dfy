/**
  The threads around the event list: any number of adders, a thread that clears, the worker and
  one that destroys the list, interleaved step by step. Critical sections are single steps;
  everything the code reads without the mutex is a step of its own.
 */
module EventListThreads {
  import opened PriorityQueues

  /** Where the worker is. */
  datatype Worker =
    | Loop                                // about to test is_running
    | Consume(level: Level)               // about to lock for one item of a level
    | Holding(level: Level, id: nat)      // has unlinked an item
    | Calling(level: Level, id: nat)      // has seen is_running set
    | Freeing(level: Level, id: nat)
    | Look(level: Level)                  // about to read a counter without the mutex
    | Recheck                             // about to lock and look again
    | Blocked                             // waiting for the semaphore
    | Exiting
    | Exited

  /** How far destruction has come. */
  datatype Destroyer =
    | NotCalled
    | Stopping                            // has cleared is_running
    | Joining                             // has signalled, waits for the worker
    | Draining(level: Level)
    | DrainFreeing(level: Level, id: nat)
    | Done

  datatype State = State(
    queues: Queues<nat>,                  // events are numbered in the order they are added
    added: nat,
    signalling: nat,                      // adders between their unlock and their signal
    newEvent: nat,                        // the semaphore the worker waits for
    exitSync: nat,
    isRunning: bool,
    worker: Worker,
    destroyer: Destroyer,
    clearing: multiset<nat>,              // unlinked by EventListClear, not yet freed
    handled: multiset<nat>,
    freed: multiset<nat>,
    everAdded: Queues<nat>,               // all events added at each level, in order
    everTaken: Queues<nat>)               // all events unlinked from each level, by anyone, in order

  datatype Action =
    | AddEvent(level: Level) | Signal | ClearTake(level: Level) | ClearFree(id: nat) | WorkerStep | DestroyerStep

  const CREATED := State(Queues([], [], []), 0, 0, 0, 0, true, Loop, NotCalled, multiset{}, multiset{}, multiset{},
                        Queues([], [], []), Queues([], [], []))

  /** The list may still be used: nothing has been freed yet. */
  predicate InUse(s: State) { s.destroyer.NotCalled? || s.destroyer.Stopping? || s.destroyer.Joining? }

  predicate Enabled(s: State, a: Action) {
    match a
    case AddEvent(_) => InUse(s)
    case Signal => s.signalling > 0
    case ClearTake(_) => InUse(s)
    case ClearFree(id) => id in s.clearing
    case WorkerStep => !s.worker.Exited? && (s.worker.Blocked? ==> s.newEvent > 0)
    case DestroyerStep => !s.destroyer.Done? && (s.destroyer.Joining? ==> s.exitSync > 0)
  }

  function Do(s: State, a: Action): State
    requires Enabled(s, a)
  {
    match a
    case AddEvent(level) =>
      s.(queues := Add(s.queues, level, s.added), added := s.added + 1, signalling := s.signalling + 1,
         everAdded := Add(s.everAdded, level, s.added))
    case Signal => s.(signalling := s.signalling - 1, newEvent := s.newEvent + 1)
    case ClearTake(level) =>
      var (queues, got) := Take(s.queues, level, false);
      s.(queues := queues, everTaken := Note(s.everTaken, level, got),
         clearing := s.clearing + (if got.Some? then multiset{got.value} else multiset{}))
    case ClearFree(id) => s.(clearing := s.clearing - multiset{id}, freed := s.freed + multiset{id})
    case WorkerStep => DoWorker(s)
    case DestroyerStep => DoDestroyer(s)
  }

  function Note(taken: Queues<nat>, level: Level, got: Option<nat>): Queues<nat> {
    if got.Some? then Add(taken, level, got.value) else taken
  }

  function NextLevel(level: Level): Level
    requires level != Lowest
  {
    if level == Highest then Medium else Lowest
  }

  function DoWorker(s: State): State
    requires Enabled(s, WorkerStep)
  {
    match s.worker
    case Loop => s.(worker := if s.isRunning then Consume(Highest) else Exiting)
    case Consume(level) =>
      var (queues, got) := Take(s.queues, level, true);
      if got.Some? then
        s.(queues := queues, everTaken := Note(s.everTaken, level, got), worker := Holding(level, got.value))
      else s.(worker := if level == Lowest then Look(Highest) else Consume(NextLevel(level)))
    case Holding(level, id) => s.(worker := if s.isRunning then Calling(level, id) else Freeing(level, id))
    case Calling(level, id) => s.(worker := Freeing(level, id), handled := s.handled + multiset{id})
    case Freeing(level, id) => s.(worker := Consume(level), freed := s.freed + multiset{id})
    case Look(level) =>
      s.(worker :=
         if s.queues.At(level) != [] then Loop else if level == Lowest then Recheck else Look(NextLevel(level)))
    case Recheck => s.(worker := if s.queues.All() == [] then Blocked else Loop)
    case Blocked => s.(worker := Loop, newEvent := s.newEvent - 1)
    case Exiting => s.(worker := Exited, exitSync := s.exitSync + 1)
  }

  function DoDestroyer(s: State): State
    requires Enabled(s, DestroyerStep)
  {
    match s.destroyer
    case NotCalled => s.(destroyer := Stopping, isRunning := false)
    case Stopping => s.(destroyer := Joining, newEvent := s.newEvent + 1)
    case Joining => s.(destroyer := Draining(Highest), exitSync := s.exitSync - 1)
    case Draining(level) =>
      var (queues, got) := Take(s.queues, level, false);
      if got.Some? then
        s.(queues := queues, everTaken := Note(s.everTaken, level, got), destroyer := DrainFreeing(level, got.value))
      else s.(destroyer := if level == Lowest then Done else Draining(NextLevel(level)))
    case DrainFreeing(level, id) => s.(destroyer := Draining(level), freed := s.freed + multiset{id})
  }

  predicate Possible(s: State, run: seq<Action>)
    decreases |run|
  {
    run == [] || (Enabled(s, run[0]) && Possible(Do(s, run[0]), run[1..]))
  }

  function Execute(s: State, run: seq<Action>): State
    requires Possible(s, run)
    decreases |run|
  {
    if run == [] then s else Execute(Do(s, run[0]), run[1..])
  }

  // ---------------------------------------------------------------------------------------
  // The invariant
  // ---------------------------------------------------------------------------------------

  function HeldByWorker(w: Worker, id: nat): nat {
    match w
    case Holding(_, i) => if i == id then 1 else 0
    case Calling(_, i) => if i == id then 1 else 0
    case Freeing(_, i) => if i == id then 1 else 0
    case _ => 0
  }

  function HeldByDestroyer(d: Destroyer, id: nat): nat {
    if d.DrainFreeing? && d.id == id then 1 else 0
  }

  /** In how many places an event is: in a queue, in somebody's hand, or freed. */
  function Places(s: State, id: nat): nat {
    Count(s.queues, id) + HeldByWorker(s.worker, id) + HeldByDestroyer(s.destroyer, id) + s.clearing[id] + s.freed[id]
  }

  /** Every event added so far is in exactly one place. */
  ghost predicate Conserved(s: State) {
    forall id: nat :: Places(s, id) == if id < s.added then 1 else 0
  }

  /** A handler has been called at most once, for an event that is being freed or has been. */
  ghost predicate HandledOnce(s: State) {
    forall id: nat :: s.handled[id] <= s.freed[id] + HandledNow(s.worker, id)
  }

  /** While the worker is blocked every event in a queue has a signal given or still to come. */
  predicate Wakeup(s: State) {
    s.worker.Blocked? ==> |s.queues.All()| <= s.newEvent + s.signalling
  }

  predicate ShutdownInv(s: State) {
    && (s.isRunning <==> s.destroyer.NotCalled?)
    && (s.destroyer.Joining? ==> s.newEvent > 0 || s.worker.Loop? || s.worker.Exiting? || s.worker.Exited?)
    && s.exitSync == (if s.worker.Exited? && InUse(s) then 1 else 0)
    && (!InUse(s) ==> s.worker.Exited?)
    && (s.worker.Exiting? || s.worker.Exited? ==> !s.isRunning)
  }

  predicate DrainInv(s: State) {
    match s.destroyer
    case Draining(level) => EmptyAbove(s.queues, level)
    case DrainFreeing(level, _) => EmptyAbove(s.queues, level)
    case Done => s.queues == Queues([], [], [])
    case _ => true
  }

  predicate EmptyAbove(q: Queues<nat>, level: Level) {
    match level
    case Highest => true
    case Medium => q.highest == []
    case Lowest => q.highest == [] && q.medium == []
  }

  ghost predicate Inv(s: State) {
    Conserved(s) && HandledOnce(s) && Wakeup(s) && ShutdownInv(s) && DrainInv(s)
  }

  lemma TakeCounts(q: Queues<nat>, level: Level, interruptible: bool, id: nat)
    ensures var (r, got) := Take(q, level, interruptible);
      && Count(q, id) == Count(r, id) + (if got == Some(id) then 1 else 0)
      && |r.All()| == |q.All()| - (if got.Some? then 1 else 0)
  {
    hide Take;
    TakeConserves(q, level, interruptible);
    var (r, got) := Take(q, level, interruptible);
    assert |multiset(q.All())| == |q.All()| && |multiset(r.All())| == |r.All()|;
  }

  lemma AddKeeps(s: State, level: Level)
    requires Inv(s) && InUse(s)
    ensures Inv(Do(s, AddEvent(level)))
  {
    hide HandledOnce, Add;
    var t := Do(s, AddEvent(level));
    AddConserves(s.queues, level, s.added);
    assert |multiset(t.queues.All())| == |t.queues.All()| && |multiset(s.queues.All())| == |s.queues.All()|;
    forall id: nat ensures Places(t, id) == if id < t.added then 1 else 0 {
      assert Places(s, id) == if id < s.added then 1 else 0;
    }
    SameHandled(s, t);
  }

  lemma SameHandled(s: State, t: State)
    requires HandledOnce(s) && t.handled == s.handled && t.freed == s.freed && t.worker == s.worker
    ensures HandledOnce(t)
  {}

  lemma ClearKeeps(s: State, a: Action)
    requires Inv(s) && Enabled(s, a) && (a.ClearTake? || a.ClearFree?)
    ensures Inv(Do(s, a))
  {
    hide Take, HandledOnce, DrainInv, ShutdownInv, Places;
    if a.ClearTake? { TakeCounts(s.queues, a.level, false, 0); }
    ClearConserves(s, a);
    ClearControl(s, a);
  }

  lemma ClearConserves(s: State, a: Action)
    requires Conserved(s) && Enabled(s, a) && (a.ClearTake? || a.ClearFree?)
    ensures Conserved(Do(s, a))
  {
    hide Take, Count;
    var t := Do(s, a);
    forall id: nat ensures Places(t, id) == if id < t.added then 1 else 0 {
      assert Places(s, id) == if id < s.added then 1 else 0;
      if a.ClearTake? { TakeCounts(s.queues, a.level, false, id); }
    }
  }

  lemma ClearControl(s: State, a: Action)
    requires HandledOnce(s) && ShutdownInv(s) && DrainInv(s) && Enabled(s, a) && (a.ClearTake? || a.ClearFree?)
    ensures HandledOnce(Do(s, a)) && ShutdownInv(Do(s, a)) && DrainInv(Do(s, a))
  {}

  lemma WorkerKeeps(s: State)
    requires Inv(s) && Enabled(s, WorkerStep)
    ensures Inv(Do(s, WorkerStep))
  {
    hide Conserved, HandledOnce, Wakeup, ShutdownInv, DrainInv, DoWorker, Enabled;
    WorkerConserves(s);
    WorkerHandles(s);
    WorkerWakeup(s);
    WorkerControl(s);
  }

  lemma WorkerConserves(s: State)
    requires Conserved(s) && Enabled(s, WorkerStep)
    ensures Conserved(DoWorker(s))
  {
    hide DoWorker, Places;
    var t := DoWorker(s);
    forall id: nat ensures Places(t, id) == if id < t.added then 1 else 0 {
      WorkerMoves(s, id);
    }
  }

  lemma WorkerMoves(s: State, id: nat)
    requires Enabled(s, WorkerStep)
    ensures Places(DoWorker(s), id) == Places(s, id) && DoWorker(s).added == s.added
  {
    hide Take, Count;
    var t := DoWorker(s);
    if s.worker.Consume? {
      TakeCounts(s.queues, s.worker.level, true, id);
    } else if s.worker.Freeing? {
      assert t.freed[id] == s.freed[id] + HeldByWorker(s.worker, id);
    } else {
      assert t.queues == s.queues && t.freed == s.freed && HeldByWorker(t.worker, id) == HeldByWorker(s.worker, id);
    }
  }

  lemma WorkerHandles(s: State)
    requires HandledOnce(s) && Enabled(s, WorkerStep)
    ensures HandledOnce(DoWorker(s))
  {
    hide Take;
  }

  lemma WorkerWakeup(s: State)
    requires Wakeup(s) && Enabled(s, WorkerStep)
    ensures Wakeup(DoWorker(s))
  {
    hide Take;
  }

  lemma WorkerControl(s: State)
    requires ShutdownInv(s) && DrainInv(s) && Enabled(s, WorkerStep)
    ensures ShutdownInv(DoWorker(s)) && DrainInv(DoWorker(s))
  {
    hide Take;
  }

  lemma DestroyerKeeps(s: State)
    requires Inv(s) && Enabled(s, DestroyerStep)
    ensures Inv(Do(s, DestroyerStep))
  {
    hide Conserved, HandledOnce, Wakeup, ShutdownInv, DrainInv, DoDestroyer, Enabled;
    DestroyerConserves(s);
    DestroyerHandles(s);
    DestroyerControl(s);
    DestroyerDrains(s);
  }

  lemma DestroyerConserves(s: State)
    requires Conserved(s) && Enabled(s, DestroyerStep)
    ensures Conserved(DoDestroyer(s))
  {
    hide DoDestroyer, Places;
    var t := DoDestroyer(s);
    forall id: nat ensures Places(t, id) == if id < t.added then 1 else 0 {
      DestroyerMoves(s, id);
    }
  }

  lemma DestroyerMoves(s: State, id: nat)
    requires Enabled(s, DestroyerStep)
    ensures Places(DoDestroyer(s), id) == Places(s, id) && DoDestroyer(s).added == s.added
  {
    hide Take, Count;
    var t := DoDestroyer(s);
    if s.destroyer.Draining? {
      TakeCounts(s.queues, s.destroyer.level, false, id);
    } else if s.destroyer.DrainFreeing? {
      assert t.freed[id] == s.freed[id] + HeldByDestroyer(s.destroyer, id);
    } else {
      assert t.queues == s.queues && t.freed == s.freed;
      assert HeldByDestroyer(t.destroyer, id) == HeldByDestroyer(s.destroyer, id);
    }
  }

  lemma DestroyerHandles(s: State)
    requires HandledOnce(s) && Wakeup(s) && ShutdownInv(s) && Enabled(s, DestroyerStep)
    ensures HandledOnce(DoDestroyer(s)) && Wakeup(DoDestroyer(s))
  {
    hide Take;
  }

  lemma DestroyerControl(s: State)
    requires ShutdownInv(s) && Enabled(s, DestroyerStep)
    ensures ShutdownInv(DoDestroyer(s))
  {
    hide Take;
  }

  lemma DestroyerDrains(s: State)
    requires DrainInv(s) && Enabled(s, DestroyerStep)
    ensures DrainInv(DoDestroyer(s))
  {}

  lemma SignalKeeps(s: State)
    requires Inv(s) && s.signalling > 0
    ensures Inv(Do(s, Signal))
  {
    var t := Do(s, Signal);
    assert forall id: nat :: Places(t, id) == Places(s, id);
  }

  lemma DoKeeps(s: State, a: Action)
    requires Inv(s) && Enabled(s, a)
    ensures Inv(Do(s, a))
  {
    hide Inv;
    match a {
      case AddEvent(level) => AddKeeps(s, level);
      case Signal => SignalKeeps(s);
      case ClearTake(_) => ClearKeeps(s, a);
      case ClearFree(_) => ClearKeeps(s, a);
      case WorkerStep => WorkerKeeps(s);
      case DestroyerStep => DestroyerKeeps(s);
    }
  }

  lemma {:induction false} RunKeeps(s: State, run: seq<Action>)
    requires Inv(s) && Possible(s, run)
    ensures Inv(Execute(s, run))
    decreases |run|
  {
    hide Inv, Do, Enabled;
    if run != [] {
      DoKeeps(s, run[0]);
      RunKeeps(Do(s, run[0]), run[1..]);
    }
  }

  // ---------------------------------------------------------------------------------------
  // What follows for every run
  // ---------------------------------------------------------------------------------------

  /**
    No wakeup is lost: if the worker waits, the semaphore is at zero and no adder is between its
    unlock and its signal, then there is nothing to do.
   */
  lemma NoLostWakeup(run: seq<Action>)
    requires Possible(CREATED, run)
    ensures var s := Execute(CREATED, run);
      s.worker.Blocked? && s.newEvent == 0 && s.signalling == 0 ==> s.queues == Queues([], [], [])
  {
    hide Conserved, HandledOnce, Possible, Execute;
    InvAtCreation();
    RunKeeps(CREATED, run);
  }

  /** Every event is freed at most once and its handler called at most once, before that. */
  lemma AtMostOnce(run: seq<Action>, id: nat)
    requires Possible(CREATED, run)
    ensures var s := Execute(CREATED, run);
      && s.freed[id] <= 1 && s.handled[id] <= 1
      && (id >= s.added ==> s.freed[id] == s.handled[id] == 0)
      && (id in s.queues.All() ==> s.freed[id] == s.handled[id] == 0)
  {
    hide Wakeup, ShutdownInv, DrainInv, Possible, Execute;
    InvAtCreation();
    RunKeeps(CREATED, run);
    var s := Execute(CREATED, run);
    assert Places(s, id) == if id < s.added then 1 else 0;
    assert id in s.queues.All() ==> id in multiset(s.queues.All());
  }

  lemma InvAtCreation()
    ensures Inv(CREATED)
  {
    assert CREATED.queues.All() == [];
    assert forall id: nat :: Places(CREATED, id) == 0;
  }

  /** Once destruction is complete, and no clearing is left half done, every event has been freed exactly once. */
  lemma AllFreedInTheEnd(run: seq<Action>, id: nat)
    requires Possible(CREATED, run)
    ensures var s := Execute(CREATED, run);
      s.destroyer.Done? && s.clearing == multiset{} ==> s.freed[id] == if id < s.added then 1 else 0
  {
    hide HandledOnce, Wakeup, Possible, Execute;
    InvAtCreation();
    RunKeeps(CREATED, run);
    var s := Execute(CREATED, run);
    assert Places(s, id) == if id < s.added then 1 else 0;
    if s.destroyer.Done? { assert s.queues.All() == []; }
  }

  // ---------------------------------------------------------------------------------------
  // Order
  // ---------------------------------------------------------------------------------------

  /** What has been taken from a level and what is still in it are what was added to it, in order. */
  predicate InOrder(s: State, level: Level) {
    s.everAdded.At(level) == s.everTaken.At(level) + s.queues.At(level)
  }

  lemma TakeInOrder(q: Queues<nat>, taken: Queues<nat>, level: Level, interruptible: bool, other: Level)
    ensures var (r, got) := Take(q, level, interruptible);
      Note(taken, level, got).At(other) + r.At(other) == taken.At(other) + q.At(other)
  {
    var (r, got) := Take(q, level, interruptible);
    if got.Some? && other == level {
      assert q.At(level) == [got.value] + r.At(level);
      assert taken.At(level) + ([got.value] + r.At(level)) == (taken.At(level) + [got.value]) + r.At(level);
    }
  }

  lemma DoInOrder(s: State, a: Action, other: Level)
    requires InOrder(s, other) && Enabled(s, a)
    ensures InOrder(Do(s, a), other)
  {
    hide Take, Note;
    match a {
      case AddEvent(level) =>
      case ClearTake(level) => TakeInOrder(s.queues, s.everTaken, level, false, other);
      case WorkerStep => if s.worker.Consume? { TakeInOrder(s.queues, s.everTaken, s.worker.level, true, other); }
      case DestroyerStep =>
        if s.destroyer.Draining? { TakeInOrder(s.queues, s.everTaken, s.destroyer.level, false, other); }
      case Signal =>
      case ClearFree(_) =>
    }
  }

  lemma {:induction false} RunInOrder(s: State, run: seq<Action>, level: Level)
    requires InOrder(s, level) && Possible(s, run)
    ensures InOrder(Execute(s, run), level)
    decreases |run|
  {
    hide InOrder, Do, Enabled;
    if run != [] {
      DoInOrder(s, run[0], level);
      RunInOrder(Do(s, run[0]), run[1..], level);
    }
  }

  /** The events that a run adds at a level: an event's number is how many were added before it. */
  function AddedAt(run: seq<Action>, level: Level, before: nat): seq<nat> {
    if run == [] then []
    else if !run[0].AddEvent? then AddedAt(run[1..], level, before)
    else (if run[0].level == level then [before] else []) + AddedAt(run[1..], level, before + 1)
  }

  lemma {:induction false} StepAdds(s: State, a: Action, level: Level)
    requires Enabled(s, a)
    ensures var t := Do(s, a);
      && t.added == s.added + (if a.AddEvent? then 1 else 0)
      && t.everAdded.At(level) == s.everAdded.At(level) + (if a == AddEvent(level) then [s.added] else [])
  {
    hide Take, Note;
  }

  lemma {:induction false} RunAdds(s: State, run: seq<Action>, level: Level)
    requires Possible(s, run)
    ensures Execute(s, run).everAdded.At(level) == s.everAdded.At(level) + AddedAt(run, level, s.added)
    decreases |run|
  {
    hide Do, Enabled;
    if run == [] {
      assert s.everAdded.At(level) + [] == s.everAdded.At(level);
    } else {
      var next := Do(s, run[0]);
      StepAdds(s, run[0], level);
      RunAdds(next, run[1..], level);
      var later := AddedAt(run[1..], level, next.added);
      assert (s.everAdded.At(level) + [s.added]) + later == s.everAdded.At(level) + ([s.added] + later);
      assert s.everAdded.At(level) + [] == s.everAdded.At(level) && [] + later == later;
    }
  }

  /**
    Over every run each level is first in, first out, whoever takes the events: what has been taken
    from it and what is in it are the events the run added at that level, in the order of adding.
   */
  lemma FirstInFirstOut(run: seq<Action>, level: Level)
    requires Possible(CREATED, run)
    ensures var s := Execute(CREATED, run);
      AddedAt(run, level, 0) == s.everTaken.At(level) + s.queues.At(level)
  {
    hide Possible, Execute;
    RunInOrder(CREATED, run, level);
    RunAdds(CREATED, run, level);
    assert CREATED.everAdded.At(level) == [];
    assert [] + AddedAt(run, level, 0) == AddedAt(run, level, 0);
  }

  /** Strict priority: what the worker takes is the oldest event of the highest level that has one at that moment. */
  lemma WorkerTakesFirst(s: State)
    requires Enabled(s, WorkerStep) && s.worker.Consume? && DoWorker(s).worker.Holding?
    ensures (DoWorker(s).queues, Some(DoWorker(s).worker.id)) == PopFirst(s.queues)
  {
    TakeIsPopFirst(s.queues, s.worker.level);
  }

  // ---------------------------------------------------------------------------------------
  // Shutdown comes to an end
  // ---------------------------------------------------------------------------------------

  function LevelRank(level: Level): nat { match level case Highest => 2 case Medium => 1 case Lowest => 0 }

  function WorkerRank(w: Worker): nat {
    match w
    case Exited => 0
    case Exiting => 1
    case Loop => 2
    case Blocked => 3
    case Recheck => 4
    case Look(level) => 5 + LevelRank(level)
    case Consume(level) => 8 + LevelRank(level)
    case Freeing(level, _) => 9 + LevelRank(level)
    case Calling(level, _) => 10 + LevelRank(level)
    case Holding(level, _) => 11 + LevelRank(level)
  }

  function DestroyerRank(d: Destroyer): nat {
    match d
    case Done => 0
    case Draining(level) => 1 + LevelRank(level)
    case DrainFreeing(level, _) => 2 + LevelRank(level)
    case Joining => 5
    case Stopping => 6
    case NotCalled => 7
  }

  /** How many steps of the worker and the destroyer can still follow. */
  function Rank(s: State): nat {
    4 * |s.queues.All()| + WorkerRank(s.worker) + DestroyerRank(s.destroyer)
  }

  predicate Own(a: Action) { a.WorkerStep? || a.DestroyerStep? }

  lemma TakeShrinks(q: Queues<nat>, level: Level, interruptible: bool)
    ensures var (r, got) := Take(q, level, interruptible);
      |r.All()| == |q.All()| - (if got.Some? then 1 else 0)
  {}

  lemma RankDecreases(s: State, a: Action)
    requires Inv(s) && Enabled(s, a) && Own(a) && !s.isRunning
    ensures Rank(Do(s, a)) < Rank(s) && !Do(s, a).isRunning
  {
    hide Inv, DoWorker, DoDestroyer;
    RunningFacts(s);
    if a.WorkerStep? { WorkerRankDecreases(s); } else { DestroyerRankDecreases(s); }
  }

  lemma RunningFacts(s: State)
    requires Inv(s)
    ensures !s.isRunning ==> !s.destroyer.NotCalled?
  {
    hide Conserved, HandledOnce, Wakeup, DrainInv;
  }

  lemma WorkerRankDecreases(s: State)
    requires Enabled(s, WorkerStep) && !s.isRunning
    ensures Rank(DoWorker(s)) < Rank(s) && !DoWorker(s).isRunning
  {
    hide Take;
    if s.worker.Consume? { TakeShrinks(s.queues, s.worker.level, true); }
  }

  lemma DestroyerRankDecreases(s: State)
    requires Enabled(s, DestroyerStep) && !s.isRunning && !s.destroyer.NotCalled?
    ensures Rank(DoDestroyer(s)) < Rank(s) && !DoDestroyer(s).isRunning
  {
    hide Take;
    if s.destroyer.Draining? { TakeShrinks(s.queues, s.destroyer.level, false); }
  }

  /** The two are never both stuck before the end. */
  lemma NeverStuck(s: State)
    requires Inv(s) && !s.destroyer.Done?
    ensures !s.isRunning ==> Enabled(s, WorkerStep) || Enabled(s, DestroyerStep)
  {}

  function Owns(run: seq<Action>): nat {
    if run == [] then 0 else (if Own(run[0]) then 1 else 0) + Owns(run[1..])
  }

  function Adds(run: seq<Action>): nat {
    if run == [] then 0 else (if run[0].AddEvent? then 1 else 0) + Adds(run[1..])
  }

  /** Whoever moves: only an event added raises the rank, by the four steps it can cost. */
  lemma RankBound(s: State, a: Action)
    requires Inv(s) && Enabled(s, a) && !s.isRunning
    ensures !Do(s, a).isRunning
    ensures Rank(Do(s, a)) + (if Own(a) then 1 else 0) <= Rank(s) + (if a.AddEvent? then 4 else 0)
  {
    hide Inv, DoWorker, DoDestroyer, Take;
    match a {
      case AddEvent(level) =>
        AddConserves(s.queues, level, s.added);
        var all, all' := s.queues.All(), Do(s, a).queues.All();
        assert |multiset(all')| == |all'| && |multiset(all)| == |all|;
      case Signal =>
      case ClearTake(level) => TakeShrinks(s.queues, level, false);
      case ClearFree(_) =>
      case WorkerStep => RankDecreases(s, a);
      case DestroyerStep => RankDecreases(s, a);
    }
  }

  lemma {:induction false} ShutdownBound(s: State, run: seq<Action>)
    requires Inv(s) && !s.isRunning && Possible(s, run)
    ensures Inv(Execute(s, run)) && !Execute(s, run).isRunning
    ensures Owns(run) + Rank(Execute(s, run)) <= Rank(s) + 4 * Adds(run)
    decreases |run|
  {
    hide Inv, Do, Rank, Enabled;
    if run != [] {
      RankBound(s, run[0]);
      DoKeeps(s, run[0]);
      ShutdownBound(Do(s, run[0]), run[1..]);
    }
  }

  /**
    Shutdown: from every reachable state in which is_running has been cleared, whatever adders,
    clearers and callers already inside a call do meanwhile, the worker and the destroyer take
    boundedly many steps - four more for every event still added - and as long as one of them has
    not finished, one of them can move.
   */
  lemma ShutdownCompletes(before: seq<Action>, run: seq<Action>)
    requires Possible(CREATED, before) && !Execute(CREATED, before).isRunning
    requires Possible(Execute(CREATED, before), run)
    ensures var s := Execute(CREATED, before); var t := Execute(s, run);
      && !t.isRunning
      && Owns(run) + Rank(t) <= Rank(s) + 4 * Adds(run)
      && (Enabled(t, WorkerStep) || Enabled(t, DestroyerStep) <==> !(t.worker.Exited? && t.destroyer.Done?))
  {
    hide Inv, Possible, Execute, Rank, Enabled, Owns, Adds;
    InvAtCreation();
    RunKeeps(CREATED, before);
    var s := Execute(CREATED, before);
    ShutdownBound(s, run);
    var t := Execute(s, run);
    if !Enabled(t, WorkerStep) && !Enabled(t, DestroyerStep) { StuckIsDone(t); }
    if t.worker.Exited? && t.destroyer.Done? { FinishedIsStuck(t); }
  }

  lemma FinishedIsStuck(s: State)
    requires s.destroyer.Done? && s.worker.Exited?
    ensures !Enabled(s, WorkerStep) && !Enabled(s, DestroyerStep)
  {}

  lemma StuckIsDone(s: State)
    requires Inv(s) && !s.isRunning && !Enabled(s, WorkerStep) && !Enabled(s, DestroyerStep)
    ensures s.destroyer.Done? && s.worker.Exited?
  {
    if !s.destroyer.Done? { NeverStuck(s); }
  }

  /** In particular the worker is not left waiting: after the destroyer's signal its wait is over. */
  lemma NotBlockedForever(run: seq<Action>)
    requires Possible(CREATED, run)
    ensures var s := Execute(CREATED, run);
      s.destroyer.Joining? && s.worker.Blocked? ==> s.newEvent > 0
  {
    hide Conserved, HandledOnce, Possible, Execute;
    InvAtCreation();
    RunKeeps(CREATED, run);
  }

  // ---------------------------------------------------------------------------------------
  // A running list settles
  // ---------------------------------------------------------------------------------------

  function LevelIndex(level: Level): nat { 2 - LevelRank(level) }

  /** The highest level with events, when there are events. */
  function FirstIndex(q: Queues<nat>): nat {
    if q.highest != [] then 0 else if q.medium != [] then 1 else 2
  }

  /** The pass will come by an event that has arrived, without starting again. */
  predicate Ahead(s: State, level: Level) { s.queues.All() == [] || LevelIndex(level) <= FirstIndex(s.queues) }

  /** How far the worker of a running list is from its next take or from its sleep. */
  function Distance(s: State): nat {
    var idle := s.queues.All() == [];
    match s.worker
    case Holding(_, _) => 33
    case Calling(_, _) => 32
    case Freeing(_, _) => 31
    case Loop => 20
    case Consume(level) => (if Ahead(s, level) then 19 else 30) - LevelIndex(level)
    case Look(level) => (if idle then 16 else 27) - LevelIndex(level)
    case Recheck => if idle then 13 else 24
    case Blocked => if idle then 12 else 23
    case Exiting => 1
    case Exited => 0
  }

  /** Events waiting and signals given or to come each cost the worker less than 40 steps. */
  function Backlog(s: State): nat { 40 * (|s.queues.All()| + s.newEvent + s.signalling) + Distance(s) }

  function WorkerSteps(run: seq<Action>): nat {
    if run == [] then 0 else (if run[0].WorkerStep? then 1 else 0) + WorkerSteps(run[1..])
  }

  lemma DistanceBound(s: State)
    ensures Distance(s) <= 33
    ensures s.queues.All() != [] && s.worker.Blocked? ==> Distance(s) == 23
  {}

  lemma WorkerReducesBacklog(s: State)
    requires Inv(s) && s.isRunning && Enabled(s, WorkerStep)
    ensures DoWorker(s).isRunning && Backlog(DoWorker(s)) < Backlog(s)
  {
    hide Conserved, HandledOnce, Wakeup, DrainInv;
    var t := DoWorker(s);
    if s.worker.Consume? {
      TakeShrinks(s.queues, s.worker.level, true);
      if t.worker.Holding? { DistanceBound(t); } else { NothingTaken(s); }
    }
  }

  /** A pass that takes nothing at a level goes on, or has been overtaken by a higher level. */
  lemma NothingTaken(s: State)
    requires Enabled(s, WorkerStep) && s.worker.Consume? && !DoWorker(s).worker.Holding?
    ensures DoWorker(s).queues == s.queues && Distance(DoWorker(s)) < Distance(s)
  {}

  lemma StepCosts(s: State, a: Action)
    requires Inv(s) && s.isRunning && Enabled(s, a) && Do(s, a).isRunning
    ensures Backlog(Do(s, a)) + (if a.WorkerStep? then 1 else 0) <= Backlog(s) + (if a.AddEvent? then 113 else 0)
  {
    hide Inv, DoWorker, Distance, Take;
    DistanceBound(Do(s, a));
    match a {
      case AddEvent(level) =>
        AddConserves(s.queues, level, s.added);
        var all, all' := s.queues.All(), Do(s, a).queues.All();
        assert |multiset(all')| == |all'| && |multiset(all)| == |all|;
      case Signal => SameDistance(s, Do(s, a));
      case ClearTake(level) =>
        TakeShrinks(s.queues, level, false);
        if Do(s, a).queues == s.queues { SameDistance(s, Do(s, a)); } else { TookSomething(s.queues, level); }
      case ClearFree(_) => SameDistance(s, Do(s, a));
      case WorkerStep => WorkerReducesBacklog(s);
      case DestroyerStep => RunningUntilDestroyed(s);
    }
  }

  lemma TookSomething(q: Queues<nat>, level: Level)
    requires Take(q, level, false).0 != q
    ensures Take(q, level, false).1.Some?
  {}

  lemma SameDistance(s: State, t: State)
    requires t.queues == s.queues && t.worker == s.worker
    ensures Distance(t) == Distance(s)
  {}

  lemma RunningUntilDestroyed(s: State)
    requires Inv(s) && s.isRunning && Enabled(s, DestroyerStep)
    ensures !DoDestroyer(s).isRunning
  {
    hide Conserved, HandledOnce, Wakeup, DrainInv;
  }

  lemma StaysStopped(s: State, a: Action)
    requires Enabled(s, a) && !s.isRunning
    ensures !Do(s, a).isRunning
  {
    hide Take;
  }

  lemma {:induction false} StoppedForGood(s: State, run: seq<Action>)
    requires Possible(s, run) && !s.isRunning
    ensures !Execute(s, run).isRunning
    decreases |run|
  {
    hide Do, Enabled;
    if run != [] {
      StaysStopped(s, run[0]);
      StoppedForGood(Do(s, run[0]), run[1..]);
    }
  }

  lemma {:induction false} BacklogBound(s: State, run: seq<Action>)
    requires Inv(s) && Possible(s, run) && Execute(s, run).isRunning
    ensures s.isRunning
    ensures WorkerSteps(run) + Backlog(Execute(s, run)) <= Backlog(s) + 113 * Adds(run)
    decreases |run|
  {
    hide Inv, Do, Backlog, Enabled;
    if !s.isRunning { StoppedForGood(s, run); }
    if run != [] {
      var next := Do(s, run[0]);
      DoKeeps(s, run[0]);
      BacklogBound(next, run[1..]);
      StepCosts(s, run[0]);
    }
  }

  /** Nobody has cleared, and as long as the list runs what has been freed has been handled. */
  ghost predicate AllHandled(s: State) {
    && s.clearing == multiset{}
    && (s.isRunning ==> s.destroyer.NotCalled?)
    && (s.isRunning ==> forall id: nat :: s.handled[id] == s.freed[id] + HandledNow(s.worker, id))
  }

  function HandledNow(w: Worker, id: nat): nat { if w.Freeing? && w.id == id then 1 else 0 }

  predicate NoClears(run: seq<Action>) { forall a <- run :: !a.ClearTake? }

  lemma StepHandles(s: State, a: Action)
    requires AllHandled(s) && Enabled(s, a) && !a.ClearTake?
    ensures AllHandled(Do(s, a))
  {
    hide Take;
  }

  lemma {:induction false} RunHandles(s: State, run: seq<Action>)
    requires AllHandled(s) && Possible(s, run) && NoClears(run)
    ensures AllHandled(Execute(s, run))
    decreases |run|
  {
    hide AllHandled, Do, Enabled;
    if run != [] {
      assert run[0] in run;
      StepHandles(s, run[0]);
      RunHandles(Do(s, run[0]), run[1..]);
    }
  }

  /**
    A running list settles: over every run, whoever else moves, the worker takes boundedly many
    steps, at most 113 more for every event still added. It cannot move exactly when it sleeps with
    the semaphore at zero; if then no adder is before its signal, every level is empty.
   */
  lemma RunningListSettles(before: seq<Action>, run: seq<Action>)
    requires Possible(CREATED, before) && Possible(Execute(CREATED, before), run)
    requires Execute(Execute(CREATED, before), run).isRunning
    ensures var s := Execute(CREATED, before); var t := Execute(s, run);
      && WorkerSteps(run) + Backlog(t) <= Backlog(s) + 113 * Adds(run)
      && (!Enabled(t, WorkerStep) <==> t.worker.Blocked? && t.newEvent == 0)
      && (!Enabled(t, WorkerStep) && t.signalling == 0 ==> t.queues == Queues([], [], []))
  {
    hide Inv, Possible, Execute, Backlog, WorkerSteps, Adds;
    InvAtCreation();
    RunKeeps(CREATED, before);
    var s := Execute(CREATED, before);
    RunKeeps(s, run);
    BacklogBound(s, run);
    SleepsWhenStuck(Execute(s, run));
  }

  lemma SleepsWhenStuck(s: State)
    requires Inv(s) && s.isRunning
    ensures !Enabled(s, WorkerStep) <==> s.worker.Blocked? && s.newEvent == 0
    ensures !Enabled(s, WorkerStep) && s.signalling == 0 ==> s.queues == Queues([], [], [])
  {
    hide Conserved, HandledOnce, DrainInv;
  }

  /**
    Every event is handled: on every run without clearing, when the worker of a running list sleeps
    with the semaphore at zero and no adder is before its signal, the handler has run exactly once
    for every event ever added, and each has been freed exactly once.
   */
  lemma EveryEventHandled(run: seq<Action>, id: nat)
    requires Possible(CREATED, run) && NoClears(run)
    ensures var s := Execute(CREATED, run);
      s.isRunning && !Enabled(s, WorkerStep) && s.signalling == 0 ==>
        s.handled[id] == s.freed[id] == if id < s.added then 1 else 0
  {
    hide Wakeup, Possible, Execute, HandledOnce, DrainInv;
    InvAtCreation();
    RunKeeps(CREATED, run);
    RunHandles(CREATED, run);
    var s := Execute(CREATED, run);
    if s.isRunning && !Enabled(s, WorkerStep) && s.signalling == 0 {
      SleepsWhenStuck(s);
      assert Places(s, id) == if id < s.added then 1 else 0;
      assert s.queues.All() == [];
    }
  }

  // ---------------------------------------------------------------------------------------
  // Who handles events
  // ---------------------------------------------------------------------------------------

  /** A handler call under way or about to be made. */
  function CallDue(s: State): nat { if s.worker.Calling? then 1 else 0 }

  predicate CallsHandler(s: State, a: Action, t: State) {
    a.WorkerStep? && s.worker.Calling? && t.handled == s.handled + multiset{s.worker.id}
  }

  lemma {:induction false} StepCalls(s: State, a: Action)
    requires Enabled(s, a)
    ensures var t := Do(s, a);
      && (t.handled == s.handled || CallsHandler(s, a, t))
      && (!s.isRunning ==> |t.handled| + CallDue(t) <= |s.handled| + CallDue(s))
  {
    hide Take;
  }

  lemma {:induction false} RunCalls(s: State, run: seq<Action>)
    requires Possible(s, run) && !s.isRunning
    ensures |Execute(s, run).handled| + CallDue(Execute(s, run)) <= |s.handled| + CallDue(s)
    decreases |run|
  {
    hide Do, Enabled, CallDue;
    if run != [] {
      StepCalls(s, run[0]);
      StaysStopped(s, run[0]);
      RunCalls(Do(s, run[0]), run[1..]);
    }
  }

  /**
    Over every run: once is_running is cleared the handler is called at most once more, and not at
    all unless the worker has already looked at is_running for the event it holds.
   */
  lemma StoppedMeansNoMoreCalls(before: seq<Action>, run: seq<Action>)
    requires Possible(CREATED, before) && !Execute(CREATED, before).isRunning
    requires Possible(Execute(CREATED, before), run)
    ensures var s := Execute(CREATED, before);
      |Execute(s, run).handled| <= |s.handled| + (if s.worker.Calling? then 1 else 0)
  {
    hide Possible, Execute;
    RunCalls(Execute(CREATED, before), run);
  }

  /** Nothing but the worker's own step calls the handler, and never for an event that has been cleared. */
  lemma OnlyWorkerHandles(run: seq<Action>, a: Action, id: nat)
    requires Possible(CREATED, run) && Enabled(Execute(CREATED, run), a)
    ensures var s := Execute(CREATED, run); var t := Do(s, a);
      && (t.handled != s.handled ==> CallsHandler(s, a, t))
      && (id in s.clearing ==> s.handled[id] == 0)
  {
    hide Possible, Execute, Do, Enabled, Wakeup, ShutdownInv, DrainInv;
    InvAtCreation();
    RunKeeps(CREATED, run);
    var s := Execute(CREATED, run);
    StepCalls(s, a);
    assert Places(s, id) == if id < s.added then 1 else 0;
  }

  /**
    The worker locks to look again only after it has read every counter as zero: with an event
    waiting and nobody else moving it is back at the test of is_running after at most three steps,
    one for each counter it reads, which is before the lock.
   */
  lemma {:induction false} LooksBeforeLocking(s: State, level: Level) returns (run: seq<Action>)
    requires s.worker == Look(level) && s.queues.All() != [] && LevelIndex(level) <= FirstIndex(s.queues)
    ensures |run| == FirstIndex(s.queues) - LevelIndex(level) + 1 <= 3 && forall a <- run :: a == WorkerStep
    ensures Possible(s, run) && Execute(s, run) == s.(worker := Loop)
    decreases LevelRank(level)
  {
    var next := Do(s, WorkerStep);
    if next.worker == Loop {
      run := [WorkerStep];
      assert run[1..] == [];
    } else {
      var later := LooksBeforeLocking(next, NextLevel(level));
      run := [WorkerStep] + later;
      assert run[1..] == later;
    }
  }
}
