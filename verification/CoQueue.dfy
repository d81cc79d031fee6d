/** The queue between coroutines: producers never wait, a consumer waits while there is nothing. */
module CoQueues {
  import opened Options
  import opened Coroutine
  import opened Timeouts
  import opened Epoll
  import opened Scheduler
  import opened SchedulerRuns
  import opened CoSockets

  /** A queue in its scheduler, with all that ever went in and came out. */
  datatype System<T> = System(w: World, queue: seq<T>, enqueued: seq<T>, dequeued: seq<T>)

  function Enqued<T>(s: System<T>, key: int, x: T): System<T> {
    System(Notify(s.w, key), s.queue + [x], s.enqueued + [x], s.dequeued)
  }

  /** One pass of the loop in Deque: wait, or take the first item. */
  function Dequed<T>(s: System<T>, key: int): System<T>
    requires Runs(s.w)
  {
    if s.queue == [] then s.(w := WaitCondition(s.w, key))
    else s.(queue := s.queue[1..], dequeued := s.dequeued + [s.queue[0]])
  }

  class CoQueue<T(==)> {
    const cs: CoSocket
    const condition: int
    var queue: seq<T>
    ghost var enqueued: seq<T>
    ghost var dequeued: seq<T>

    ghost function View(): System<T>
      reads this, cs, cs.Repr()
    {
      System(cs.View(), queue, enqueued, dequeued)
    }

    constructor (cs: CoSocket)
      requires cs.conditionCounter < 0xFFFF_FFFF_FFFF_FFFF
      modifies cs
      ensures this.cs == cs && condition == old(cs.conditionCounter)
      ensures cs.View() == TakeCondition(old(cs.View()))
      ensures View() == System(cs.View(), [], [], [])
    {
      this.cs := cs;
      queue, enqueued, dequeued := [], [], [];
      var c := cs.GetCondition();
      condition := c;
    }

    method Enque(x: T)
      requires this !in cs.Repr()
      modifies this, cs
      ensures View() == Enqued(old(View()), Key(condition), x)
    {
      queue, enqueued := queue + [x], enqueued + [x];
      cs.ConditionNotify(condition);
    }

    /** Deque, from its start or from where it wakes up, to the item or to the next wait. */
    method DequePass() returns (item: Option<T>)
      requires this !in cs.Repr() && cs.schedule.Valid() && cs.schedule.running >= 0
      modifies this, cs, cs.schedule, cs.schedule.co
      ensures cs.schedule.Valid()
      ensures View() == Dequed(old(View()), Key(condition))
      ensures item == if old(queue) == [] then None else Some(old(queue)[0])
    {
      hide WaitCondition;
      if queue == [] {
        cs.ConditionWait(condition);
        return None;
      }
      item := Some(queue[0]);
      dequeued := dequeued + [queue[0]];
      queue := queue[1..];
    }
  }

  // ---- Every run ---------------------------------------------------------------------------------

  datatype QueueStep<T> = EnqueStep(x: T) | DequeStep | OtherStep(step: Step)

  /** Only consumers of this queue wait for its condition. */
  ghost predicate Allowed<T>(s: System<T>, key: int, q: QueueStep<T>) {
    match q
    case EnqueStep(_) => Runs(s.w)
    case DequeStep => Runs(s.w)
    case OtherStep(step) =>
      Possible(s.w, step) && Undoubled(s.w, step) && (step.CoWaitCondition? ==> Key(step.condition) != key)
  }

  ghost function Do<T>(s: System<T>, key: int, q: QueueStep<T>): System<T>
    requires s.w.table.co != [] && Allowed(s, key, q)
  {
    match q
    case EnqueStep(x) => Enqued(s, key, x)
    case DequeStep => Dequed(s, key)
    case OtherStep(step) => s.(w := After(s.w, step))
  }

  ghost predicate QueueInv<T>(s: System<T>, key: int) {
    && Inv(s.w)
    && (s.queue != [] ==> WaitSet(s.w.conditions, key) == [])
    && s.enqueued == s.dequeued + s.queue
  }

  /** No other step puts anyone into the wait set of the condition. */
  lemma OthersDoNotWait(w: World, step: Step, key: int)
    requires w.table.co != [] && Possible(w, step) && (step.CoWaitCondition? ==> Key(step.condition) != key)
    requires WaitSet(w.conditions, key) == []
    ensures WaitSet(After(w, step).conditions, key) == []
  {
    hide Key, Insert, Inserted, Deleted, Watching, WithCoId, Without, EventsOf, IsNewId, Room, SetSlot, AddMillisecond;
  }

  lemma QueueStepKeeps<T>(s: System<T>, key: int, q: QueueStep<T>)
    requires QueueInv(s, key) && Allowed(s, key, q)
    ensures s.w.table.co != [] && QueueInv(Do(s, key, q), key)
  {
    hide Inv, Possible, Undoubled, After, WaitCondition, Notify;
    InvTable(s.w);
    match q {
      case EnqueStep(x) =>
        NotifyKeeps(s.w, key);
        assert s.dequeued + (s.queue + [x]) == s.dequeued + s.queue + [x];
      case DequeStep =>
        if s.queue == [] {
          WaitConditionKeeps(s.w, key);
        } else {
          assert s.queue == [s.queue[0]] + s.queue[1..];
          assert s.dequeued + s.queue == s.dequeued + [s.queue[0]] + s.queue[1..];
        }
      case OtherStep(step) =>
        StepKeeps(s.w, step);
        if s.queue != [] {
          OthersDoNotWait(s.w, step, key);
        }
    }
  }

  ghost predicate LegalQueue<T>(s: System<T>, key: int, steps: seq<QueueStep<T>>)
    decreases |steps|
  {
    steps == [] || (s.w.table.co != [] && Allowed(s, key, steps[0]) && LegalQueue(Do(s, key, steps[0]), key, steps[1..]))
  }

  ghost function PlayQueue<T>(s: System<T>, key: int, steps: seq<QueueStep<T>>): System<T>
    requires LegalQueue(s, key, steps)
    decreases |steps|
  {
    if steps == [] then s else PlayQueue(Do(s, key, steps[0]), key, steps[1..])
  }

  lemma {:induction false} QueueRunKeeps<T>(s: System<T>, key: int, steps: seq<QueueStep<T>>)
    requires QueueInv(s, key) && LegalQueue(s, key, steps)
    ensures QueueInv(PlayQueue(s, key, steps), key)
    decreases |steps|
  {
    hide QueueInv, Do, Allowed;
    if steps != [] {
      assert s.w.table.co != [] && Allowed(s, key, steps[0]);
      QueueStepKeeps(s, key, steps[0]);
      QueueRunKeeps(Do(s, key, steps[0]), key, steps[1..]);
    }
  }

  /** No wakeup is lost, in any run with any number of producers and consumers that starts with an
      empty queue whose condition is new: while there are items nobody is in the wait set, so a
      consumer that sleeps has its wakeup under way; and what came out and what is still there
      are, in order, what went in. */
  lemma NoLostWakeup<T>(w: World, key: int, steps: seq<QueueStep<T>>, consumer: int)
    requires Inv(w) && LegalQueue(System(w, [], [], []), key, steps)
    ensures var s := PlayQueue(System(w, [], [], []), key, steps);
      && s.dequeued + s.queue == s.enqueued
      && (s.queue != [] ==> WaitSet(s.w.conditions, key) == [])
      && (s.queue != [] && consumer in s.w.places && s.w.places[consumer] == AtCondition(key) ==>
            consumer in Pending(s.w))
  {
    hide Inv, LegalQueue, PlayQueue, Pending, WaitSet;
    QueueRunKeeps(System(w, [], [], []), key, steps);
    var s := PlayQueue(System(w, [], [], []), key, steps);
    if consumer in s.w.places {
      SleeperHoused(s.w, consumer);
    }
  }

  lemma SleeperHoused(w: World, id: int)
    requires Inv(w) && id in w.places
    ensures Housed(w, id, w.places[id])
  {
    hide TableInv, WatchersInv, ConditionsInv, PendingInv, TimeoutsInv, InterestInv, HistoryInv;
  }

  /** The first fewer than 2^32 conditions never share a wait set; condition 2^32 shares that of
      condition 0, and so breaks the rule for the queues that use them. */
  lemma ConditionsApart(a: int, b: int)
    requires 0 <= a < b
    ensures b < 0x1_0000_0000 ==> Key(a) != Key(b)
    ensures Key(0) == Key(0x1_0000_0000)
  {
    KeyExact(a, b);
  }
}
