/** Every run of the scheduler: no resumption misses, no wakeup is lost, none reaches a stranger. */
module SchedulerRuns {
  import opened Coroutine
  import opened Timeouts
  import opened Epoll
  import opened Scheduler

  /** The rule for users: a direction of a descriptor has one waiter at a time. */
  predicate Undoubled(w: World, s: Step) { s.CoWaitFd? ==> Free(w, s.fd, s.dir) }

  predicate IsResumption(s: Step) { s.RunNextResume? || s.RunReady? || s.RunNextExpired? }

  // ---- The rule is needed ------------------------------------------------------------------------

  /** A second waiter does not wait.  It takes the first one's registration with it: the first is
      still suspended, but nothing leads to it any more. */
  lemma DoubledWaitLoses(w: World, fd: int, dir: Direction, timeoutMs: int, clock: Timestamp)
    requires Inv(w) && Runs(w) && !Free(w, fd, dir)
    ensures var w', other := WaitFd(w, fd, dir, timeoutMs, clock), CoIdOf(WatcherOf(w.watchers, fd), dir);
      && w'.table == w.table && Suspends(w', other) && (forall home :: !Lives(w', other, home))
      && !PlacesInv(w')
  {
    hide TimeoutsInv, InterestInv, HistoryInv, Inserted, Deleted, Watching, AddMillisecond;
    var w' := WaitFd(w, fd, dir, timeoutMs, clock);
    var other := CoIdOf(WatcherOf(w.watchers, fd), dir);
    assert WatchedBy(w, fd, In, WatcherOf(w.watchers, fd).readCoId);
    assert WatchedBy(w, fd, Out, WatcherOf(w.watchers, fd).writeCoId);
    assert w'.places == w.places && Pending(w') == Pending(w) && w'.conditions == w.conditions;
    assert Suspends(w, other);
    assert !Housed(w', other, w'.places[other]);
    forall home
      ensures !Lives(w', other, home)
    {
      if Lives(w', other, home) {
        assert Lives(w, other, home);
        HomeDetermined(w, other, home);
      }
    }
  }

  /** Waiting for a descriptor keeps everything exactly when nobody waits for the same. */
  lemma WaitFdExactly(w: World, fd: int, dir: Direction, timeoutMs: int, clock: Timestamp)
    requires Inv(w) && Runs(w)
    ensures Inv(WaitFd(w, fd, dir, timeoutMs, clock)) <==> Free(w, fd, dir)
  {
    hide TableInv, PlacesInv, WatchersInv, ConditionsInv, PendingInv, TimeoutsInv, InterestInv, HistoryInv, WaitFd;
    if Free(w, fd, dir) {
      WaitFdFreeKeeps(w, fd, dir, timeoutMs, clock);
    } else {
      DoubledWaitLoses(w, fd, dir, timeoutMs, clock);
    }
  }

  // ---- One step -----------------------------------------------------------------------------------

  lemma TimedIsSuspended(w: World, now: Timestamp, id: int)
    requires Inv(w) && Possible(w, RunNextExpired(now, id))
    ensures id in w.places && w.places[id].AtFd? && Timed(w, id)
  {
    hide TableInv, PlacesInv, WatchersInv, ConditionsInv, PendingInv, InterestInv, HistoryInv;
    var e :| IsEarliest(w.timeouts.entries, e) && Due(e, now) && e.coId == id;
    assert id in w.timeouts.index;
    assert id in w.timeouts.index <==> Timed(w, id);
  }

  lemma WatcherIsSuspended(w: World, fd: int, dir: Direction)
    requires Inv(w) && !Free(w, fd, dir)
    ensures var id := CoIdOf(WatcherOf(w.watchers, fd), dir);
      id in w.places && w.places[id].AtFd? && w.places[id].fd == fd && w.places[id].dir == dir
  {
    hide TableInv, PlacesInv, ConditionsInv, PendingInv, InterestInv, HistoryInv, TimeoutsInv;
    assert WatchedBy(w, fd, In, WatcherOf(w.watchers, fd).readCoId);
  }

  lemma InvTable(w: World)
    requires Inv(w)
    ensures w.table.co != []
  {
  }

  /** A resumption finds a suspended coroutine, with no other running, and runs it. */
  lemma ResumptionHits(w: World, s: Step)
    requires Inv(w) && Possible(w, s) && IsResumption(s)
    ensures w.table.co != [] && w.table.running == -1 && Suspends(w, Resumes(w, s))
    ensures var w' := After(w, s); Inv(w') && w'.table.running == Resumes(w, s)
  {
    hide TableInv, PlacesInv, WatchersInv, ConditionsInv, PendingInv, TimeoutsInv, InterestInv, HistoryInv, Resume;
    InvTable(w);
    match s {
      case RunNextResume =>
        NextResumeKeeps(w);
      case RunReady(fd, dir) =>
        WatcherIsSuspended(w, fd, dir);
        ResumeFdKeeps(w, Resumes(w, s));
      case RunNextExpired(now, id) =>
        TimedIsSuspended(w, now, id);
        ResumeFdKeeps(w, id);
    }
  }

  lemma FlagKeeps(w: World, w': World)
    requires Inv(w) && w' == w.(handlingTimeout := w'.handlingTimeout, conditionCounter := w'.conditionCounter)
    ensures Inv(w')
  {
    hide TimeoutsOk, PendingInv, WatchersInv, TimeoutsInv, InterestInv, PlacesInv, ConditionsInv, TableInv;
    ResumeAtOk(w);
    SameTable(w, w');
    SamePlaces(w, w');
  }

  /** Every step keeps the invariant. */
  lemma StepKeeps(w: World, s: Step)
    requires Inv(w) && Possible(w, s) && Undoubled(w, s)
    ensures w.table.co != [] && Inv(After(w, s))
  {
    hide Inv, Resume, NextResume, Start, NextFunc, WaitFd, WaitCondition, Return, Notify, Spawn;
    InvTable(w);
    match s {
      case CoSpawn(f) => SpawnKeeps(w, f);
      case CoTakeCondition => FlagKeeps(w, After(w, s));
      case CoNotify(c) => NotifyKeeps(w, Key(c));
      case CoWaitCondition(c) => WaitConditionKeeps(w, Key(c));
      case CoWaitFd(fd, dir, ms, clock) => WaitFdFreeKeeps(w, fd, dir, ms, clock);
      case CoReturn => ReturnKeeps(w);
      case RunStart(id) => StartKeeps(w, id);
      case RunNextFunc(id) => NextFuncKeeps(w, id);
      case RunClearFuncs => ClearKeeps(w);
      case RunClearResumes => ClearKeeps(w);
      case RunSetTimeoutFlag(_) => FlagKeeps(w, After(w, s));
      case _ => ResumptionHits(w, s);
    }
  }

  // ---- Whole runs ---------------------------------------------------------------------------------

  /** coroutine_open, and everything else empty. */
  function Initial(): World {
    World(Table(Blank(DEFAULT_COROUTINE), -1), map[], map[], map[], 0, [], 0, [], 0, Timeouts({}, map[]), false, map[],
          History([], [], [], []))
  }

  ghost predicate Legal(w: World, steps: seq<Step>)
    decreases |steps|
  {
    steps == [] ||
    (w.table.co != [] && Possible(w, steps[0]) && Undoubled(w, steps[0]) && Legal(After(w, steps[0]), steps[1..]))
  }

  ghost function Play(w: World, steps: seq<Step>): World
    requires Legal(w, steps)
    decreases |steps|
  {
    if steps == [] then w else Play(After(w, steps[0]), steps[1..])
  }

  lemma InitialInv()
    ensures Inv(Initial())
  {
    assert forall fd :: WatcherOf(Initial().watchers, fd) == NO_WATCHER;
    assert forall key :: WaitSet(Initial().conditions, key) == [];
  }

  lemma {:induction false} PlayKeeps(w: World, steps: seq<Step>)
    requires Inv(w) && Legal(w, steps)
    ensures Inv(Play(w, steps))
    decreases |steps|
  {
    hide Inv, After, Possible, Undoubled;
    if steps != [] {
      StepKeeps(w, steps[0]);
      PlayKeeps(After(w, steps[0]), steps[1..]);
    }
  }

  /** Wherever a run has come to: the invariant holds; a coroutine is suspended exactly when the
      scheduler has it in one, and only one, of its places; and whatever is resumed next is such
      a coroutine, found while no other runs. */
  lemma EveryRun(steps: seq<Step>, next: Step, id: int)
    requires Legal(Initial(), steps)
    ensures var w := Play(Initial(), steps);
      && Inv(w)
      && (Suspends(w, id) <==> exists home :: Lives(w, id, home))
      && (forall h1, h2 | Lives(w, id, h1) && Lives(w, id, h2) :: h1 == h2)
      && (Possible(w, next) && IsResumption(next) ==> w.table.running == -1 && Suspends(w, Resumes(w, next)))
  {
    hide Inv, Possible, Lives, Legal, Play, Resumes;
    InitialInv();
    PlayKeeps(Initial(), steps);
    var w := Play(Initial(), steps);
    OneHome(w, id);
    if Possible(w, next) && IsResumption(next) {
      ResumptionHits(w, next);
    }
  }

  // ---- No wakeup reaches a stranger ------------------------------------------------------------------

  ghost predicate NeverResumed(w: World, steps: seq<Step>, id: int)
    requires Legal(w, steps)
    decreases |steps|
  {
    steps == [] ||
    (!(IsResumption(steps[0]) && Resumes(w, steps[0]) == id) && NeverResumed(After(w, steps[0]), steps[1..], id))
  }

  /** A step that does not resume a suspended coroutine leaves it where it is. */
  lemma StaysPut(w: World, s: Step, id: int)
    requires Inv(w) && Possible(w, s) && Undoubled(w, s) && id in w.places
    requires !(IsResumption(s) && Resumes(w, s) == id)
    ensures w.table.co != [] && id in After(w, s).places && After(w, s).places[id] == w.places[id]
  {
    hide PlacesInv, WatchersInv, ConditionsInv, PendingInv, TimeoutsInv, InterestInv, HistoryInv, Inserted, Deleted, Watching,
      AddMillisecond, Insert, Pending, WithCoId, Without, EventsOf, Key, SetSlot, Room, IsNewId, IsEarliest, Due;
    InvTable(w);
    assert Suspends(w, id);
    assert Runs(w) ==> w.table.running != id;
  }

  /** Until it is resumed, a suspended coroutine stays in the call it is in: its id is not given
      to another, however long a wakeup for it is under way. */
  lemma {:induction false} NotRecycled(w: World, steps: seq<Step>, id: int)
    requires Inv(w) && Legal(w, steps) && id in w.places && NeverResumed(w, steps, id)
    ensures var w' := Play(w, steps); Suspends(w', id) && id in w'.places && w'.places[id] == w.places[id]
    decreases |steps|
  {
    hide After, Possible, Undoubled, Resumes, PlacesInv, WatchersInv, ConditionsInv, PendingInv, TimeoutsInv, InterestInv, HistoryInv;
    if steps == [] {
      assert id in w.places <==> Suspends(w, id);
    } else {
      StepKeeps(w, steps[0]);
      StaysPut(w, steps[0], id);
      NotRecycled(After(w, steps[0]), steps[1..], id);
    }
  }
}
