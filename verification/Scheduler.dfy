/** The coroutine scheduler as a machine.  Its steps are the calls a running coroutine can make,
    each up to the point where another coroutine can run, and the resumptions that the
    scheduler's own loops make.  `CoSockets` proves the source's methods against these
    steps; here stands what every run keeps. */
module Scheduler {
  import opened Coroutine
  import opened Timeouts
  import opened Epoll

  datatype Direction = In | Out

  datatype Watcher = Watcher(readCoId: int, writeCoId: int)

  const NO_WATCHER := Watcher(-1, -1)

  /** What the stack of a suspended coroutine remembers: the call it is in. */
  datatype Place = AtFd(fd: int, dir: Direction, timed: bool) | AtCondition(key: int)

  /** All that was ever put in the two lists, and all that was ever taken out, in order. */
  datatype History = History(notified: seq<int>, woken: seq<int>, spawned: seq<int>, started: seq<int>)

  /** `resumeAt` and `funcAt` say how far the two draining loops have come in their lists. */
  datatype World = World(
    table: Table, watchers: map<int, Watcher>, interest: Interest,
    conditions: map<int, seq<int>>, conditionCounter: int,
    resumeList: seq<int>, resumeAt: nat, funcs: seq<int>, funcAt: nat,
    timeouts: Timeouts, handlingTimeout: bool, places: map<int, Place>, history: History)

  // ---- Parts of the state ------------------------------------------------------------------

  function WatcherOf(watchers: map<int, Watcher>, fd: int): Watcher {
    if fd in watchers then watchers[fd] else NO_WATCHER
  }

  function CoIdOf(x: Watcher, dir: Direction): int { if dir.In? then x.readCoId else x.writeCoId }

  function WithCoId(x: Watcher, dir: Direction, id: int): Watcher {
    if dir.In? then x.(readCoId := id) else x.(writeCoId := id)
  }

  /** GetEvents */
  function EventsOf(x: Watcher): Events { Events(x.readCoId != -1, x.writeCoId != -1) }

  function Without(e: Events, dir: Direction): Events {
    if dir.In? then e.(input := false) else e.(output := false)
  }

  function WaitSet(conditions: map<int, seq<int>>, key: int): seq<int> {
    if key in conditions then conditions[key] else []
  }

  /** A condition is a 64-bit number, but the map of wait sets is keyed by `int`. */
  function Key(condition: int): int {
    var low := condition % 0x1_0000_0000;
    if low < 0x8000_0000 then low else low - 0x1_0000_0000
  }

  /** Fewer than 2^32 conditions have different keys; of more, two share one. */
  lemma KeyExact(a: int, b: int)
    ensures Key(a) == Key(b) <==> (a - b) % 0x1_0000_0000 == 0
    ensures 0 <= a < 0x1_0000_0000 && 0 <= b < 0x1_0000_0000 && Key(a) == Key(b) ==> a == b
  {
  }

  // A std::set<int>, in the order it is gone through.

  predicate Ascending(q: seq<int>) { forall i, j | 0 <= i < j < |q| :: q[i] < q[j] }

  function Insert(q: seq<int>, id: int): seq<int> {
    if q == [] || id < q[0] then [id] + q
    else if id == q[0] then q
    else [q[0]] + Insert(q[1..], id)
  }

  lemma {:induction false} InsertMember(q: seq<int>, id: int)
    requires Ascending(q)
    ensures Ascending(Insert(q, id))
    ensures forall x :: x in Insert(q, id) <==> x == id || x in q
  {
    if q != [] && id > q[0] {
      InsertMember(q[1..], id);
      var rest := Insert(q[1..], id);
      assert q == [q[0]] + q[1..];
      forall k | 0 <= k < |rest|
        ensures q[0] < rest[k]
      {
        assert rest[k] in rest;
        if rest[k] != id {
          var m :| 0 <= m < |q[1..]| && q[1..][m] == rest[k];
        }
      }
    }
  }

  function Pending(w: World): seq<int> {
    if w.resumeAt <= |w.resumeList| then w.resumeList[w.resumeAt..] else []
  }

  predicate Suspends(w: World, id: int) { 0 <= id < |w.table.co| && w.table.co[id].Suspended? }

  predicate Runs(w: World) { 0 <= w.table.running < |w.table.co| }

  predicate Free(w: World, fd: int, dir: Direction) { CoIdOf(WatcherOf(w.watchers, fd), dir) == -1 }

  // ---- What a running coroutine does ---------------------------------------------------------

  /** NewCoroutine, called by a coroutine. */
  function Spawn(w: World, f: int): World {
    w.(funcs := w.funcs + [f], history := w.history.(spawned := w.history.spawned + [f]))
  }

  /** GetCondition */
  function TakeCondition(w: World): World { w.(conditionCounter := w.conditionCounter + 1) }

  /** ConditionNotify */
  function Notify(w: World, key: int): World {
    var list := WaitSet(w.conditions, key);
    w.(resumeList := w.resumeList + list, conditions := w.conditions[key := []],
       history := w.history.(notified := w.history.notified + list))
  }

  /** coroutine_yield, from a call at `place`. */
  function Yield(w: World, place: Place): World
    requires Runs(w)
  {
    var id := w.table.running;
    w.(table := SetSlot(w.table, id, Suspended, -1), places := w.places[id := place])
  }

  /** ConditionWait */
  function WaitCondition(w: World, key: int): World
    requires Runs(w)
  {
    Yield(w.(conditions := w.conditions[key := Insert(WaitSet(w.conditions, key), w.table.running)]), AtCondition(key))
  }

  /** DeleteEvent */
  function DeleteEvent(w: World, fd: int, dir: Direction): World {
    var x := WatcherOf(w.watchers, fd);
    w.(interest := Watching(w.interest, fd, Without(EventsOf(x), dir)),
       watchers := w.watchers[fd := WithCoId(x, dir, -1)])
  }

  /** SaveToCoIdMap and the epoll update after it, when the direction is free. */
  function AddEvent(w: World, fd: int, dir: Direction): World {
    var x := WithCoId(WatcherOf(w.watchers, fd), dir, w.table.running);
    w.(watchers := w.watchers[fd := x], interest := Watching(w.interest, fd, EventsOf(x)))
  }

  /** Read, Write, Accept and Connect from the moment the system call says that it would block.
      When another coroutine waits for the same direction nothing is waited for: the call
      fails the next time, and cleans up as if it had waited. */
  function WaitFd(w: World, fd: int, dir: Direction, timeoutMs: int, clock: Timestamp): World
    requires Runs(w)
  {
    var id := w.table.running;
    var timed := timeoutMs > 0;
    var w1 := if timed then w.(timeouts := Inserted(w.timeouts, Entry(id, AddMillisecond(clock, timeoutMs)))) else w;
    if Free(w, fd, dir) then Yield(AddEvent(w1, fd, dir), AtFd(fd, dir, timed))
    else
      var w2 := DeleteEvent(w1, fd, dir);
      if timed then w2.(timeouts := Deleted(w2.timeouts, id)) else w2
  }

  /** The end of the coroutine's function. */
  function Return(w: World): World
    requires Runs(w)
  {
    w.(table := SetSlot(w.table, w.table.running, Empty, -1))
  }

  // ---- What the scheduler does ---------------------------------------------------------------

  /** NewCoroutine, called outside all coroutines: a slot is found and its coroutine runs. */
  function Start(w: World, id: nat): World
    requires id < |Room(w.table.co)|
  {
    w.(table := Table(Room(w.table.co)[id := Running], id))
  }

  /** coroutine_resume.  A coroutine that waited for a descriptor first cleans up: it deletes its
      event, and then its deadline. */
  function Resume(w: World, id: int): World
    requires 0 <= id < |w.table.co|
  {
    if w.table.co[id].Empty? then w
    else
      var w1 := w.(table := SetSlot(w.table, id, Running, id), places := w.places - {id});
      if id in w.places && w.places[id].AtFd? then
        var w2 := DeleteEvent(w1, w.places[id].fd, w.places[id].dir);
        if w.places[id].timed then w2.(timeouts := Deleted(w2.timeouts, id)) else w2
      else w1
  }

  /** One turn of the loop in RunNewCoFunc. */
  function NextFunc(w: World, id: nat): World
    requires id < |Room(w.table.co)| && w.funcAt < |w.funcs|
  {
    Start(w, id).(funcAt := w.funcAt + 1,
                  history := w.history.(started := w.history.started + [w.funcs[w.funcAt]]))
  }

  /** One turn of the loop in RunWaitResumeCo. */
  function NextResume(w: World): World
    requires w.resumeAt < |w.resumeList| && 0 <= w.resumeList[w.resumeAt] < |w.table.co|
  {
    var id := w.resumeList[w.resumeAt];
    Resume(w.(resumeAt := w.resumeAt + 1, history := w.history.(woken := w.history.woken + [id])), id)
  }

  function ClearFuncs(w: World): World { w.(funcs := [], funcAt := 0) }
  function ClearResumes(w: World): World { w.(resumeList := [], resumeAt := 0) }

  // ---- Steps and runs ------------------------------------------------------------------------

  datatype Step =
    | CoSpawn(f: int)
    | CoTakeCondition
    | CoNotify(condition: int)
    | CoWaitCondition(condition: int)
    | CoWaitFd(fd: int, dir: Direction, timeoutMs: int, clock: Timestamp)
    | CoReturn
    | RunStart(id: nat)
    | RunNextFunc(id: nat)
    | RunClearFuncs
    | RunNextResume
    | RunClearResumes
    | RunReady(fd: int, dir: Direction)
    | RunNextExpired(now: Timestamp, coId: int)
    | RunSetTimeoutFlag(on: bool)

  /** Where control can be.  Nothing is said here about the coroutines resumed: that they are
      there to be resumed is proved. */
  ghost predicate Possible(w: World, s: Step) {
    match s
    case CoSpawn(_) => Runs(w)
    case CoTakeCondition => Runs(w)
    case CoNotify(_) => Runs(w)
    case CoWaitCondition(_) => Runs(w)
    case CoWaitFd(_, _, _, _) => Runs(w)
    case CoReturn => Runs(w)
    case RunStart(id) => w.table.running == -1 && IsNewId(w.table.co, id)
    case RunNextFunc(id) => w.table.running == -1 && w.funcAt < |w.funcs| && IsNewId(w.table.co, id)
    case RunClearFuncs => w.table.running == -1 && w.funcAt == |w.funcs|
    case RunNextResume => w.table.running == -1 && w.resumeAt < |w.resumeList|
    case RunClearResumes => w.table.running == -1 && w.resumeAt == |w.resumeList|
    case RunReady(fd, dir) => w.table.running == -1 && !Free(w, fd, dir)
    case RunNextExpired(now, id) =>
      w.table.running == -1 && exists e :: IsEarliest(w.timeouts.entries, e) && Due(e, now) && e.coId == id
    case RunSetTimeoutFlag(_) => w.table.running == -1
  }

  /** The coroutine a step resumes; -1 when it resumes none. */
  function Resumes(w: World, s: Step): int {
    match s
    case RunNextResume => if w.resumeAt < |w.resumeList| then w.resumeList[w.resumeAt] else -1
    case RunReady(fd, dir) => CoIdOf(WatcherOf(w.watchers, fd), dir)
    case RunNextExpired(_, id) => id
    case _ => -1
  }

  /** The state after a step; a step that finds no coroutine where it expects one is stuck. */
  ghost function After(w: World, s: Step): World
    requires Possible(w, s) && w.table.co != []
  {
    match s
    case CoSpawn(f) => Spawn(w, f)
    case CoTakeCondition => TakeCondition(w)
    case CoNotify(c) => Notify(w, Key(c))
    case CoWaitCondition(c) => WaitCondition(w, Key(c))
    case CoWaitFd(fd, dir, ms, clock) => WaitFd(w, fd, dir, ms, clock)
    case CoReturn => Return(w)
    case RunStart(id) => NewIdFree(w.table.co, id); Start(w, id)
    case RunNextFunc(id) => NewIdFree(w.table.co, id); NextFunc(w, id)
    case RunClearFuncs => ClearFuncs(w)
    case RunNextResume => if 0 <= Resumes(w, s) < |w.table.co| then NextResume(w) else w
    case RunClearResumes => ClearResumes(w)
    case RunReady(_, _) => if 0 <= Resumes(w, s) < |w.table.co| then Resume(w, Resumes(w, s)) else w
    case RunNextExpired(_, _) => if 0 <= Resumes(w, s) < |w.table.co| then Resume(w, Resumes(w, s)) else w
    case RunSetTimeoutFlag(on) => w.(handlingTimeout := on)
  }

  // ---- What every state keeps ------------------------------------------------------------------

  /** No coroutine is left between being made and being run, and the stacks kept are those of the
      suspended coroutines. */
  ghost predicate TableInv(w: World) {
    && TableOk(w.table)
    && (forall i | 0 <= i < |w.table.co| :: !w.table.co[i].Ready?)
    && (forall id :: id in w.places <==> Suspends(w, id))
  }

  predicate Housed(w: World, id: int, place: Place) {
    match place
    case AtFd(fd, dir, _) => CoIdOf(WatcherOf(w.watchers, fd), dir) == id
    case AtCondition(key) => id in WaitSet(w.conditions, key) || id in Pending(w)
  }

  ghost predicate PlacesInv(w: World) { forall id | id in w.places :: Housed(w, id, w.places[id]) }

  predicate WatchedBy(w: World, fd: int, dir: Direction, id: int) {
    id == -1 || (id in w.places && w.places[id].AtFd? && w.places[id].fd == fd && w.places[id].dir == dir)
  }

  ghost predicate WatchersInv(w: World) {
    forall fd ::
      WatchedBy(w, fd, In, WatcherOf(w.watchers, fd).readCoId) && WatchedBy(w, fd, Out, WatcherOf(w.watchers, fd).writeCoId)
  }

  ghost predicate ConditionsInv(w: World) {
    forall key :: WaitSetOk(w, key)
  }

  predicate WaitSetOk(w: World, key: int) {
    && Ascending(WaitSet(w.conditions, key))
    && forall id | id in WaitSet(w.conditions, key) :: id in w.places && w.places[id] == AtCondition(key)
  }

  predicate WaitsToResume(w: World, id: int) {
    id in w.places && w.places[id].AtCondition? && id !in WaitSet(w.conditions, w.places[id].key)
  }

  ghost predicate PendingInv(w: World) {
    && w.resumeAt <= |w.resumeList|
    && (forall id | id in Pending(w) :: WaitsToResume(w, id))
    && (forall i, j | 0 <= i < j < |Pending(w)| :: Pending(w)[i] != Pending(w)[j])
  }

  predicate Timed(w: World, id: int) { id in w.places && w.places[id].AtFd? && w.places[id].timed }

  ghost predicate TimeoutsInv(w: World) {
    TimeoutsOk(w.timeouts) && forall id :: id in w.timeouts.index <==> Timed(w, id)
  }

  /** The kernel watches for what the coroutines wait for, and for nothing else. */
  ghost predicate InterestInv(w: World) {
    forall fd ::
      && Watched(w.interest, fd) == EventsOf(WatcherOf(w.watchers, fd))
      && (fd in w.interest ==> w.interest[fd] != NO_EVENTS)
  }

  /** Nothing is lost in the two lists and nothing overtakes. */
  ghost predicate HistoryInv(w: World) {
    && w.history.notified == w.history.woken + Pending(w)
    && w.funcAt <= |w.funcs| && w.history.spawned == w.history.started + w.funcs[w.funcAt..]
  }

  ghost predicate Inv(w: World) {
    && TableInv(w) && PlacesInv(w) && WatchersInv(w) && ConditionsInv(w) && PendingInv(w)
    && TimeoutsInv(w) && InterestInv(w) && HistoryInv(w)
  }

  // ---- Homes -----------------------------------------------------------------------------------

  /** The places from which the scheduler can find a coroutine again. */
  datatype Home = FdSlot(fd: int, dir: Direction) | WaitSetOf(key: int) | ListEntry(k: nat)

  predicate Lives(w: World, id: int, home: Home) {
    match home
    case FdSlot(fd, dir) => id != -1 && CoIdOf(WatcherOf(w.watchers, fd), dir) == id
    case WaitSetOf(key) => id in WaitSet(w.conditions, key)
    case ListEntry(k) => k < |Pending(w)| && Pending(w)[k] == id
  }

  /** A coroutine can be found again exactly when it is suspended, and then in one place only. */
  lemma OneHome(w: World, id: int)
    requires Inv(w)
    ensures Suspends(w, id) <==> exists home :: Lives(w, id, home)
    ensures forall h1, h2 | Lives(w, id, h1) && Lives(w, id, h2) :: h1 == h2
  {
    hide TimeoutsInv, InterestInv, HistoryInv, Pending, TableOk;
    if Suspends(w, id) {
      match w.places[id] {
        case AtFd(fd, dir, _) =>
          assert Lives(w, id, FdSlot(fd, dir));
        case AtCondition(key) =>
          if id in WaitSet(w.conditions, key) {
            assert Lives(w, id, WaitSetOf(key));
          } else {
            var k: nat :| k < |Pending(w)| && Pending(w)[k] == id;
            assert Lives(w, id, ListEntry(k));
          }
      }
    }
    forall home | Lives(w, id, home)
      ensures Suspends(w, id)
    {
      HomeDetermined(w, id, home);
    }
    forall h1, h2 | Lives(w, id, h1) && Lives(w, id, h2)
      ensures h1 == h2
    {
      HomeDetermined(w, id, h1);
      HomeDetermined(w, id, h2);
    }
  }

  /** The call a coroutine is in says which home it has. */
  lemma HomeDetermined(w: World, id: int, home: Home)
    requires Inv(w) && Lives(w, id, home)
    ensures id in w.places
    ensures match home
      case FdSlot(fd, dir) => w.places[id].AtFd? && w.places[id].fd == fd && w.places[id].dir == dir
      case WaitSetOf(key) => w.places[id] == AtCondition(key)
      case ListEntry(_) => w.places[id].AtCondition? && id !in WaitSet(w.conditions, w.places[id].key)
  {
    hide TimeoutsInv, InterestInv, HistoryInv, Pending, TableInv, PlacesInv;
    match home {
      case FdSlot(fd, dir) => assert WatchedBy(w, fd, dir, id);
      case WaitSetOf(key) => assert WaitSetOk(w, key);
      case ListEntry(k) => assert Pending(w)[k] in Pending(w);
    }
  }

  // ---- Every step keeps it -----------------------------------------------------------------------

  lemma NotRunningPlaces(w: World)
    requires Inv(w) && Runs(w)
    ensures var id := w.table.running;
      id !in w.places && !(id in Pending(w)) && id !in w.timeouts.index && forall key :: id !in WaitSet(w.conditions, key)
  {
    forall key
      ensures w.table.running !in WaitSet(w.conditions, key)
    {
      assert WaitSetOk(w, key);
    }
  }

  lemma SpawnKeeps(w: World, f: int)
    requires Inv(w)
    ensures Inv(Spawn(w, f))
  {
    assert (w.funcs + [f])[w.funcAt..] == w.funcs[w.funcAt..] + [f];
    assert Pending(Spawn(w, f)) == Pending(w);
    SamePlaces(w, Spawn(w, f));
  }

  /** Nothing but the lists of functions, the counter, the flag and the running coroutine differ. */
  predicate SameWaits(w: World, w': World) {
    && w'.watchers == w.watchers && w'.interest == w.interest && w'.conditions == w.conditions
    && Pending(w') == Pending(w) && w.resumeAt <= |w.resumeList| && w'.resumeAt <= |w'.resumeList|
    && w'.timeouts == w.timeouts && w'.places == w.places
  }

  lemma SamePlaces(w: World, w': World)
    requires SameWaits(w, w') && Inv(w)
    ensures PlacesInv(w') && WatchersInv(w') && ConditionsInv(w') && PendingInv(w') && TimeoutsInv(w') && InterestInv(w')
  {
    hide Pending, TimeoutsOk, EventsOf, Ascending;
    forall id | id in w'.places
      ensures Housed(w', id, w'.places[id])
    {
      assert Housed(w, id, w.places[id]);
    }
    forall fd
      ensures var x := WatcherOf(w'.watchers, fd); WatchedBy(w', fd, In, x.readCoId) && WatchedBy(w', fd, Out, x.writeCoId)
    {
      assert WatchedBy(w, fd, In, WatcherOf(w.watchers, fd).readCoId);
      assert WatchedBy(w, fd, Out, WatcherOf(w.watchers, fd).writeCoId);
    }
    forall key
      ensures WaitSetOk(w', key)
    {
      assert WaitSetOk(w, key);
    }
    forall id | id in Pending(w')
      ensures WaitsToResume(w', id)
    {
      assert WaitsToResume(w, id);
    }
    forall id
      ensures id in w'.timeouts.index <==> Timed(w', id)
    {
      assert id in w.timeouts.index <==> Timed(w, id);
    }
  }

  /** Waking the waiters of a condition moves them, in order, from its wait set to the list. */
  lemma NotifyKeeps(w: World, key: int)
    requires Inv(w)
    ensures Inv(Notify(w, key)) && Pending(Notify(w, key)) == Pending(w) + WaitSet(w.conditions, key)
    ensures WaitSet(Notify(w, key).conditions, key) == []
  {
    hide TimeoutsOk, EventsOf, PendingInv, PlacesInv, ConditionsInv, WatchersInv, TimeoutsInv, TableInv;
    var w' := Notify(w, key);
    ResumeAtOk(w);
    assert Pending(w') == Pending(w) + WaitSet(w.conditions, key);
    SameTable(w, w');
    NotifySets(w, key);
    WatchersSame(w, w');
    NotifyPending(w, key);
    TimeoutsSame(w, w');
    assert w'.history.notified == w'.history.woken + Pending(w');
  }

  lemma NotifySets(w: World, key: int)
    requires PlacesInv(w) && ConditionsInv(w) && PendingInv(w)
    ensures PlacesInv(Notify(w, key)) && ConditionsInv(Notify(w, key))
  {
    hide Ascending;
    var w' := Notify(w, key);
    var list := WaitSet(w.conditions, key);
    assert Pending(w') == Pending(w) + list;
    assert forall k :: WaitSet(w'.conditions, k) == (if k == key then [] else WaitSet(w.conditions, k));
    forall id | id in w'.places
      ensures Housed(w', id, w'.places[id])
    {
      assert Housed(w, id, w.places[id]);
    }
    forall k
      ensures WaitSetOk(w', k)
    {
      assert WaitSetOk(w, k);
      assert Ascending([]) by { NoneAscending(); }
    }
  }

  lemma NoneAscending()
    ensures Ascending([])
  {
  }

  lemma NotifyPending(w: World, key: int)
    requires PendingInv(w) && ConditionsInv(w)
    ensures PendingInv(Notify(w, key))
  {
    var w' := Notify(w, key);
    var list := WaitSet(w.conditions, key);
    assert Pending(w') == Pending(w) + list;
    assert WaitSetOk(w, key);
    assert forall k :: WaitSet(w'.conditions, k) == (if k == key then [] else WaitSet(w.conditions, k));
    forall id | id in Pending(w')
      ensures WaitsToResume(w', id)
    {
      if id in Pending(w) {
        assert WaitsToResume(w, id);
      } else {
        assert id in list;
      }
    }
    forall i, j | 0 <= i < j < |Pending(w')|
      ensures Pending(w')[i] != Pending(w')[j]
    {
      if i < |Pending(w)| <= j {
        assert WaitsToResume(w, Pending(w)[i]);
        assert Pending(w')[j] in list;
      }
    }
  }

  lemma WatchersSame(w: World, w': World)
    requires WatchersInv(w) && w'.watchers == w.watchers && w'.places == w.places
    ensures WatchersInv(w')
  {
    forall fd
      ensures var x := WatcherOf(w'.watchers, fd); WatchedBy(w', fd, In, x.readCoId) && WatchedBy(w', fd, Out, x.writeCoId)
    {
      assert WatchedBy(w, fd, In, WatcherOf(w.watchers, fd).readCoId);
    }
  }

  lemma TimeoutsSame(w: World, w': World)
    requires TimeoutsInv(w) && w'.timeouts == w.timeouts && w'.places == w.places
    ensures TimeoutsInv(w')
  {
    hide TimeoutsOk;
    forall id
      ensures id in w'.timeouts.index <==> Timed(w', id)
    {
      assert id in w.timeouts.index <==> Timed(w, id);
    }
  }

  /** The running coroutine goes to sleep in a place where it can be found. */
  lemma YieldTable(w: World, place: Place)
    requires TableInv(w) && Runs(w)
    ensures TableInv(Yield(w, place))
  {
    var id, w' := w.table.running, Yield(w, place);
    assert w.table.co[id].Running?;
    forall i
      ensures i in w'.places <==> Suspends(w', i)
    {
      assert i in w.places <==> Suspends(w, i);
    }
  }

  lemma WaitConditionKeeps(w: World, key: int)
    requires Inv(w) && Runs(w)
    ensures Inv(WaitCondition(w, key))
  {
    hide TableInv, TimeoutsOk, EventsOf, Ascending, Insert, HistoryInv;
    var id, w' := w.table.running, WaitCondition(w, key);
    var w1 := w.(conditions := w'.conditions);
    assert TableInv(w1) by { SameTable(w, w1); }
    YieldTable(w1, AtCondition(key));
    NotRunningPlaces(w);
    assert Pending(w') == Pending(w);
    assert HistoryInv(w') by { SameHistory(w, w'); }
    assert WaitSetOk(w, key);
    InsertMember(WaitSet(w.conditions, key), id);
    var list := Insert(WaitSet(w.conditions, key), id);
    assert forall k :: WaitSet(w'.conditions, k) == (if k == key then list else WaitSet(w.conditions, k));
    forall i | i in w'.places
      ensures Housed(w', i, w'.places[i])
    {
      if i != id {
        assert Housed(w, i, w.places[i]);
      }
    }
    forall k
      ensures WaitSetOk(w', k)
    {
      assert WaitSetOk(w, k);
    }
    forall i | i in Pending(w')
      ensures WaitsToResume(w', i)
    {
      assert WaitsToResume(w, i);
    }
    YieldWatchers(w, w');
    assert TimeoutsInv(w') by {
      forall i
        ensures i in w'.timeouts.index <==> Timed(w', i)
      {
        assert i in w.timeouts.index <==> Timed(w, i);
      }
    }
  }

  lemma SameTable(w: World, w': World)
    requires TableInv(w) && w'.table == w.table && w'.places == w.places
    ensures TableInv(w')
  {
    forall id
      ensures id in w'.places <==> Suspends(w', id)
    {
      assert id in w.places <==> Suspends(w, id);
    }
  }

  lemma SameHistory(w: World, w': World)
    requires HistoryInv(w) && w'.history == w.history && Pending(w') == Pending(w) && w'.funcs == w.funcs && w'.funcAt == w.funcAt
    ensures HistoryInv(w')
  {
  }

  lemma YieldWatchers(w: World, w': World)
    requires WatchersInv(w) && w'.watchers == w.watchers && w.table.running !in w.places
    requires forall i | i in w.places :: i in w'.places && w'.places[i] == w.places[i]
    ensures WatchersInv(w')
  {
    forall fd
      ensures var x := WatcherOf(w'.watchers, fd); WatchedBy(w', fd, In, x.readCoId) && WatchedBy(w', fd, Out, x.writeCoId)
    {
      assert WatchedBy(w, fd, In, WatcherOf(w.watchers, fd).readCoId);
    }
  }

  // ---- Waiting for a descriptor -------------------------------------------------------------------

  /** The state in which a coroutine waits for a free direction. */
  lemma WaitFdFreeKeeps(w: World, fd: int, dir: Direction, timeoutMs: int, clock: Timestamp)
    requires Inv(w) && Runs(w) && Free(w, fd, dir)
    ensures Inv(WaitFd(w, fd, dir, timeoutMs, clock))
  {
    hide TableInv, TimeoutsOk, PendingInv, WatchersInv, TimeoutsInv, InterestInv, HistoryInv, PlacesInv, ConditionsInv, Inserted,
      AddMillisecond, Watching, EventsOf;
    var id, w' := w.table.running, WaitFd(w, fd, dir, timeoutMs, clock);
    var timed := timeoutMs > 0;
    var e := Entry(id, AddMillisecond(clock, timeoutMs));
    var w1 := AddEvent(if timed then w.(timeouts := Inserted(w.timeouts, e)) else w, fd, dir);
    assert w' == Yield(w1, AtFd(fd, dir, timed));
    NotRunningPlaces(w);
    SameTable(w, w1);
    YieldTable(w1, AtFd(fd, dir, timed));
    IdsAreSlots(w);
    SameHistory(w, w');
    WaitFdWatchers(w, w', fd, dir, timed);
    WaitFdOthers(w, w', fd, dir, timed);
    WaitFdTimeouts(w, w', fd, dir, timed, e);
  }

  lemma IdsAreSlots(w: World)
    requires TableInv(w)
    ensures forall id | id in w.places :: 0 <= id < |w.table.co|
  {
    assert forall id :: id in w.places <==> Suspends(w, id);
  }

  /** A watcher was set to the running coroutine, which then yielded. */
  predicate Slept(w: World, w': World, fd: int, dir: Direction, timed: bool) {
    && 0 <= w.table.running && w.table.running !in w.places
    && w'.places == w.places[w.table.running := AtFd(fd, dir, timed)]
    && w'.watchers == w.watchers[fd := WithCoId(WatcherOf(w.watchers, fd), dir, w.table.running)]
    && w'.conditions == w.conditions && w'.resumeList == w.resumeList && w'.resumeAt == w.resumeAt
  }

  lemma WaitFdWatchers(w: World, w': World, fd: int, dir: Direction, timed: bool)
    requires WatchersInv(w) && InterestInv(w) && Slept(w, w', fd, dir, timed) && Free(w, fd, dir)
    requires w'.interest == Watching(w.interest, fd, EventsOf(w'.watchers[fd]))
    ensures WatchersInv(w') && InterestInv(w')
  {
    forall f
      ensures var x := WatcherOf(w'.watchers, f); WatchedBy(w', f, In, x.readCoId) && WatchedBy(w', f, Out, x.writeCoId)
    {
      assert WatchedBy(w, f, In, WatcherOf(w.watchers, f).readCoId);
      assert WatchedBy(w, f, Out, WatcherOf(w.watchers, f).writeCoId);
    }
    forall f
      ensures Watched(w'.interest, f) == EventsOf(WatcherOf(w'.watchers, f))
      ensures f in w'.interest ==> w'.interest[f] != NO_EVENTS
    {
      assert Watched(w.interest, f) == EventsOf(WatcherOf(w.watchers, f));
    }
  }

  lemma WaitFdOthers(w: World, w': World, fd: int, dir: Direction, timed: bool)
    requires PlacesInv(w) && ConditionsInv(w) && PendingInv(w) && Slept(w, w', fd, dir, timed) && Free(w, fd, dir)
    requires w.table.running !in Pending(w)
    requires forall i | i in w.places :: i != -1
    ensures PlacesInv(w') && ConditionsInv(w') && PendingInv(w')
  {
    hide Ascending;
    assert Pending(w') == Pending(w);
    forall i | i in w'.places
      ensures Housed(w', i, w'.places[i])
    {
      if i != w.table.running {
        assert Housed(w, i, w.places[i]);
      }
    }
    forall k
      ensures WaitSetOk(w', k)
    {
      assert WaitSetOk(w, k);
    }
    forall i | i in Pending(w')
      ensures WaitsToResume(w', i)
    {
      assert WaitsToResume(w, i);
    }
  }

  lemma WaitFdTimeouts(w: World, w': World, fd: int, dir: Direction, timed: bool, e: Entry)
    requires TimeoutsInv(w) && Slept(w, w', fd, dir, timed) && e.coId == w.table.running && e.coId !in w.timeouts.index
    requires w'.timeouts == if timed then Inserted(w.timeouts, e) else w.timeouts
    ensures TimeoutsInv(w')
  {
    hide TimeoutsOk;
    InsertKeepsExactly(w.timeouts, e);
    assert e !in w.timeouts.entries by { EntryNotThere(w.timeouts, e); }
    forall i
      ensures i in w'.timeouts.index <==> Timed(w', i)
    {
      assert i in w.timeouts.index <==> Timed(w, i);
    }
  }

  lemma EntryNotThere(t: Timeouts, e: Entry)
    requires TimeoutsOk(t) && e.coId !in t.index
    ensures e !in t.entries
  {
  }

  // ---- Resuming ---------------------------------------------------------------------------------------

  lemma ResumeTable(w: World, id: int)
    requires TableInv(w) && w.table.running == -1 && id in w.places
    ensures 0 <= id < |w.table.co| && w.table.co[id].Suspended?
    ensures TableInv(w.(table := SetSlot(w.table, id, Running, id), places := w.places - {id}))
  {
    assert Suspends(w, id);
    var w' := w.(table := SetSlot(w.table, id, Running, id), places := w.places - {id});
    forall i
      ensures i in w'.places <==> Suspends(w', i)
    {
      assert i in w.places <==> Suspends(w, i);
    }
  }

  /** The watcher of the resumed coroutine is reset. */
  predicate Woke(w: World, w': World, id: int) {
    && id in w.places && id >= 0 && w.places[id].AtFd?
    && w'.places == w.places - {id}
    && w'.watchers == w.watchers[w.places[id].fd := WithCoId(WatcherOf(w.watchers, w.places[id].fd), w.places[id].dir, -1)]
    && w'.conditions == w.conditions && w'.resumeList == w.resumeList && w'.resumeAt == w.resumeAt
  }

  lemma WakeWatchers(w: World, w': World, id: int)
    requires WatchersInv(w) && InterestInv(w) && PlacesInv(w) && Woke(w, w', id)
    requires var fd := w.places[id].fd;
      w'.interest == Watching(w.interest, fd, Without(EventsOf(WatcherOf(w.watchers, fd)), w.places[id].dir))
    ensures WatchersInv(w') && InterestInv(w')
  {
    var fd := w.places[id].fd;
    assert Housed(w, id, w.places[id]);
    forall f
      ensures var x := WatcherOf(w'.watchers, f); WatchedBy(w', f, In, x.readCoId) && WatchedBy(w', f, Out, x.writeCoId)
    {
      assert WatchedBy(w, f, In, WatcherOf(w.watchers, f).readCoId);
      assert WatchedBy(w, f, Out, WatcherOf(w.watchers, f).writeCoId);
    }
    forall f
      ensures Watched(w'.interest, f) == EventsOf(WatcherOf(w'.watchers, f))
      ensures f in w'.interest ==> w'.interest[f] != NO_EVENTS
    {
      assert Watched(w.interest, f) == EventsOf(WatcherOf(w.watchers, f));
    }
  }

  lemma WakeOthers(w: World, w': World, id: int)
    requires PlacesInv(w) && ConditionsInv(w) && PendingInv(w) && WatchersInv(w) && Woke(w, w', id)
    ensures PlacesInv(w') && ConditionsInv(w') && PendingInv(w')
  {
    hide Ascending;
    assert Pending(w') == Pending(w);
    assert Housed(w, id, w.places[id]);
    forall i | i in w'.places
      ensures Housed(w', i, w'.places[i])
    {
      assert Housed(w, i, w.places[i]);
    }
    forall k
      ensures WaitSetOk(w', k)
    {
      assert WaitSetOk(w, k);
    }
    forall i | i in Pending(w')
      ensures WaitsToResume(w', i)
    {
      assert WaitsToResume(w, i);
    }
  }

  lemma WakeTimeouts(w: World, w': World, id: int)
    requires TimeoutsInv(w) && Woke(w, w', id)
    requires w'.timeouts == if w.places[id].timed then Deleted(w.timeouts, id) else w.timeouts
    ensures TimeoutsInv(w')
  {
    hide TimeoutsOk;
    DeleteKeeps(w.timeouts, id);
    forall i
      ensures i in w'.timeouts.index <==> Timed(w', i)
    {
      assert i in w.timeouts.index <==> Timed(w, i);
    }
  }

  /** A coroutine resumed from a descriptor, by an event or by its deadline, leaves no trace. */
  lemma ResumeFdKeeps(w: World, id: int)
    requires Inv(w) && w.table.running == -1 && id in w.places && w.places[id].AtFd?
    ensures Suspends(w, id) && Inv(Resume(w, id)) && Resume(w, id).table.running == id
    ensures var w' := Resume(w, id);
      w'.timeouts == Deleted(w.timeouts, id) && Pending(w') == Pending(w) && w'.handlingTimeout == w.handlingTimeout
  {
    hide TableInv, TimeoutsOk, PendingInv, WatchersInv, TimeoutsInv, InterestInv, HistoryInv, PlacesInv, ConditionsInv, Deleted,
      Watching, EventsOf;
    ResumeTable(w, id);
    var w' := Resume(w, id);
    SameTable(w.(table := SetSlot(w.table, id, Running, id), places := w.places - {id}), w');
    SameHistory(w, w');
    WakeWatchers(w, w', id);
    WakeOthers(w, w', id);
    WakeTimeouts(w, w', id);
    if !w.places[id].timed {
      UntimedDelete(w, id);
    }
  }

  lemma UntimedDelete(w: World, id: int)
    requires TimeoutsInv(w) && !Timed(w, id)
    ensures Deleted(w.timeouts, id) == w.timeouts
  {
    hide TimeoutsOk;
    assert id in w.timeouts.index <==> Timed(w, id);
  }

  /** A coroutine resumed from the list was the oldest entry, and is not in it any more. */
  lemma NextResumeKeeps(w: World)
    requires Inv(w) && w.table.running == -1 && w.resumeAt < |w.resumeList|
    ensures var id := w.resumeList[w.resumeAt];
      && Suspends(w, id) && Inv(NextResume(w)) && NextResume(w).table.running == id
      && Pending(w) == [id] + Pending(NextResume(w))
  {
    hide TableInv, TimeoutsOk, WatchersInv, TimeoutsInv, InterestInv, HistoryInv, PlacesInv, ConditionsInv, EventsOf, Ascending;
    var id := w.resumeList[w.resumeAt];
    assert Pending(w)[0] == id;
    assert WaitsToResume(w, id);
    ResumeTable(w, id);
    var w' := NextResume(w);
    assert Pending(w) == [id] + Pending(w');
    SameTable(w.(table := SetSlot(w.table, id, Running, id), places := w.places - {id}), w');
    NextResumeLists(w, w', id);
    NextResumeOthers(w, w', id);
  }

  predicate TakenFromList(w: World, w': World, id: int) {
    && id in w.places && w.places[id].AtCondition? && id !in WaitSet(w.conditions, w.places[id].key) && id >= 0
    && w'.places == w.places - {id}
    && Pending(w) == [id] + Pending(w') && w'.resumeAt <= |w'.resumeList|
    && w'.watchers == w.watchers && w'.conditions == w.conditions && w'.interest == w.interest && w'.timeouts == w.timeouts
    && w'.funcs == w.funcs && w'.funcAt == w.funcAt
    && w'.history == w.history.(woken := w.history.woken + [id])
  }

  lemma NextResumeLists(w: World, w': World, id: int)
    requires PlacesInv(w) && ConditionsInv(w) && PendingInv(w) && HistoryInv(w) && TakenFromList(w, w', id)
    ensures PlacesInv(w') && ConditionsInv(w') && PendingInv(w') && HistoryInv(w')
  {
    hide Ascending, Pending, PendingInv, WaitsToResume;
    NextResumePending(w, w', id);
    forall i | i in w'.places
      ensures Housed(w', i, w'.places[i])
    {
      assert Housed(w, i, w.places[i]);
    }
    forall k
      ensures WaitSetOk(w', k)
    {
      assert WaitSetOk(w, k);
    }
    assert w.history.woken + ([id] + Pending(w')) == w.history.woken + [id] + Pending(w');
  }

  lemma NextResumePending(w: World, w': World, id: int)
    requires PendingInv(w) && TakenFromList(w, w', id)
    ensures PendingInv(w')
  {
    hide Pending;
    var rest := Pending(w');
    forall i, j | 0 <= i < j < |rest|
      ensures rest[i] != rest[j]
    {
      assert Pending(w)[i + 1] != Pending(w)[j + 1];
    }
    forall i | i in rest
      ensures WaitsToResume(w', i)
    {
      var k: nat :| k < |rest| && rest[k] == i;
      assert Pending(w)[k + 1] == i && Pending(w)[0] == id;
      assert WaitsToResume(w, i);
    }
  }

  lemma NextResumeOthers(w: World, w': World, id: int)
    requires WatchersInv(w) && InterestInv(w) && TimeoutsInv(w) && TakenFromList(w, w', id)
    ensures WatchersInv(w') && InterestInv(w') && TimeoutsInv(w')
  {
    hide TimeoutsOk;
    forall f
      ensures var x := WatcherOf(w'.watchers, f); WatchedBy(w', f, In, x.readCoId) && WatchedBy(w', f, Out, x.writeCoId)
    {
      assert WatchedBy(w, f, In, WatcherOf(w.watchers, f).readCoId);
      assert WatchedBy(w, f, Out, WatcherOf(w.watchers, f).writeCoId);
    }
    forall i
      ensures i in w'.timeouts.index <==> Timed(w', i)
    {
      assert i in w.timeouts.index <==> Timed(w, i);
    }
  }

  // ---- Coroutines come and go ----------------------------------------------------------------------------

  lemma ReturnKeeps(w: World)
    requires Inv(w) && Runs(w)
    ensures Inv(Return(w))
  {
    hide TimeoutsOk, PendingInv, WatchersInv, TimeoutsInv, InterestInv, PlacesInv, ConditionsInv;
    var w' := Return(w);
    assert w.table.co[w.table.running].Running?;
    forall i
      ensures i in w'.places <==> Suspends(w', i)
    {
      assert i in w.places <==> Suspends(w, i);
    }
    SamePlaces(w, w') by { assert PendingInv(w) && w.resumeAt <= |w.resumeList| by { ResumeAtOk(w); } }
  }

  lemma ResumeAtOk(w: World)
    requires PendingInv(w)
    ensures w.resumeAt <= |w.resumeList|
  {
  }

  /** A new coroutine takes a slot that nobody had. */
  lemma StartKeeps(w: World, id: nat)
    requires Inv(w) && w.table.running == -1 && IsNewId(w.table.co, id)
    ensures id < |Room(w.table.co)| && Inv(Start(w, id)) && Start(w, id).table.running == id
    ensures !Suspends(w, id)
  {
    hide TimeoutsOk, PendingInv, WatchersInv, TimeoutsInv, InterestInv, PlacesInv, ConditionsInv, Room, IsNewId, Occupied;
    NewIdFree(w.table.co, id);
    RoomSize(w.table.co);
    var w' := Start(w, id);
    var co := Room(w.table.co);
    forall i
      ensures i in w'.places <==> Suspends(w', i)
    {
      assert i in w.places <==> Suspends(w, i);
      assert |w.table.co| <= i < |co| ==> co[i].Empty?;
    }
    ResumeAtOk(w);
    SamePlaces(w, w');
  }

  lemma RoomSize(co: seq<Slot>)
    ensures |co| <= |Room(co)| && forall i | |co| <= i < |Room(co)| :: Room(co)[i].Empty?
  {
  }

  lemma NextFuncKeeps(w: World, id: nat)
    requires Inv(w) && w.table.running == -1 && w.funcAt < |w.funcs| && IsNewId(w.table.co, id)
    ensures id < |Room(w.table.co)| && Inv(NextFunc(w, id)) && NextFunc(w, id).table.running == id
  {
    hide TimeoutsOk, PendingInv, WatchersInv, TimeoutsInv, InterestInv, PlacesInv, ConditionsInv, TableInv, Room, IsNewId, Start;
    StartKeeps(w, id);
    StartOnlyTable(w, id);
    var w1, w' := Start(w, id), NextFunc(w, id);
    SameTable(w1, w');
    ResumeAtOk(w);
    SamePlaces(w, w');
    var f := w.funcs[w.funcAt];
    assert w.funcs[w.funcAt..] == [f] + w.funcs[w.funcAt + 1..];
    assert w.history.started + w.funcs[w.funcAt..] == w.history.started + [f] + w.funcs[w.funcAt + 1..];
  }

  lemma StartOnlyTable(w: World, id: nat)
    requires id < |Room(w.table.co)|
    ensures Start(w, id) == w.(table := Start(w, id).table)
  {
  }

  /** A list is thrown away only when everything in it has been handed out. */
  lemma ClearKeeps(w: World)
    requires Inv(w)
    ensures w.funcAt == |w.funcs| ==> Inv(ClearFuncs(w))
    ensures w.resumeAt == |w.resumeList| ==> Inv(ClearResumes(w))
  {
    hide TimeoutsOk, PendingInv, WatchersInv, TimeoutsInv, InterestInv, PlacesInv, ConditionsInv, TableInv;
    ResumeAtOk(w);
    SameTable(w, ClearFuncs(w));
    SameTable(w, ClearResumes(w));
    if w.funcAt == |w.funcs| {
      SamePlaces(w, ClearFuncs(w));
    }
    if w.resumeAt == |w.resumeList| {
      SamePlaces(w, ClearResumes(w));
    }
  }
}
