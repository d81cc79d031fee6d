/** The scheduler's own methods, on their own fields, proved against the machine of Scheduler.

    A resumed coroutine runs inside the method that resumes it until it yields or returns.  What
    it does there is given as a script of calls; at the end of its script it returns.  Scripts
    are arbitrary, so what holds for all scripts holds for all coroutines. */
module CoSockets {
  import opened Coroutine
  import opened Timeouts
  import opened Epoll
  import opened Scheduler
  import opened SchedulerRuns

  datatype Call =
    | NewCoroutineCall(f: int)
    | GetConditionCall
    | NotifyCall(condition: int)
    | WaitCall(condition: int)
    | FdCall(fd: int, dir: Direction, timeoutMs: int, clock: Timestamp)

  type Script = seq<Call>

  /** The clock does not go back behind `now`. */
  predicate Honest(script: Script, now: Timestamp) {
    forall i | 0 <= i < |script| && script[i].FdCall? :: Normal(script[i].clock) && !Before(script[i].clock, now)
  }

  /** What epoll reports for a descriptor. */
  datatype Ready = Ready(fd: int, input: bool, output: bool, error: bool)

  /** What happens to the scheduler in one round: what epoll reports, and what each coroutine does
      that is started, woken, made ready or timed out.  `since` is the time when the round begins,
      and `now` the time that the timeout pass reads at its end. */
  datatype Round = Round(
    events: seq<Ready>, since: Timestamp, now: Timestamp, starting: nat -> Script, waking: nat -> Script,
    handling: nat -> nat -> Script, expiring: nat -> Script)

  /** The clock does not go back: within the round its readings are not before the beginning, and
      within the timeout pass they are not before the time of the pass. */
  ghost predicate HonestRound(r: Round) {
    && Normal(r.since) && Normal(r.now) && !Before(r.now, r.since)
    && (forall n :: Honest(r.starting(n), r.since)) && (forall n :: Honest(r.waking(n), r.since))
    && (forall k, n :: Honest(r.handling(k)(n), r.since)) && (forall n :: Honest(r.expiring(n), r.now))
  }

  /** What running coroutines may do to the rest between two states: they add to the lists and
      the deadlines, and disturb no one who is asleep. */
  ghost predicate Ran(w: World, w': World, now: Timestamp) {
    && w'.resumeAt == w.resumeAt && w.resumeList <= w'.resumeList
    && w'.funcAt == w.funcAt && w.funcs <= w'.funcs
    && w'.handlingTimeout == w.handlingTimeout
    && w'.history.woken == w.history.woken && w'.history.started == w.history.started
    && w.timeouts.entries <= w'.timeouts.entries
    && (forall e | e in w'.timeouts.entries - w.timeouts.entries :: !Due(e, now))
    && (forall id | id in w.places :: id in w'.places && w'.places[id] == w.places[id])
  }

  lemma RanRefl(w: World, now: Timestamp)
    ensures Ran(w, w, now)
  {
  }

  lemma RanTrans(a: World, b: World, c: World, now: Timestamp)
    requires Ran(a, b, now) && Ran(b, c, now)
    ensures Ran(a, c, now)
  {
    hide Due;
  }

  lemma RanSpawn(w: World, f: int, now: Timestamp)
    ensures Ran(w, Spawn(w, f), now)
  {
  }

  lemma RanNotify(w: World, key: int, now: Timestamp)
    ensures Ran(w, Notify(w, key), now)
  {
  }

  lemma RanWaitCondition(w: World, key: int, now: Timestamp)
    requires TableInv(w) && Runs(w)
    ensures Ran(w, WaitCondition(w, key), now)
  {
    assert w.table.running in w.places <==> Suspends(w, w.table.running);
  }

  lemma RanReturn(w: World, now: Timestamp)
    requires Runs(w)
    ensures Ran(w, Return(w), now)
  {
  }

  lemma RanWaitFd(w: World, fd: int, dir: Direction, ms: int, clock: Timestamp, now: Timestamp)
    requires TableInv(w) && Runs(w) && Free(w, fd, dir) && Normal(clock) && Normal(now) && !Before(clock, now)
    ensures Ran(w, WaitFd(w, fd, dir, ms, clock), now)
  {
    hide AddMillisecond, Before, Watching, EventsOf, WithCoId;
    assert w.table.running in w.places <==> Suspends(w, w.table.running);
    if ms > 0 {
      DeadlineLater(now, clock, ms);
    }
  }

  class CoSocket {
    const schedule: Schedule
    const timeoutSet: TimeoutSet
    const epoller: Epoller
    var coIdMap: map<int, Watcher>
    var conditionMap: map<int, seq<int>>
    var conditionCounter: int
    var waitResumeList: seq<int>
    var coFuncList: seq<int>
    var handlingTimeout: bool
    /** The saved stacks of the suspended coroutines. */
    var stacks: map<int, Place>
    ghost var resumeAt: nat
    ghost var funcAt: nat
    ghost var history: History

    ghost function Repr(): set<object>
      reads this, schedule
    {
      {this, schedule, schedule.co, timeoutSet, epoller}
    }

    ghost function View(): World
      reads this, Repr()
    {
      World(schedule.View(), coIdMap, epoller.interest, conditionMap, conditionCounter, waitResumeList, resumeAt,
            coFuncList, funcAt, timeoutSet.View(), handlingTimeout, stacks, history)
    }

    ghost predicate Valid()
      reads this, Repr()
    {
      schedule.Valid() && Inv(View())
    }

    constructor ()
      ensures Valid() && View() == Initial() && fresh(Repr())
    {
      schedule := new Schedule();
      timeoutSet := new TimeoutSet();
      epoller := new Epoller();
      coIdMap, conditionMap, conditionCounter := map[], map[], 0;
      waitResumeList, coFuncList, handlingTimeout, stacks := [], [], false, map[];
      resumeAt, funcAt, history := 0, 0, History([], [], [], []);
      new;
      InitialInv();
    }

    // ---- Calls of a running coroutine --------------------------------------------------------

    /** GetCondition, as long as the counter does not run over. */
    method GetCondition() returns (condition: int)
      requires conditionCounter < 0xFFFF_FFFF_FFFF_FFFF
      modifies this`conditionCounter
      ensures View() == TakeCondition(old(View())) && condition == old(conditionCounter)
    {
      condition := conditionCounter;
      conditionCounter := conditionCounter + 1;
    }

    method ConditionNotify(condition: int)
      modifies this`waitResumeList, this`conditionMap, this`history
      ensures View() == Notify(old(View()), Key(condition))
    {
      var key := Key(condition);
      var list := if key in conditionMap then conditionMap[key] else [];
      waitResumeList := waitResumeList + list;
      conditionMap := conditionMap[key := []];
      history := history.(notified := history.notified + list);
    }

    /** ConditionWait up to the yield. */
    method ConditionWait(condition: int)
      requires schedule.Valid() && schedule.running >= 0
      modifies this`conditionMap, this`stacks, schedule, schedule.co
      ensures schedule.Valid() && schedule.co == old(schedule.co)
      ensures View() == WaitCondition(old(View()), Key(condition))
    {
      hide Insert;
      var key, id := Key(condition), schedule.running;
      var list := if key in conditionMap then conditionMap[key] else [];
      conditionMap := conditionMap[key := Insert(list, id)];
      stacks := stacks[id := AtCondition(key)];
      schedule.Yield();
    }

    method SaveToCoIdMap(fd: int, dir: Direction) returns (ok: bool)
      modifies this`coIdMap
      ensures ok <==> CoIdOf(WatcherOf(old(coIdMap), fd), dir) == -1
      ensures WatcherOf(coIdMap, fd) ==
        if ok then WithCoId(WatcherOf(old(coIdMap), fd), dir, schedule.running) else WatcherOf(old(coIdMap), fd)
      ensures coIdMap == old(coIdMap)[fd := WatcherOf(coIdMap, fd)]
    {
      var fdWatcher := WatcherOf(coIdMap, fd);
      coIdMap := coIdMap[fd := fdWatcher];
      if dir.In? {
        if fdWatcher.readCoId != -1 {
          return false;
        }
        coIdMap := coIdMap[fd := fdWatcher.(readCoId := schedule.running)];
      } else {
        if fdWatcher.writeCoId != -1 {
          return false;
        }
        coIdMap := coIdMap[fd := fdWatcher.(writeCoId := schedule.running)];
      }
      ok := true;
    }

    /** AddEventAndYield up to the yield.  Unless the kernel fails for a reason of its own, the
        epoll update does not fail. */
    method AddEventAndYield(fd: int, dir: Direction, timed: bool) returns (ret: int)
      requires schedule.Valid() && schedule.running >= 0
      modifies this`coIdMap, this`stacks, epoller, schedule, schedule.co
      ensures schedule.Valid() && schedule.co == old(schedule.co)
      ensures ret == 0 <==> Free(old(View()), fd, dir)
      ensures ret == 0 ==> View() == Yield(AddEvent(old(View()), fd, dir), AtFd(fd, dir, timed))
      ensures ret != 0 ==> View() == old(View()).(watchers := old(coIdMap)[fd := WatcherOf(old(coIdMap), fd)])
    {
      var saved := SaveToCoIdMap(fd, dir);
      if !saved {
        return -1;
      }
      var updated := epoller.Update(fd, EventsOf(coIdMap[fd]), 0, 0);
      assert updated == 0;
      stacks := stacks[schedule.running := AtFd(fd, dir, timed)];
      schedule.Yield();
      ret := 0;
    }

    method DeleteEvent(fd: int, dir: Direction)
      modifies this`coIdMap, epoller
      ensures View() == Scheduler.DeleteEvent(old(View()), fd, dir)
    {
      var fdWatcher := WatcherOf(coIdMap, fd);
      var newEvents := Without(EventsOf(fdWatcher), dir);
      var ret := epoller.Update(fd, newEvents, 0, 0);
      assert ret == 0;
      coIdMap := coIdMap[fd := if dir.In? then fdWatcher.(readCoId := -1) else fdWatcher.(writeCoId := -1)];
    }

    /** Read, Write, Accept and Connect once the system call would block.  The caller's guard sets
        the deadline; when the wait is refused the call goes on and cleans up at once. */
    method BlockOn(fd: int, dir: Direction, timeoutMs: int, clock: Timestamp) returns (asleep: bool)
      requires schedule.Valid() && schedule.running >= 0
      modifies this`coIdMap, this`stacks, epoller, timeoutSet, schedule, schedule.co
      ensures schedule.Valid() && schedule.co == old(schedule.co)
      ensures asleep <==> Free(old(View()), fd, dir)
      ensures View() == WaitFd(old(View()), fd, dir, timeoutMs, clock)
    {
      hide AddMillisecond, Watching, Inserted, Deleted, Occupied;
      if timeoutMs > 0 {
        timeoutSet.Insert(schedule.running, clock, timeoutMs);
      }
      var ret := AddEventAndYield(fd, dir, timeoutMs > 0);
      asleep := ret == 0;
      if !asleep {
        DeleteEvent(fd, dir);
        if timeoutMs > 0 {
          timeoutSet.Delete(schedule.running);
        }
      }
    }

    /** coroutine_resume, and what the coroutine's own stack makes it do first.  A call that comes
        back reports a timeout exactly when the timeout pass resumed it. */
    method Resume(id: int) returns (timedOut: bool)
      requires schedule.Valid() && schedule.running == -1 && 0 <= id < schedule.cap
      modifies this`coIdMap, this`stacks, epoller, timeoutSet, schedule, schedule.co
      ensures schedule.Valid() && schedule.co == old(schedule.co)
      ensures View() == Scheduler.Resume(old(View()), id)
      ensures timedOut <==> old(handlingTimeout) && id in old(stacks) && old(stacks)[id].AtFd? && !old(schedule.co[id]).Empty?
    {
      hide Watching, Deleted, Occupied;
      timedOut := false;
      schedule.Resume(id);
      if schedule.running == -1 {
        return;
      }
      if id in stacks {
        var place := stacks[id];
        stacks := stacks - {id};
        if place.AtFd? {
          timedOut := handlingTimeout;
          DeleteEvent(place.fd, place.dir);
          if place.timed {
            timeoutSet.Delete(id);
          }
        }
      } else {
        assert stacks - {id} == stacks;
      }
    }

    // ---- A coroutine's turn ---------------------------------------------------------------------

    /** The running coroutine follows its script until a call puts it to sleep, or returns.  A call
        that breaks the rule for descriptors is not made. */
    method RunCoroutine(script: Script, ghost now: Timestamp)
      requires Valid() && schedule.running >= 0 && Normal(now) && Honest(script, now)
      modifies Repr()
      ensures Valid() && schedule.running == -1 && Repr() == old(Repr())
      ensures Ran(old(View()), View(), now)
    {
      hide Inv, Ran, Notify, Spawn, WaitCondition, WaitFd, Return, Occupied;
      ghost var w0 := View();
      RanRefl(w0, now);
      var i := 0;
      while i < |script|
        invariant 0 <= i <= |script| && Valid() && schedule.running >= 0 && Repr() == old(Repr())
        invariant Ran(w0, View(), now)
      {
        ghost var w := View();
        RunsNow();
        match script[i] {
          case NewCoroutineCall(f) =>
            SpawnKeeps(w, f);
            RanSpawn(w, f, now);
            PushFunc(f);
          case GetConditionCall =>
            if conditionCounter < 0xFFFF_FFFF_FFFF_FFFF {
              FlagKeeps(w, TakeCondition(w));
              var condition := GetCondition();
              assert Ran(w, View(), now) by { RanCounter(w, View(), now); }
            } else {
              RanRefl(w, now);
            }
          case NotifyCall(condition) =>
            NotifyKeeps(w, Key(condition));
            RanNotify(w, Key(condition), now);
            ConditionNotify(condition);
          case WaitCall(condition) =>
            WaitConditionKeeps(w, Key(condition));
            InvTableInv(w);
            RanWaitCondition(w, Key(condition), now);
            ConditionWait(condition);
            SleptNow(w, View());
            RanTrans(w0, w, View(), now);
            return;
          case FdCall(fd, dir, timeoutMs, clock) =>
            if CoIdOf(WatcherOf(coIdMap, fd), dir) == -1 {
              WaitFdFreeKeeps(w, fd, dir, timeoutMs, clock);
              InvTableInv(w);
              RanWaitFd(w, fd, dir, timeoutMs, clock, now);
              var asleep := BlockOn(fd, dir, timeoutMs, clock);
              RanTrans(w0, w, View(), now);
              SleptFd(w, fd, dir, timeoutMs, clock);
              return;
            }
            RanRefl(w, now);
        }
        RanTrans(w0, w, View(), now);
        i := i + 1;
      }
      ghost var w := View();
      RunsNow();
      ReturnKeeps(w);
      RanReturn(w, now);
      schedule.Finish();
      assert View() == Return(w) by { ReturnIs(w); }
      RanTrans(w0, w, View(), now);
    }

    method PushFunc(f: int)
      modifies this`coFuncList, this`history
      ensures View() == Spawn(old(View()), f)
    {
      coFuncList := coFuncList + [f];
      history := history.(spawned := history.spawned + [f]);
    }

    /** NewCoroutine.  Called by a coroutine it only takes note of the function; called outside, it
        runs a new coroutine, in a slot that was empty, until that sleeps or returns. */
    method NewCoroutine(f: int, script: Script, ghost now: Timestamp)
      requires Valid() && Normal(now) && Honest(script, now)
      modifies Repr()
      ensures schedule.Valid() && fresh(Repr() - old(Repr()))
      ensures old(schedule.running) >= 0 ==> View() == Spawn(old(View()), f)
      ensures old(schedule.running) == -1 ==> Valid() && schedule.running == -1 && Ran(old(View()), View(), now)
    {
      hide Inv, Ran, Spawn, Occupied, IsNewId, Room, Start;
      ghost var w := View();
      if schedule.running != -1 {
        SpawnKeeps(w, f);
        PushFunc(f);
        return;
      }
      var id := StartSlot();
      ghost var w1 := View();
      StartKeeps(w, id);
      RunCoroutine(script, now);
      RanStart(w, id, now);
      RanTrans(w, w1, View(), now);
    }

    /** coroutine_new and the first coroutine_resume. */
    method StartSlot() returns (id: nat)
      requires Valid() && schedule.running == -1
      modifies schedule, schedule.co
      ensures schedule.Valid() && fresh(Repr() - old(Repr()))
      ensures IsNewId(old(schedule.co[..]), id) && id < |Room(old(schedule.co[..]))|
      ensures View() == Start(old(View()), id)
    {
      hide Inv, Occupied, IsNewId, Room;
      id := schedule.New();
      schedule.Resume(id);
    }

    // ---- The scheduler's loops ----------------------------------------------------------------------

    /** RunNewCoFunc.  Coroutines can go on making coroutines, so the number of turns is limited
        from outside; `done` says that the loop came to its end. */
    method RunNewCoFunc(env: nat -> Script, turns: nat, ghost now: Timestamp) returns (done: bool)
      requires Valid() && schedule.running == -1 && funcAt == 0 && Normal(now)
      requires forall n :: Honest(env(n), now)
      modifies Repr()
      ensures Valid() && schedule.running == -1 && fresh(Repr() - old(Repr()))
      ensures old(history).started <= history.started && resumeAt == old(resumeAt)
      ensures done ==> coFuncList == [] && funcAt == 0 && history.started == history.spawned
    {
      hide Inv, Ran, NextFunc, Start, Occupied, IsNewId, Room;
      var it := 0;
      while it < |coFuncList|
        invariant it == funcAt <= |coFuncList| && Valid() && schedule.running == -1 && fresh(Repr() - old(Repr()))
        invariant old(history).started <= history.started && resumeAt == old(resumeAt)
        decreases turns - it
      {
        if it >= turns {
          return false;
        }
        ghost var w := View();
        var f := coFuncList[it];
        var id := StartSlot();
        funcAt := funcAt + 1;
        history := history.(started := history.started + [f]);
        NextFuncKeeps(w, id);
        assert View() == NextFunc(w, id) by { NextFuncIs(w, id); }
        ghost var w1 := View();
        RunCoroutine(env(it), now);
        RanLists(w1, View(), now);
        it := it + 1;
      }
      ghost var w := View();
      ClearKeeps(w);
      coFuncList := [];
      funcAt := 0;
      assert View() == ClearFuncs(w);
      AllStarted(View());
      done := true;
    }

    /** RunWaitResumeCo, with the same limit.  When it is done, every notified coroutine has been
        resumed, in the order in which they were notified. */
    method RunWaitResumeCo(env: nat -> Script, turns: nat, ghost now: Timestamp) returns (done: bool, resumed: seq<int>)
      requires Valid() && schedule.running == -1 && resumeAt == 0 && Normal(now)
      requires forall n :: Honest(env(n), now)
      modifies Repr()
      ensures Valid() && schedule.running == -1 && fresh(Repr() - old(Repr()))
      ensures history.woken == old(history).woken + resumed && funcAt == old(funcAt)
      ensures resumed <= old(waitResumeList) || old(waitResumeList) <= resumed
      ensures done ==> waitResumeList == [] && resumeAt == 0 && history.woken == history.notified
      ensures done ==> old(waitResumeList) <= resumed
    {
      hide Inv, Ran, NextResume, Scheduler.Resume, Occupied;
      resumed := [];
      ghost var list0 := waitResumeList;
      var it := 0;
      while it < |waitResumeList|
        invariant it == resumeAt == |resumed| <= |waitResumeList| && Valid() && schedule.running == -1
        invariant fresh(Repr() - old(Repr()))
        invariant list0 <= waitResumeList && resumed == waitResumeList[..it]
        invariant history.woken == old(history).woken + resumed && funcAt == old(funcAt)
        decreases turns - it
      {
        if it >= turns {
          return false, resumed;
        }
        resumed := resumed + [waitResumeList[it]];
        ResumeNext(it, env(it), now);
        it := it + 1;
      }
      ghost var w := View();
      ClearKeeps(w);
      waitResumeList := [];
      resumeAt := 0;
      assert View() == ClearResumes(w);
      AllWoken(View());
      done := true;
    }

    method ResumeNext(it: nat, script: Script, ghost now: Timestamp)
      requires Valid() && schedule.running == -1 && it == resumeAt < |waitResumeList| && Normal(now) && Honest(script, now)
      modifies Repr()
      ensures Valid() && schedule.running == -1 && Repr() == old(Repr())
      ensures resumeAt == it + 1 && old(waitResumeList) <= waitResumeList && funcAt == old(funcAt)
      ensures history.woken == old(history).woken + [old(waitResumeList)[it]]
    {
      hide Inv, Ran, NextResume, Scheduler.Resume, Occupied;
      ghost var w := View();
      var id := waitResumeList[it];
      NextResumeKeeps(w);
      assert Suspends(w, id);
      resumeAt := resumeAt + 1;
      history := history.(woken := history.woken + [id]);
      var timedOut := Resume(id);
      NextResumeIs(w);
      NextResumeList(w);
      ghost var w1 := View();
      RunCoroutine(script, now);
      RanLists(w1, View(), now);
    }

    /** EventHandler.  A coroutine that waits for a direction that is reported, or for any when an
        error is, is resumed; also the writer when the reader ran before it. */
    method EventHandler(fd: int, input: bool, output: bool, error: bool, env: nat -> Script, ghost now: Timestamp)
      returns (resumed: seq<int>)
      requires Valid() && schedule.running == -1 && Normal(now)
      requires forall n :: Honest(env(n), now)
      modifies Repr()
      ensures Valid() && schedule.running == -1 && fresh(Repr() - old(Repr()))
      ensures var x, reader, writer := WatcherOf(old(coIdMap), fd), error || input, error || output;
        && (reader && x.readCoId != -1 ==> resumed != [] && resumed[0] == x.readCoId)
        && (writer && x.writeCoId != -1 ==> resumed != [] && resumed[|resumed| - 1] == x.writeCoId)
        && |resumed| <= (if reader && x.readCoId != -1 then 1 else 0) + (if writer then 1 else 0)
        && (x == NO_WATCHER ==> resumed == [])
      ensures resumeAt == old(resumeAt) && funcAt == old(funcAt)
      ensures resumed == [] ==> View() == old(View()).(watchers := old(coIdMap)[fd := WatcherOf(old(coIdMap), fd)])
    {
      hide Inv, Ran, Scheduler.Resume, Occupied;
      resumed := [];
      ghost var w0 := View();
      coIdMap := coIdMap[fd := WatcherOf(coIdMap, fd)];
      TouchKeeps(w0, View(), fd);
      if coIdMap[fd] == NO_WATCHER {
        return;
      }
      ghost var w := View();
      if error || input {
        if coIdMap[fd].readCoId != -1 {
          var id := coIdMap[fd].readCoId;
          assert !Free(w, fd, In);
          resumed := [id];
          ResumeWatcher(fd, In, env(0), now);
        }
      }
      assert WatcherOf(w.watchers, fd).writeCoId != -1 ==>
        fd in coIdMap && coIdMap[fd].writeCoId == WatcherOf(w.watchers, fd).writeCoId;
      if error || output {
        if fd in coIdMap && coIdMap[fd].writeCoId != -1 {
          resumed := resumed + [coIdMap[fd].writeCoId];
          ResumeWatcher(fd, Out, env(1), now);
        }
      }
    }

    /** coroutine_resume from the event handler. */
    method ResumeWatcher(fd: int, dir: Direction, script: Script, ghost now: Timestamp)
      requires Valid() && schedule.running == -1 && Normal(now) && Honest(script, now) && !Free(View(), fd, dir)
      modifies Repr()
      ensures Valid() && schedule.running == -1 && Repr() == old(Repr())
      ensures dir.In? ==> KeptWriter(old(View()), View(), fd)
      ensures resumeAt == old(resumeAt) && funcAt == old(funcAt)
    {
      hide Inv, Ran, Scheduler.Resume, Occupied, KeptWriter;
      ghost var w := View();
      WatcherIsSuspended(w, fd, dir);
      var id := CoIdOf(WatcherOf(coIdMap, fd), dir);
      ResumeFdKeeps(w, id);
      var timedOut := Resume(id);
      ghost var w1 := View();
      RunCoroutine(script, now);
      RanLists(w1, View(), now);
      if dir.In? {
        WriterKept(w, w1, View(), fd, now);
      }
    }

    /** RunTimeoutCo: the pass ends; it resumes the coroutines whose deadlines had expired when it
        began, each once, in the order of the deadlines; each resumed call reports its timeout; no
        expired deadline is left behind. */
    method RunTimeoutCo(now: Timestamp, env: nat -> Script) returns (resumed: seq<int>, flags: seq<bool>)
      requires Valid() && schedule.running == -1 && Normal(now)
      requires forall n :: Honest(env(n), now)
      modifies Repr()
      ensures Valid() && schedule.running == -1 && fresh(Repr() - old(Repr()))
      ensures resumed == CoIds(InOrder(Expired(old(timeoutSet.timeoutSet), now)))
      ensures |flags| == |resumed| && forall i | 0 <= i < |flags| :: flags[i]
      ensures Expired(timeoutSet.timeoutSet, now) == {} && !handlingTimeout
      ensures resumeAt == old(resumeAt) && funcAt == old(funcAt)
    {
      hide Inv, Occupied, Expired, InOrder, IsEarliest, CoIds;
      resumed, flags := [], [];
      ghost var due := CoIds(InOrder(Expired(timeoutSet.timeoutSet, now)));
      SetTimeoutFlag(true);
      assert resumed + due == due;
      while true
        invariant Valid() && schedule.running == -1 && fresh(Repr() - old(Repr())) && handlingTimeout
        invariant resumeAt == old(resumeAt) && funcAt == old(funcAt)
        invariant resumed + CoIds(InOrder(Expired(timeoutSet.timeoutSet, now))) == due
        invariant |flags| == |resumed| && forall i | 0 <= i < |flags| :: flags[i]
        decreases |Expired(timeoutSet.timeoutSet, now)|
      {
        var coId := timeoutSet.GetExpired(now);
        if coId == -1 {
          NoneExpired(View(), now);
          break;
        }
        ghost var e :| IsEarliest(timeoutSet.timeoutSet, e) && IsEarliest(Expired(timeoutSet.timeoutSet, now), e) && coId == e.coId;
        var timedOut := ResumeExpired(coId, env(|resumed|), now, e);
        ghost var rest := CoIds(InOrder(Expired(timeoutSet.timeoutSet, now)));
        assert resumed + ([coId] + rest) == resumed + [coId] + rest;
        resumed, flags := resumed + [coId], flags + [timedOut];
      }
      SetTimeoutFlag(false);
    }

    method SetTimeoutFlag(on: bool)
      requires Valid()
      modifies this`handlingTimeout
      ensures Valid() && handlingTimeout == on
    {
      hide Inv;
      FlagKeeps(View(), View().(handlingTimeout := on));
      handlingTimeout := on;
    }

    /** The call that comes back reports a timeout. */
    method ResumeExpired(coId: int, script: Script, ghost now: Timestamp, ghost e: Entry) returns (timedOut: bool)
      requires Valid() && schedule.running == -1 && handlingTimeout && Normal(now) && Honest(script, now)
      requires IsEarliest(timeoutSet.timeoutSet, e) && IsEarliest(Expired(timeoutSet.timeoutSet, now), e) && coId == e.coId
      modifies Repr()
      ensures Valid() && schedule.running == -1 && Repr() == old(Repr()) && handlingTimeout && timedOut
      ensures resumeAt == old(resumeAt) && funcAt == old(funcAt)
      ensures |Expired(timeoutSet.timeoutSet, now)| < |Expired(old(timeoutSet.timeoutSet), now)|
      ensures CoIds(InOrder(Expired(old(timeoutSet.timeoutSet), now)))
           == [coId] + CoIds(InOrder(Expired(timeoutSet.timeoutSet, now)))
    {
      hide Inv, Ran, Scheduler.Resume, Occupied, Expired, InOrder, IsEarliest;
      ghost var w := View();
      EarliestTimed(w, now, e);
      ResumeFdKeeps(w, coId);
      timedOut := Resume(coId);
      ghost var w1 := View();
      RunCoroutine(script, now);
      RanLists(w1, View(), now);
      OneLess(w, w1, View(), now, e);
    }

    /** One round of Run: both lists are drained, the reported events are handled, and so are the
        expired deadlines.  `turns` limits the draining of the two lists. */
    method RunOnce(round: Round, turns: nat) returns (done: bool)
      requires Valid() && schedule.running == -1 && resumeAt == 0 && funcAt == 0 && HonestRound(round)
      modifies Repr()
      ensures Valid() && schedule.running == -1 && fresh(Repr() - old(Repr()))
      ensures done ==> resumeAt == 0 && funcAt == 0 && Expired(timeoutSet.timeoutSet, round.now) == {}
    {
      hide Inv, Ran, Occupied, Expired, Honest;
      done := RunNewCoFunc(round.starting, turns, round.since);
      if !done {
        return;
      }
      var resumed;
      done, resumed := RunWaitResumeCo(round.waking, turns, round.since);
      if !done {
        return;
      }
      var i := 0;
      while i < |round.events|
        invariant 0 <= i <= |round.events| && Valid() && schedule.running == -1 && fresh(Repr() - old(Repr()))
        invariant resumeAt == 0 && funcAt == 0
      {
        var e := round.events[i];
        resumed := EventHandler(e.fd, e.input, e.output, e.error, round.handling(i), round.since);
        i := i + 1;
      }
      var flags;
      resumed, flags := RunTimeoutCo(round.now, round.expiring);
    }

    /** Run, for as many rounds as are looked at. */
    method Run(rounds: seq<Round>, turns: nat)
      requires Valid() && schedule.running == -1 && resumeAt == 0 && funcAt == 0
      requires forall i | 0 <= i < |rounds| :: HonestRound(rounds[i])
      modifies Repr()
      ensures Valid() && schedule.running == -1
      ensures history.notified == history.woken + Pending(View())
    {
      hide Inv, Ran, Occupied, Expired, HonestRound;
      var i := 0;
      while i < |rounds|
        invariant 0 <= i <= |rounds| && Valid() && schedule.running == -1 && fresh(Repr() - old(Repr()))
        invariant resumeAt == 0 && funcAt == 0
      {
        var done := RunOnce(rounds[i], turns);
        if !done {
          NothingLost(View());
          return;
        }
        i := i + 1;
      }
      NothingLost(View());
    }

    lemma RunsNow()
      requires schedule.Valid() && schedule.running >= 0
      ensures Runs(View())
    {
    }
  }

  lemma RanCounter(w: World, w': World, now: Timestamp)
    requires w' == TakeCondition(w)
    ensures Ran(w, w', now)
  {
  }

  lemma InvTableInv(w: World)
    requires Inv(w)
    ensures TableInv(w)
  {
  }

  lemma SleptNow(w: World, w': World)
    requires Runs(w) && exists key :: w' == WaitCondition(w, key)
    ensures w'.table.running == -1
  {
  }

  lemma SleptFd(w: World, fd: int, dir: Direction, timeoutMs: int, clock: Timestamp)
    requires Runs(w) && Free(w, fd, dir)
    ensures WaitFd(w, fd, dir, timeoutMs, clock).table.running == -1
  {
  }

  lemma ReturnIs(w: World)
    requires Runs(w)
    ensures Return(w) == w.(table := SetSlot(w.table, w.table.running, Empty, -1))
  {
  }

  lemma RanStart(w: World, id: nat, now: Timestamp)
    requires id < |Room(w.table.co)|
    ensures Ran(w, Start(w, id), now)
  {
    hide Room;
  }

  lemma NextFuncIs(w: World, id: nat)
    requires id < |Room(w.table.co)| && w.funcAt < |w.funcs|
    ensures NextFunc(w, id) ==
      Start(w, id).(funcAt := w.funcAt + 1, history := w.history.(started := w.history.started + [w.funcs[w.funcAt]]))
  {
  }

  lemma NextResumeIs(w: World)
    requires w.resumeAt < |w.resumeList| && 0 <= w.resumeList[w.resumeAt] < |w.table.co|
    ensures var id := w.resumeList[w.resumeAt];
      NextResume(w) ==
      Scheduler.Resume(w.(resumeAt := w.resumeAt + 1, history := w.history.(woken := w.history.woken + [id])), id)
  {
    hide Scheduler.Resume;
  }

  lemma NextResumeList(w: World)
    requires w.resumeAt < |w.resumeList| && 0 <= w.resumeList[w.resumeAt] < |w.table.co|
    ensures var w' := NextResume(w);
      w'.resumeList == w.resumeList && w'.resumeAt == w.resumeAt + 1
      && w'.history == w.history.(woken := w.history.woken + [w.resumeList[w.resumeAt]])
  {
    hide Watching, Deleted;
  }

  lemma RanLists(w: World, w': World, now: Timestamp)
    requires Ran(w, w', now)
    ensures w'.resumeAt == w.resumeAt && w.resumeList <= w'.resumeList && w'.funcAt == w.funcAt && w.funcs <= w'.funcs
    ensures w'.history.woken == w.history.woken && w'.history.started == w.history.started
    ensures w'.handlingTimeout == w.handlingTimeout
  {
  }

  lemma NothingLost(w: World)
    requires Inv(w)
    ensures w.history.notified == w.history.woken + Pending(w)
  {
  }

  lemma AllStarted(w: World)
    requires Inv(w) && w.funcs == []
    ensures w.history.started == w.history.spawned
  {
    assert w.history.started + w.funcs[w.funcAt..] == w.history.started;
  }

  lemma AllWoken(w: World)
    requires Inv(w) && w.resumeList == []
    ensures w.history.woken == w.history.notified
  {
    assert w.history.woken + Pending(w) == w.history.woken;
  }

  /** Looking up a descriptor may enter it into the map, which changes nothing. */
  lemma TouchKeeps(w: World, w': World, fd: int)
    requires Inv(w) && w' == w.(watchers := w.watchers[fd := WatcherOf(w.watchers, fd)])
    ensures Inv(w')
  {
    hide TimeoutsOk, EventsOf, Ascending;
    assert forall f :: WatcherOf(w'.watchers, f) == WatcherOf(w.watchers, f);
    assert Pending(w') == Pending(w);
    SameTable(w, w');
    SameHistory(w, w');
    TouchWatchers(w, w');
    forall id | id in w'.places
      ensures Housed(w', id, w'.places[id])
    {
      assert Housed(w, id, w.places[id]);
    }
    forall key
      ensures WaitSetOk(w', key)
    {
      assert WaitSetOk(w, key);
    }
    forall id | id in Pending(w')
      ensures WaitsToResume(w', id)
    {
      assert WaitsToResume(w, id);
    }
    TimeoutsSame(w, w');
  }

  lemma TouchWatchers(w: World, w': World)
    requires WatchersInv(w) && InterestInv(w) && w'.places == w.places && w'.interest == w.interest
    requires forall f :: WatcherOf(w'.watchers, f) == WatcherOf(w.watchers, f)
    ensures WatchersInv(w') && InterestInv(w')
  {
    hide WatcherOf;
    forall f
      ensures var x := WatcherOf(w'.watchers, f); WatchedBy(w', f, In, x.readCoId) && WatchedBy(w', f, Out, x.writeCoId)
    {
      assert WatchedBy(w, f, In, WatcherOf(w.watchers, f).readCoId);
    }
  }

  /** A coroutine that waits to write goes on waiting while the reader runs. */
  ghost predicate KeptWriter(w: World, w': World, fd: int) {
    WatcherOf(w.watchers, fd).writeCoId != -1 ==>
      fd in w'.watchers && w'.watchers[fd].writeCoId == WatcherOf(w.watchers, fd).writeCoId
  }

  lemma WriterKept(w: World, w1: World, w2: World, fd: int, now: Timestamp)
    requires Inv(w) && w.table.running == -1 && !Free(w, fd, In) && Inv(w2)
    requires var id := CoIdOf(WatcherOf(w.watchers, fd), In); id in w.places && Suspends(w, id) && w1 == Scheduler.Resume(w, id)
    requires Ran(w1, w2, now)
    ensures KeptWriter(w, w2, fd)
  {
    hide TableInv, ConditionsInv, PendingInv, TimeoutsInv, InterestInv, HistoryInv, Watching, Deleted;
    var reader, writer := CoIdOf(WatcherOf(w.watchers, fd), In), WatcherOf(w.watchers, fd).writeCoId;
    assert WatchedBy(w, fd, In, reader) && WatchedBy(w, fd, Out, writer);
    if writer != -1 {
      assert reader != writer;
      assert writer in w1.places && w1.places[writer] == w.places[writer];
      assert Housed(w2, writer, w2.places[writer]);
    }
  }

  // ---- The timeout pass -----------------------------------------------------------------------------

  function CoIds(entries: seq<Entry>): (ids: seq<int>)
    ensures |ids| == |entries|
  {
    seq(|entries|, i requires 0 <= i < |entries| => entries[i].coId)
  }

  lemma CoIdsCons(e: Entry, rest: seq<Entry>)
    ensures CoIds([e] + rest) == [e.coId] + CoIds(rest)
  {
  }

  lemma NoneExpired(w: World, now: Timestamp)
    requires Inv(w)
    requires Expired(w.timeouts.entries, now) != {} ==>
      exists e :: IsEarliest(w.timeouts.entries, e) && IsEarliest(Expired(w.timeouts.entries, now), e) && e.coId == -1
    ensures Expired(w.timeouts.entries, now) == {}
    ensures CoIds(InOrder(Expired(w.timeouts.entries, now))) == []
  {
    hide Inv, Expired;
    EntriesAreSlots(w);
  }

  lemma EntriesAreSlots(w: World)
    requires Inv(w)
    ensures forall e | e in w.timeouts.entries :: 0 <= e.coId < |w.table.co|
  {
    hide PlacesInv, WatchersInv, ConditionsInv, PendingInv, InterestInv, HistoryInv;
    IdsAreSlots(w);
    forall e | e in w.timeouts.entries
      ensures e.coId in w.places
    {
      assert e.coId in w.timeouts.index <==> Timed(w, e.coId);
    }
  }

  lemma EarliestTimed(w: World, now: Timestamp, e: Entry)
    requires Inv(w) && IsEarliest(w.timeouts.entries, e)
    ensures Suspends(w, e.coId) && e.coId in w.places && w.places[e.coId].AtFd? && e.coId in w.timeouts.index && w.timeouts.index[e.coId] == e
  {
    hide PlacesInv, WatchersInv, ConditionsInv, PendingInv, InterestInv, HistoryInv;
    assert e.coId in w.timeouts.index <==> Timed(w, e.coId);
    assert e.coId in w.places <==> Suspends(w, e.coId);
  }

  /** A resumed coroutine takes its expired deadline away, and no deadline set meanwhile has
      expired: one less is left. */
  lemma OneLess(w: World, w1: World, w2: World, now: Timestamp, e: Entry)
    requires w1.timeouts == Deleted(w.timeouts, e.coId) && Ran(w1, w2, now)
    requires e.coId in w.timeouts.index && w.timeouts.index[e.coId] == e
    requires IsEarliest(Expired(w.timeouts.entries, now), e)
    ensures Expired(w2.timeouts.entries, now) == Expired(w.timeouts.entries, now) - {e}
    ensures |Expired(w2.timeouts.entries, now)| < |Expired(w.timeouts.entries, now)|
    ensures CoIds(InOrder(Expired(w.timeouts.entries, now))) == [e.coId] + CoIds(InOrder(Expired(w2.timeouts.entries, now)))
  {
    hide Due, InOrder;
    var before, after := Expired(w.timeouts.entries, now), Expired(w2.timeouts.entries, now);
    assert w1.timeouts.entries == w.timeouts.entries - {e};
    forall x
      ensures x in after <==> x in before - {e}
    {
      assert x in w2.timeouts.entries && x !in w1.timeouts.entries ==> x in w2.timeouts.entries - w1.timeouts.entries;
    }
    assert after == before - {e};
    InOrderFirst(before, e);
    CoIdsCons(e, InOrder(after));
  }
}
