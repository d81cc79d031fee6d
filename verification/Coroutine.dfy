/** The slot table of the coroutine library: ids are slots, a dead coroutine's slot is used again.
    Contexts and stacks are not here, only who is in which slot and in what state. */
module Coroutine {

  datatype Slot = Empty | Ready | Running | Suspended

  const DEFAULT_COROUTINE: nat := 16

  /** The table as a value.  `running` is -1 outside all coroutines. */
  datatype Table = Table(co: seq<Slot>, running: int)

  predicate TableOk(t: Table) {
    && |t.co| > 0 && -1 <= t.running < |t.co|
    && forall i | 0 <= i < |t.co| :: t.co[i].Running? <==> i == t.running
  }

  function Occupied(co: seq<Slot>): (n: nat)
    ensures n <= |co|
  {
    if co == [] then 0
    else Occupied(co[..|co| - 1]) + (if co[|co| - 1].Empty? then 0 else 1)
  }

  // ---- Counting --------------------------------------------------------------------------

  lemma {:induction false} OccupiedUpdate(co: seq<Slot>, i: nat, s: Slot)
    requires i < |co|
    ensures Occupied(co[i := s]) == Occupied(co) - (if co[i].Empty? then 0 else 1) + (if s.Empty? then 0 else 1)
  {
    var n := |co| - 1;
    if i == n {
      assert co[i := s][..n] == co[..n];
    } else {
      assert co[i := s][..n] == co[..n][i := s];
      OccupiedUpdate(co[..n], i, s);
    }
  }

  lemma {:induction false} OccupiedAppend(co: seq<Slot>, more: seq<Slot>)
    ensures Occupied(co + more) == Occupied(co) + Occupied(more)
  {
    if more == [] {
      assert co + more == co;
    } else {
      var n := |more| - 1;
      assert (co + more)[..|co + more| - 1] == co + more[..n];
      OccupiedAppend(co, more[..n]);
    }
  }

  /** A table without an empty slot is full, and the other way round. */
  lemma {:induction false} FullExactly(co: seq<Slot>)
    ensures Occupied(co) == |co| <==> forall i | 0 <= i < |co| :: !co[i].Empty?
  {
    if co != [] {
      var n := |co| - 1;
      FullExactly(co[..n]);
      assert forall i | 0 <= i < n :: co[i] == co[..n][i];
    }
  }

  function Blank(n: nat): (co: seq<Slot>)
    ensures |co| == n && forall i | 0 <= i < n :: co[i].Empty?
  {
    seq(n, _ => Empty)
  }

  lemma {:induction false} BlankOccupied(n: nat)
    ensures Occupied(Blank(n)) == 0
  {
    if n > 0 {
      assert Blank(n)[..n - 1] == Blank(n - 1);
      BlankOccupied(n - 1);
    }
  }

  // ---- What the operations do -------------------------------------------------------------

  /** The slots a new coroutine finds: when all are taken there are twice as many. */
  function Room(co: seq<Slot>): seq<Slot> {
    if Occupied(co) >= |co| then co + Blank(|co|) else co
  }

  function SetSlot(t: Table, id: nat, s: Slot, running: int): Table
    requires id < |t.co|
  {
    Table(t.co[id := s], running)
  }

  /** The id a new coroutine gets: the first empty slot, searched in a circle from the number of
      coroutines, or the first of the new slots when all are taken. */
  ghost predicate IsNewId(co: seq<Slot>, id: nat) {
    if Occupied(co) >= |co| then id == |co|
    else
      && id < |co| && co[id].Empty?
      && exists i: nat :: IsFirstFree(co, i, id)
  }

  /** The slot looked at in round `j` of the search. */
  function Circle(cap: nat, from: nat, j: nat): (k: nat)
    requires cap > 0
    ensures k < cap
  {
    (j + from) % cap
  }

  ghost predicate IsFirstFree(co: seq<Slot>, i: nat, id: nat) {
    && i < |co| && id == Circle(|co|, Occupied(co), i)
    && forall j: nat | j < i :: !co[Circle(|co|, Occupied(co), j)].Empty?
  }

  /** Whoever is in the new slot was not there before, and the id is determined. */
  lemma NewIdFree(co: seq<Slot>, id: nat)
    requires co != [] && IsNewId(co, id)
    ensures id < |Room(co)| && Room(co)[id].Empty?
    ensures forall i: nat | i < |co| :: Room(co)[i] == co[i]
    ensures forall other: nat | IsNewId(co, other) :: other == id
    ensures Occupied(Room(co)) == Occupied(co)
  {
    BlankOccupied(|co|);
    OccupiedAppend(co, Blank(|co|));
    forall other: nat | IsNewId(co, other)
      ensures other == id
    {
      if Occupied(co) < |co| {
        var i: nat :| IsFirstFree(co, i, id);
        var j: nat :| IsFirstFree(co, j, other);
        FirstFreeUnique(co, i, id, j, other);
      }
    }
  }

  lemma FirstFreeUnique(co: seq<Slot>, i: nat, id: nat, j: nat, other: nat)
    requires co != [] && IsFirstFree(co, i, id) && IsFirstFree(co, j, other) && co[id].Empty? && other < |co| && co[other].Empty?
    ensures id == other
  {
    hide Circle, Occupied;
  }

  /** The circle passes every slot. */
  lemma CircleComplete(cap: nat, from: nat, k: nat) returns (j: nat)
    requires from < cap && k < cap
    ensures j < cap && Circle(cap, from, j) == k
  {
    j := if k >= from then k - from else k + cap - from;
    if k >= from {
      assert j + from == k;
    } else {
      assert j + from == k + cap;
      assert (k + cap) % cap == k;
    }
  }

  /** With a slot to spare the search cannot fail: the assertion behind the loop is unreachable. */
  lemma SearchSucceeds(co: seq<Slot>)
    requires Occupied(co) < |co|
    ensures exists j: nat :: j < |co| && co[Circle(|co|, Occupied(co), j)].Empty?
  {
    hide Circle, Occupied;
    FullExactly(co);
    var k: nat :| k < |co| && co[k].Empty?;
    var j := CircleComplete(|co|, Occupied(co), k);
  }

  class Schedule {
    var co: array<Slot>
    var nco: nat
    var cap: nat
    var running: int

    ghost function View(): Table
      reads this, co
    {
      Table(co[..], running)
    }

    ghost predicate Valid()
      reads this, co
    {
      co.Length == cap && TableOk(View()) && nco == Occupied(co[..])
    }

    /** coroutine_open */
    constructor ()
      ensures Valid() && fresh(co) && View() == Table(Blank(DEFAULT_COROUTINE), -1)
    {
      nco, cap, running := 0, DEFAULT_COROUTINE, -1;
      co := new Slot[DEFAULT_COROUTINE](_ => Empty);
      new;
      assert co[..] == Blank(DEFAULT_COROUTINE);
      BlankOccupied(DEFAULT_COROUTINE);
    }

    /** realloc to twice the size, the new half cleared. */
    method Grow()
      requires Valid()
      modifies this
      ensures fresh(co) && co.Length == cap == 2 * old(cap)
      ensures co[..] == old(co[..]) + Blank(old(cap)) && nco == old(nco) && running == old(running)
    {
      var more := new Slot[2 * cap](_ => Empty);
      var i := 0;
      while i < cap
        invariant 0 <= i <= cap && fresh(more) && more.Length == 2 * cap
        invariant cap == old(cap) && co == old(co) && co[..] == old(co[..]) && nco == old(nco) && running == old(running)
        invariant more[..i] == co[..i]
        invariant forall j | i <= j < more.Length :: more[j].Empty?
      {
        more[i] := co[i];
        i := i + 1;
      }
      assert more[..] == co[..] + Blank(cap);
      co, cap := more, 2 * cap;
    }

    /** coroutine_new: the id was free, and only its slot changes. */
    method New() returns (id: nat)
      requires Valid()
      modifies this, co
      ensures Valid() && (co == old(co) || fresh(co))
      ensures IsNewId(old(co[..]), id) && id < |Room(old(co[..]))|
      ensures View() == Table(Room(old(co[..]))[id := Ready], old(running))
      ensures nco == old(nco) + 1
    {
      hide Occupied, Circle;
      ghost var before := co[..];
      if nco >= cap {
        id := cap;
        Grow();
        NewIdFree(before, id);
        OccupiedUpdate(co[..], id, Ready);
        co[id] := Ready;
        nco := nco + 1;
        return;
      }
      var i := 0;
      while i < cap
        invariant 0 <= i <= cap && Valid() && co == old(co) && co[..] == before && cap == old(cap)
        invariant nco == old(nco) && running == old(running)
        invariant forall j: nat | j < i :: !before[Circle(cap, nco, j)].Empty?
      {
        id := Circle(cap, nco, i);
        if co[id].Empty? {
          assert IsFirstFree(before, i, id);
          NewIdFree(before, id);
          OccupiedUpdate(before, id, Ready);
          co[id] := Ready;
          nco := nco + 1;
          assert co[..] == before[id := Ready];
          return;
        }
        i := i + 1;
      }
      SearchSucceeds(before);
      assert false;
    }

    /** coroutine_resume up to the switch of contexts.  A dead id is ignored; the assertion on
        the status cannot fail. */
    method Resume(id: nat)
      requires Valid() && running == -1 && id < cap
      modifies this, co
      ensures Valid() && co == old(co)
      ensures View() == if old(co[id]).Empty? then old(View()) else SetSlot(old(View()), id, Running, id)
    {
      assert !co[id].Running?;
      ghost var before := co[..];
      if !co[id].Empty? {
        OccupiedUpdate(before, id, Running);
        running := id;
        co[id] := Running;
        assert co[..] == before[id := Running];
      }
    }

    /** coroutine_yield */
    method Yield()
      requires Valid() && running >= 0
      modifies this, co
      ensures Valid() && co == old(co)
      ensures View() == SetSlot(old(View()), old(running), Suspended, -1)
    {
      ghost var before := co[..];
      var id := running;
      OccupiedUpdate(before, id, Suspended);
      co[id] := Suspended;
      running := -1;
      assert co[..] == before[id := Suspended];
    }

    /** The end of mainfunc. */
    method Finish()
      requires Valid() && running >= 0
      modifies this, co
      ensures Valid() && co == old(co)
      ensures View() == SetSlot(old(View()), old(running), Empty, -1) && nco == old(nco) - 1
    {
      ghost var before := co[..];
      var id := running;
      FullExactly(before);
      OccupiedUpdate(before, id, Empty);
      co[id] := Empty;
      nco := nco - 1;
      running := -1;
      assert co[..] == before[id := Empty];
    }
  }
}
