/** Deadlines: their order, and the set of them with its side index by coroutine. */
module Timeouts {

  datatype Timestamp = Timestamp(sec: int, usec: int)

  predicate Before(a: Timestamp, b: Timestamp) {
    a.sec < b.sec || (a.sec == b.sec && a.usec < b.usec)
  }

  /** What gettimeofday gives. */
  predicate Normal(t: Timestamp) { 0 <= t.usec < 1000000 }

  // Division and remainder of C++, which round towards zero.
  function Div(a: int, b: int): int
    requires b > 0
  {
    if a >= 0 then a / b else -(-a / b)
  }

  function Mod(a: int, b: int): int
    requires b > 0
  {
    a - Div(a, b) * b
  }

  /** Adds to both fields and carries nothing from the microseconds to the seconds. */
  function AddMillisecond(t: Timestamp, ms: int): Timestamp {
    Timestamp(t.sec + Div(ms, 1000), t.usec + Mod(ms, 1000) * 1000)
  }

  function Micros(t: Timestamp): int { t.sec * 1000000 + t.usec }

  /** A deadline is the right instant, but it is a normal timestamp only when the microseconds
      did not overflow. */
  lemma DeadlineInstant(t: Timestamp, ms: int)
    requires Normal(t) && ms > 0
    ensures Micros(AddMillisecond(t, ms)) == Micros(t) + ms * 1000
    ensures Normal(AddMillisecond(t, ms)) <==> t.usec + ms % 1000 * 1000 < 1000000
  {
    assert ms == ms / 1000 * 1000 + ms % 1000;
  }

  /** Between normal timestamps the order is the order of instants. */
  lemma OrderOfNormal(a: Timestamp, b: Timestamp)
    requires Normal(a) && Normal(b)
    ensures Before(a, b) <==> Micros(a) < Micros(b)
  {
  }

  /** A deadline has its right place among all normal timestamps exactly when its microseconds did
      not overflow; otherwise it is ordered before instants it comes after. */
  lemma DeadlineOrder(t: Timestamp, ms: int)
    requires Normal(t) && ms > 0
    ensures var d := AddMillisecond(t, ms);
      (forall x | Normal(x) :: Before(d, x) <==> Micros(d) < Micros(x)) <==> t.usec + ms % 1000 * 1000 < 1000000
  {
    var d := AddMillisecond(t, ms);
    DeadlineInstant(t, ms);
    if t.usec + ms % 1000 * 1000 < 1000000 {
      forall x | Normal(x)
        ensures Before(d, x) <==> Micros(d) < Micros(x)
      {
        OrderOfNormal(d, x);
      }
    } else {
      var x := Timestamp(d.sec + 1, 0);
      assert Normal(x) && Before(d, x) && !(Micros(d) < Micros(x));
    }
  }

  /** Half a second after 7.999999 seconds, say, comes before 8 seconds. */
  lemma DeadlineMisordered()
    ensures var d := AddMillisecond(Timestamp(7, 999999), 500);
      Before(d, Timestamp(8, 0)) && Micros(Timestamp(8, 0)) < Micros(d)
  {
  }

  /** A deadline is ordered after every clock reading up to the one it was computed from. */
  lemma DeadlineLater(now: Timestamp, clock: Timestamp, ms: int)
    requires Normal(now) && Normal(clock) && !Before(clock, now) && ms > 0
    ensures Before(now, AddMillisecond(clock, ms))
  {
    assert ms / 1000 > 0 || ms % 1000 > 0;
  }

  // ---- The set -----------------------------------------------------------------------------

  datatype Entry = Entry(coId: int, timestamp: Timestamp)

  predicate EntryBefore(a: Entry, b: Entry) {
    Before(a.timestamp, b.timestamp) || (a.timestamp == b.timestamp && a.coId < b.coId)
  }

  lemma EntryOrder(a: Entry, b: Entry, c: Entry)
    ensures !EntryBefore(a, a)
    ensures a == b || EntryBefore(a, b) || EntryBefore(b, a)
    ensures EntryBefore(a, b) && EntryBefore(b, c) ==> EntryBefore(a, c)
  {
  }

  predicate IsEarliest(s: set<Entry>, e: Entry) { e in s && forall x | x in s :: !EntryBefore(x, e) }

  lemma {:induction false} EarliestExists(s: set<Entry>) returns (e: Entry)
    requires s != {}
    ensures IsEarliest(s, e)
  {
    e :| e in s;
    if s != {e} {
      var m := EarliestExists(s - {e});
      EntryOrder(e, m, m);
      if EntryBefore(m, e) {
        forall x | x in s
          ensures !EntryBefore(x, m)
        {
          EntryOrder(x, m, e);
        }
        e := m;
      } else {
        forall x | x in s
          ensures !EntryBefore(x, e)
        {
          EntryOrder(m, x, e);
          EntryOrder(x, e, m);
        }
      }
    }
  }

  lemma EarliestUnique(s: set<Entry>, a: Entry, b: Entry)
    requires IsEarliest(s, a) && IsEarliest(s, b)
    ensures a == b
  {
    EntryOrder(a, b, a);
  }

  /** The entries in their order. */
  ghost function InOrder(s: set<Entry>): seq<Entry> {
    if s == {} then []
    else
      assert exists e :: IsEarliest(s, e) by { var m := EarliestExists(s); }
      var e :| IsEarliest(s, e);
      [e] + InOrder(s - {e})
  }

  lemma InOrderFirst(s: set<Entry>, e: Entry)
    requires IsEarliest(s, e)
    ensures InOrder(s) == [e] + InOrder(s - {e})
  {
    var m :| IsEarliest(s, m) && InOrder(s) == [m] + InOrder(s - {m});
    EarliestUnique(s, e, m);
  }

  /** The order holds every entry once, each before the later ones. */
  lemma {:induction false} InOrderSorted(s: set<Entry>)
    ensures var q := InOrder(s);
      && (forall e :: e in q <==> e in s)
      && (forall i, j | 0 <= i < j < |q| :: EntryBefore(q[i], q[j]))
  {
    if s != {} {
      var m := EarliestExists(s);
      InOrderFirst(s, m);
      InOrderSorted(s - {m});
      var q := InOrder(s);
      forall i, j | 0 <= i < j < |q|
        ensures EntryBefore(q[i], q[j])
      {
        if i == 0 {
          assert q[j] in InOrder(s - {m});
          EntryOrder(q[j], m, m);
        }
      }
    }
  }

  /** Not after `now`. */
  predicate Due(e: Entry, now: Timestamp) { !Before(now, e.timestamp) }

  function Expired(s: set<Entry>, now: Timestamp): set<Entry> {
    set e | e in s && Due(e, now)
  }

  /** When anything has expired, the earliest entry has, and it is the earliest that has. */
  lemma EarliestExpired(s: set<Entry>, e: Entry, now: Timestamp)
    requires IsEarliest(s, e)
    ensures Expired(s, now) != {} <==> Due(e, now)
    ensures Due(e, now) ==> IsEarliest(Expired(s, now), e)
  {
    if Due(e, now) {
      assert e in Expired(s, now);
    } else {
      forall x | x in s
        ensures !Due(x, now)
      {
        EntryOrder(e, x, x);
      }
    }
  }

  // ---- The set with its index ---------------------------------------------------------------

  datatype Timeouts = Timeouts(entries: set<Entry>, index: map<int, Entry>)

  /** The two describe the same entries, at most one for a coroutine. */
  predicate TimeoutsOk(t: Timeouts) {
    && (forall e | e in t.entries :: e.coId in t.index && t.index[e.coId] == e)
    && (forall id | id in t.index :: t.index[id] in t.entries && t.index[id].coId == id)
  }

  function Inserted(t: Timeouts, e: Entry): Timeouts {
    if e in t.entries then t
    else Timeouts(t.entries + {e}, if e.coId in t.index then t.index else t.index[e.coId := e])
  }

  function Deleted(t: Timeouts, coId: int): Timeouts {
    if coId in t.index then Timeouts(t.entries - {t.index[coId]}, t.index - {coId}) else t
  }

  /** A coroutine that has a deadline must not get another one: then, and only then, the index
      no longer describes the set. */
  lemma InsertKeepsExactly(t: Timeouts, e: Entry)
    requires TimeoutsOk(t)
    ensures TimeoutsOk(Inserted(t, e)) <==> e.coId !in t.index || t.index[e.coId] == e
  {
    if e.coId in t.index && t.index[e.coId] != e {
      assert e in Inserted(t, e).entries;
    }
  }

  /** Deleting undoes inserting. */
  lemma InsertDelete(t: Timeouts, e: Entry)
    requires TimeoutsOk(t) && e.coId !in t.index
    ensures TimeoutsOk(Inserted(t, e)) && Deleted(Inserted(t, e), e.coId) == t
  {
    assert e !in t.entries;
    assert t.entries + {e} - {e} == t.entries;
    assert t.index[e.coId := e] - {e.coId} == t.index;
  }

  lemma DeleteKeeps(t: Timeouts, coId: int)
    requires TimeoutsOk(t)
    ensures TimeoutsOk(Deleted(t, coId)) && coId !in Deleted(t, coId).index
  {
  }

  class TimeoutSet {
    var timeoutSet: set<Entry>
    var timeoutPtrMap: map<int, Entry>

    ghost function View(): Timeouts
      reads this
    {
      Timeouts(timeoutSet, timeoutPtrMap)
    }

    constructor ()
      ensures View() == Timeouts({}, map[]) && TimeoutsOk(View())
    {
      timeoutSet, timeoutPtrMap := {}, map[];
    }

    method Insert(coId: int, clock: Timestamp, timeoutMs: int)
      modifies this
      ensures View() == Inserted(old(View()), Entry(coId, AddMillisecond(clock, timeoutMs)))
    {
      var timeout := Entry(coId, AddMillisecond(clock, timeoutMs));
      if timeout in timeoutSet {
        return;
      }
      timeoutSet := timeoutSet + {timeout};
      if coId !in timeoutPtrMap {
        timeoutPtrMap := timeoutPtrMap[coId := timeout];
      }
    }

    method Delete(coId: int)
      modifies this
      ensures View() == Deleted(old(View()), coId)
    {
      if coId in timeoutPtrMap {
        timeoutSet := timeoutSet - {timeoutPtrMap[coId]};
        timeoutPtrMap := timeoutPtrMap - {coId};
      }
    }

    /** The coroutine of the earliest entry when that is due, and -1 when no entry is. */
    method GetExpired(now: Timestamp) returns (coId: int)
      ensures Expired(timeoutSet, now) == {} ==> coId == -1
      ensures Expired(timeoutSet, now) != {} ==>
        exists e :: IsEarliest(timeoutSet, e) && IsEarliest(Expired(timeoutSet, now), e) && coId == e.coId
    {
      if timeoutSet == {} {
        return -1;
      }
      ghost var m := EarliestExists(timeoutSet);
      var begin :| begin in timeoutSet && forall x | x in timeoutSet :: !EntryBefore(x, begin);
      assert IsEarliest(timeoutSet, begin);
      EarliestExpired(timeoutSet, begin, now);
      if Before(now, begin.timestamp) {
        return -1;
      }
      return begin.coId;
    }
  }
}
