/** A run that is cut: the buffers of many calls as one run, interrupted at certain offsets. */
module HttpCuts {
  import opened Options
  import opened HttpTypes
  import opened HttpMachine
  import opened HttpRun
  import opened HttpInvariant
  import opened HttpBlocks
  import opened HttpSplit

  /** One call ends and the next begins. */
  function Cut(r: Run): Run {
    if r.control.Advance?
    then r.(open := OpenAtStart(r.parser.state), skipping := false, events := r.events + FlushOpen(r.open))
    else r
  }

  /** The run over `data`, whose first byte has the offset `off` in the stream. */
  function CutRun(r: Run, off: nat, data: string, cuts: set<nat>): Run {
    if data == "" then r
    else
      var n := |data| - 1;
      var s := CutRun(r, off, data[..n], cuts);
      Step(if off + n in cuts then Cut(s) else s, data[n])
  }

  /** The offsets where one buffer ends and another begins. */
  function Ends(bufs: seq<string>): set<nat> {
    if |bufs| <= 1 then {} else Ends(bufs[..|bufs| - 1]) + {|Flatten(bufs[..|bufs| - 1])|}
  }

  lemma {:induction false} CutRunAppend(r: Run, off: nat, a: string, b: string, cuts: set<nat>)
    ensures CutRun(r, off, a + b, cuts) == CutRun(CutRun(r, off, a, cuts), off + |a|, b, cuts)
    decreases |b|
  {
    hide Step, Cut;
    if b == "" {
      assert a + b == a;
    } else {
      var n := |b| - 1;
      assert (a + b)[..|a + b| - 1] == a + b[..n];
      CutRunAppend(r, off, a, b[..n], cuts);
    }
  }

  lemma CutRunOne(r: Run, off: nat, ch: char, cuts: set<nat>)
    ensures CutRun(r, off, [ch], cuts) == Step(if off in cuts then Cut(r) else r, ch)
  {
    hide Step, Cut;
    assert [ch][..0] == "";
    assert CutRun(r, off, [ch][..0], cuts) == r;
  }

  lemma CutRunSnoc(r: Run, off: nat, data: string, k: nat, cuts: set<nat>)
    requires k < |data|
    ensures var s := CutRun(r, off, data[..k], cuts);
      CutRun(r, off, data[..k + 1], cuts) == Step(if off + k in cuts then Cut(s) else s, data[k])
  {
    hide Step, Cut;
    assert data[..k + 1][..k] == data[..k];
  }

  // ---- A cut run and the whole one ------------------------------------------------------------

  lemma CutOk(r: Run)
    requires RunOk(r) && r.control.Advance?
    ensures RunOk(Cut(r))
  {
    hide Inv;
  }

  lemma CutStepEquiv(r1: Run, r2: Run)
    requires Equiv(r1, [], 0, r2) && RunOk(r1) && RunOk(r2) && !r1.control.Exit?
    ensures Equiv(r1, [], 0, Cut(r2)) && RunOk(Cut(r2))
  {
    hide Inv, LogsEquiv, OpenOk, OpenAtStart;
    if r2.control.Advance? {
      CutOk(r2);
      CutEquiv(r1, [], 0, r2);
      var c := Finish(r2);
      assert [] + c.events + [] == c.events && [] + Cut(r2).events == Cut(r2).events;
      assert [] + r2.events == r2.events;
    }
  }

  lemma CutByteEquiv(s1: Run, s2: Run, cut: bool, ch: char)
    requires Equiv(s1, [], 0, s2) && RunOk(s1) && RunOk(s2) && !s1.control.Exit?
    requires s1.control.Advance? && s1.skipping ==> IsHeaderChar(ch)
    ensures var s3 := if cut then Cut(s2) else s2;
      Equiv(Step(s1, ch), [], 0, Step(s3, ch)) && RunOk(Step(s1, ch)) && RunOk(Step(s3, ch))
  {
    hide *;
    CutStepEquiv(s1, s2);
    var s3 := if cut then Cut(s2) else s2;
    StepEquiv(s1, [], 0, s3, ch);
    StepKeeps(s1, ch);
    StepKeeps(s3, ch);
  }

  /** Nothing goes unchecked and nothing is left behind: then a cut run stands where the whole one
      does, with the same callbacks up to concatenation. */
  lemma {:induction false} CutRunEquiv(r1: Run, r2: Run, off: nat, data: string, cuts: set<nat>)
    requires Equiv(r1, [], 0, r2) && RunOk(r1) && RunOk(r2)
    requires forall j: nat | j < |data| ::
      var s := RunBytes(r1, data[..j]); !s.control.Exit? && (s.control.Advance? && s.skipping ==> IsHeaderChar(data[j]))
    ensures var s1, s2 := RunBytes(r1, data), CutRun(r2, off, data, cuts); Equiv(s1, [], 0, s2) && RunOk(s1) && RunOk(s2)
  {
    hide *;
    if data == "" {
      RunBytesNone(r1);
      CutRunEmpty(r2, off, cuts);
    } else {
      var n := |data| - 1;
      var b := data[..n];
      forall j: nat | j < |b|
        ensures var s := RunBytes(r1, b[..j]); !s.control.Exit? && (s.control.Advance? && s.skipping ==> IsHeaderChar(b[j]))
      {
        assert b[..j] == data[..j];
      }
      CutRunEquiv(r1, r2, off, b, cuts);
      CutByteEquiv(RunBytes(r1, b), CutRun(r2, off, b, cuts), off + n in cuts, data[n]);
      assert data[..n + 1] == data;
      RunBytesSnoc(r1, data, n);
      CutRunSnoc(r2, off, data, n, cuts);
    }
  }

  lemma CutRunEmpty(r: Run, off: nat, cuts: set<nat>)
    ensures CutRun(r, off, "", cuts) == r
  {
  }

  // ---- Calls and cuts ------------------------------------------------------------------------------

  /** The same run behind other calls. */
  predicate Behind(r1: Run, log: seq<Event>, off: nat, r2: Run) {
    r1 == r2.(events := log + r2.events, consumed := off + r2.consumed, reset := r1.reset)
  }

  lemma {:induction false} SettleBehind(r1: Run, log: seq<Event>, off: nat, r2: Run, ch: char)
    requires Behind(r1, log, off, r2) && r2.control.Advance?
    ensures Behind(Settle(r1, ch), log, off, Settle(r2, ch))
    decreases Rank(r2.parser.state)
  {
    hide Transition, EventsOf, OpenAfter;
    var o := Transition(r2.parser, r2.skipping, ch);
    AppendAssoc(log, r2.events, EventsOf(o.op, r2.open, ch));
    if o.control.Reexecute? {
      SettleBehind(Settled(r1, ch), log, off, Settled(r2, ch), ch);
    }
  }

  lemma {:induction false} RunBytesBehind(r1: Run, log: seq<Event>, off: nat, r2: Run, data: string)
    requires Behind(r1, log, off, r2)
    ensures Behind(RunBytes(r1, data), log, off, RunBytes(r2, data))
  {
    hide Settle;
    if data != "" {
      var n := |data| - 1;
      RunBytesBehind(r1, log, off, r2, data[..n]);
      var s1, s2 := RunBytes(r1, data[..n]), RunBytes(r2, data[..n]);
      if s2.control.Advance? {
        SettleBehind(Count(s1), log, off, Count(s2), data[n]);
      }
    }
  }

  /** Offsets the run does not come to make no difference. */
  lemma {:induction false} CutRunSame(r: Run, off: nat, data: string, cuts1: set<nat>, cuts2: set<nat>)
    requires forall x | off <= x < off + |data| :: x in cuts1 <==> x in cuts2
    ensures CutRun(r, off, data, cuts1) == CutRun(r, off, data, cuts2)
  {
    hide Step, Cut;
    if data != "" {
      CutRunSame(r, off, data[..|data| - 1], cuts1, cuts2);
    }
  }

  lemma {:induction false} CutRunNone(r: Run, off: nat, data: string)
    ensures CutRun(r, off, data, {}) == RunBytes(r, data)
  {
    hide Step, Cut;
    if data != "" {
      CutRunNone(r, off, data[..|data| - 1]);
    }
  }

  /** Cut at most before the first byte. */
  lemma CutRunFirst(r: Run, off: nat, data: string, cuts: set<nat>)
    requires data != "" && forall x | off < x < off + |data| :: x !in cuts
    ensures CutRun(r, off, data, cuts) == RunBytes(if off in cuts then Cut(r) else r, data)
  {
    hide Step, Cut, RunBytes;
    assert data == [data[0]] + data[1..];
    CutRunAppend(r, off, [data[0]], data[1..], cuts);
    CutRunOne(r, off, data[0], cuts);
    CutRunSame(Step(if off in cuts then Cut(r) else r, data[0]), off + 1, data[1..], cuts, {});
    CutRunNone(Step(if off in cuts then Cut(r) else r, data[0]), off + 1, data[1..]);
    RunBytesCons(if off in cuts then Cut(r) else r, data);
  }

  lemma {:induction false} EndsInside(bufs: seq<string>, x: nat)
    requires forall i | 0 <= i < |bufs| :: bufs[i] != ""
    ensures x in Ends(bufs) ==> 0 < x < |Flatten(bufs)|
    ensures x in Ends(bufs) <==> exists k :: 0 < k < |bufs| && |Flatten(bufs[..k])| == x
  {
    if |bufs| > 1 {
      var n := |bufs| - 1;
      var before := bufs[..n];
      EndsInside(before, x);
      FlattenSome(before);
      forall k | 0 < k < n
        ensures before[..k] == bufs[..k]
      {
      }
    }
  }

  lemma FlattenSome(bufs: seq<string>)
    requires bufs != [] && forall i | 0 <= i < |bufs| :: bufs[i] != ""
    ensures Flatten(bufs) != ""
  {
    assert bufs[|bufs| - 1] != "";
  }

  /** The calls on the buffers are the run that is cut where one buffer ends. */
  lemma {:induction false} FeedIsCutRun(p: Parser, count: nat, bufs: seq<string>)
    requires Inv(p) && CountOk(p, count) && bufs != [] && (forall i | 0 <= i < |bufs| :: bufs[i] != "")
    requires Quiet(p, count, Flatten(bufs)) && RunBytes(Begin(p, count), Flatten(bufs)).control.Advance?
    ensures var f, r := Feed(p, count, bufs), CutRun(Begin(p, count), 0, Flatten(bufs), Ends(bufs));
      && r.control.Advance? && f.parser == r.parser && f.count == r.headerBytes && f.consumed == r.consumed
      && f.events == r.events + FlushOpen(r.open) && f.parser.errno.Ok?
  {
    hide RunBytes, Inv, CountOk, RunOk, Quiet, CutRun, Flatten, Cut;
    var n := |bufs| - 1;
    var before, last := bufs[..n], bufs[n];
    var start := Begin(p, count);
    var text := Flatten(bufs);
    assert text == Flatten(before) + last by { FlattenLast(bufs); }
    BeginOk(p, count);
    SameEquiv(start);
    QuietIsRun(p, count, text);
    CutRunEquiv(start, start, 0, text, Ends(bufs));
    AdvanceOk(CutRun(start, 0, text, Ends(bufs)), RunBytes(start, text));
    InvOk(p);
    if n == 0 {
      assert Flatten(before) == "" by { FlattenNone(); }
      assert "" + last == last;
      CutRunNone(start, 0, text);
      FeedOneBuffer(p, count, last);
      assert bufs == [last];
      assert [] + Call(p, count, last).events == Call(p, count, last).events;
    } else {
      QuietPrefix(p, count, Flatten(before), last);
      RunBytesAppend(start, Flatten(before), last);
      AdvanceBefore(RunBytes(start, Flatten(before)), last);
      FeedIsCutRun(p, count, before);
      EndsBefore(bufs);
      var s := CutRun(start, 0, Flatten(before), Ends(before));
      CutRunSame(start, 0, Flatten(before), Ends(bufs), Ends(before));
      CutRunAppend(start, 0, Flatten(before), last, Ends(bufs));
      CutRunFirst(s, |Flatten(before)|, last, Ends(bufs));
      var f := Feed(p, count, before);
      CutIsBegin(s, f);
      RunBytesBehind(Cut(s), f.events, f.consumed, Begin(f.parser, f.count), last);
      AppendAssoc(f.events, RunBytes(Begin(f.parser, f.count), last).events, FlushOpen(RunBytes(Begin(f.parser, f.count), last).open));
    }
  }

  lemma FlattenLast(bufs: seq<string>)
    requires bufs != []
    ensures Flatten(bufs) == Flatten(bufs[..|bufs| - 1]) + bufs[|bufs| - 1]
  {
  }

  lemma FlattenNone()
    ensures Flatten([]) == ""
  {
  }

  lemma AdvanceOk(r2: Run, r1: Run)
    requires Equiv(r1, [], 0, r2) && RunOk(r1) && r1.control.Advance?
    ensures r2.control.Advance? && r2.parser.errno.Ok?
  {
  }

  lemma AdvanceBefore(r: Run, data: string)
    requires RunBytes(r, data).control.Advance?
    ensures r.control.Advance?
  {
    if !r.control.Advance? {
      RunBytesStopped(r, data);
    }
  }

  lemma CutIsBegin(s: Run, f: Fed)
    requires s.control.Advance? && f.parser == s.parser && f.count == s.headerBytes && f.consumed == s.consumed
    requires f.events == s.events + FlushOpen(s.open)
    ensures Behind(Cut(s), f.events, f.consumed, Begin(f.parser, f.count))
  {
    assert f.events + [] == f.events;
  }

  lemma QuietIsRun(p: Parser, count: nat, data: string)
    requires Quiet(p, count, data)
    ensures forall j: nat | j < |data| ::
      var s := RunBytes(Begin(p, count), data[..j]); !s.control.Exit? && (s.control.Advance? && s.skipping ==> IsHeaderChar(data[j]))
  {
    hide RunBytes, IsHeaderChar, Begin;
  }

  lemma EndsBefore(bufs: seq<string>)
    requires |bufs| > 1 && forall i | 0 <= i < |bufs| :: bufs[i] != ""
    ensures var n := |bufs| - 1; var off := |Flatten(bufs[..n])|;
      && off in Ends(bufs)
      && (forall x: nat | x < off :: x in Ends(bufs) <==> x in Ends(bufs[..n]))
      && (forall x: nat | x > off :: x !in Ends(bufs))
  {
    var n := |bufs| - 1;
    forall x: nat | x in Ends(bufs[..n])
      ensures x < |Flatten(bufs[..n])|
    {
      EndsInside(bufs[..n], x);
    }
  }
}
