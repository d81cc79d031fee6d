/** How a stream is cut into buffers does not matter, exactly for the streams on which no
    byte goes unchecked and no byte is left behind. */
module HttpSplit {
  import opened Options
  import opened HttpTypes
  import opened HttpMachine
  import opened HttpRun
  import opened HttpInvariant
  import opened HttpBlocks

  // ---- Callbacks up to concatenation ----------------------------------------------------

  /** One more callback; a data callback is joined to one of its kind right before it. */
  function Push(log: seq<Event>, e: Event): seq<Event> {
    if log != [] && e.Data? && log[|log| - 1].Data? && log[|log| - 1].kind == e.kind
    then log[..|log| - 1] + [Data(e.kind, log[|log| - 1].bytes + e.bytes)]
    else log + [e]
  }

  function Coalesce(events: seq<Event>): seq<Event> {
    if events == [] then [] else Push(Coalesce(events[..|events| - 1]), events[|events| - 1])
  }

  lemma CoalesceSnoc(events: seq<Event>, e: Event)
    ensures Coalesce(events + [e]) == Push(Coalesce(events), e)
  {
    assert (events + [e])[..|events|] == events;
  }

  lemma PushJoins(log: seq<Event>, kind: DataKind, x: string, y: string)
    ensures Push(Push(log, Data(kind, x)), Data(kind, y)) == Push(log, Data(kind, x + y))
  {
    if log != [] && log[|log| - 1].Data? && log[|log| - 1].kind == kind {
      var z := log[|log| - 1].bytes;
      assert z + x + y == z + (x + y);
    }
  }

  // ---- Buffers --------------------------------------------------------------------------

  /** The calls made so far; `count` is the header count they end with. */
  datatype Fed = Fed(parser: Parser, count: nat, events: seq<Event>, consumed: nat)

  /** One more call.  A parser in an error state does nothing. */
  function FeedOne(f: Fed, data: string): Fed {
    if !f.parser.errno.Ok? then f
    else
      var c := Call(f.parser, f.count, data);
      Fed(c.parser, c.headerBytes, f.events + c.events, f.consumed + c.consumed)
  }

  function Feed(p: Parser, count: nat, bufs: seq<string>): Fed {
    if bufs == [] then Fed(p, count, [], 0)
    else FeedOne(Feed(p, count, bufs[..|bufs| - 1]), bufs[|bufs| - 1])
  }

  function Flatten(bufs: seq<string>): string {
    if bufs == [] then "" else Flatten(bufs[..|bufs| - 1]) + bufs[|bufs| - 1]
  }

  /** A way of cutting `data` into non-empty buffers. */
  predicate IsCut(bufs: seq<string>, data: string) {
    bufs != [] && (forall i | 0 <= i < |bufs| :: bufs[i] != "") && Flatten(bufs) == data
  }

  /** The same error at the same byte, or no error, the same parser and the same callbacks up to
      concatenation. */
  predicate Agree(f: Fed, g: Fed) {
    && f.parser.errno == g.parser.errno && f.consumed == g.consumed
    && (f.parser.errno.Ok? ==>
          f.parser == g.parser && f.count == g.count && Coalesce(f.events) == Coalesce(g.events))
  }

  /** Read in one buffer, the stream has no unfit byte where the loop does not look, and does not
      change protocol before its last byte. */
  ghost predicate Quiet(p: Parser, count: nat, data: string) {
    forall i: nat | i < |data| ::
      var r := RunBytes(Begin(p, count), data[..i]);
      !r.control.Exit? && (r.control.Advance? && r.skipping ==> IsHeaderChar(data[i]))
  }

  predicate AllHeaderChars(s: string) { forall i | 0 <= i < |s| :: IsHeaderChar(s[i]) }

  /** So is every stream without control bytes that stays with the protocol to its last byte. */
  lemma TextIsQuiet(p: Parser, count: nat, data: string)
    requires AllHeaderChars(data) && data != ""
    requires !RunBytes(Begin(p, count), data[..|data| - 1]).control.Exit?
    ensures Quiet(p, count, data)
  {
    hide RunBytes, IsHeaderChar, Begin;
    var before := data[..|data| - 1];
    forall i: nat | i < |data|
      ensures !RunBytes(Begin(p, count), data[..i]).control.Exit?
    {
      assert before == data[..i] + before[i..];
      RunBytesAppend(Begin(p, count), data[..i], before[i..]);
      if RunBytes(Begin(p, count), data[..i]).control.Exit? {
        RunBytesStopped(RunBytes(Begin(p, count), data[..i]), before[i..]);
      }
    }
  }

  // ---- A run that began earlier and one that begins at the cut ---------------------------

  /** `open1` has been collecting since before a cut that `open2` knows nothing of: the bytes
      until the cut are already in the second log. */
  predicate Lagging(log1: seq<Event>, open1: Option<Datum>, log2: seq<Event>, open2: Option<Datum>) {
    open1.Some? &&
    var kind, bytes := open1.value.kind, open1.value.bytes;
    var rest := if open2.Some? then open2.value.bytes else "";
    && (if open2.Some? then open2.value.kind == kind else kind == Body)
    && |rest| <= |bytes|
    && var q := bytes[..|bytes| - |rest|]; bytes == q + rest && Coalesce(log2) == Push(Coalesce(log1), Data(kind, q))
  }

  predicate LogsEquiv(log1: seq<Event>, open1: Option<Datum>, log2: seq<Event>, open2: Option<Datum>) {
    (open1 == open2 && Coalesce(log1) == Coalesce(log2)) || Lagging(log1, open1, log2, open2)
  }

  /** Delivering what is open makes the logs the same. */
  lemma FlushEquiv(log1: seq<Event>, open1: Option<Datum>, log2: seq<Event>, open2: Option<Datum>)
    requires LogsEquiv(log1, open1, log2, open2)
    ensures Coalesce(log1 + FlushOpen(open1)) == Coalesce(log2 + FlushOpen(open2))
  {
    hide Coalesce, Push;
    assert log1 + [] == log1 && log2 + [] == log2;
    if open1.Some? {
      var kind, bytes := open1.value.kind, open1.value.bytes;
      CoalesceSnoc(log1, Data(kind, bytes));
      if open2.Some? {
        var rest := open2.value.bytes;
        CoalesceSnoc(log2, Data(kind, rest));
        if Lagging(log1, open1, log2, open2) {
          PushJoins(Coalesce(log1), kind, bytes[..|bytes| - |rest|], rest);
        }
      } else {
        assert bytes[..|bytes|] == bytes;
      }
    }
  }

  /** One op keeps the logs equivalent. */
  lemma OpEquiv(op: Op, log1: seq<Event>, open1: Option<Datum>, log2: seq<Event>, open2: Option<Datum>, ch: char)
    requires LogsEquiv(log1, open1, log2, open2) && OpFits(op, open1) && OpFits(op, open2)
    ensures LogsEquiv(log1 + EventsOf(op, open1, ch), OpenAfter(op, open1), log2 + EventsOf(op, open2, ch), OpenAfter(op, open2))
  {
    hide Coalesce, Push, Lagging;
    assert log1 + [] == log1 && log2 + [] == log2;
    if open1 == open2 && Coalesce(log1) == Coalesce(log2) {
      var events := EventsOf(op, open1, ch);
      if events != [] {
        CoalesceSnoc(log1, events[0]);
        CoalesceSnoc(log2, events[0]);
      }
    } else {
      LaggingOp(op, log1, open1, log2, open2, ch);
    }
  }

  lemma LaggingIncl(log1: seq<Event>, open1: Option<Datum>, log2: seq<Event>, open2: Option<Datum>, ch: char)
    requires Lagging(log1, open1, log2, open2)
    ensures var kind := open1.value.kind; var rest := if open2.Some? then open2.value.bytes else "";
      Coalesce(log1 + [Data(kind, open1.value.bytes + [ch])]) == Coalesce(log2 + [Data(kind, rest + [ch])])
  {
    hide Coalesce, Push;
    var kind, bytes := open1.value.kind, open1.value.bytes;
    var rest := if open2.Some? then open2.value.bytes else "";
    var q := bytes[..|bytes| - |rest|];
    CoalesceSnoc(log1, Data(kind, bytes + [ch]));
    CoalesceSnoc(log2, Data(kind, rest + [ch]));
    PushJoins(Coalesce(log1), kind, q, rest + [ch]);
    assert bytes + [ch] == q + (rest + [ch]);
  }

  lemma LaggingOp(op: Op, log1: seq<Event>, open1: Option<Datum>, log2: seq<Event>, open2: Option<Datum>, ch: char)
    requires Lagging(log1, open1, log2, open2) && OpFits(op, open1) && OpFits(op, open2)
    ensures LogsEquiv(log1 + EventsOf(op, open1, ch), OpenAfter(op, open1), log2 + EventsOf(op, open2, ch), OpenAfter(op, open2))
  {
    hide Coalesce, Push;
    assert log1 + [] == log1 && log2 + [] == log2;
    match op {
      case Flush(_) =>
        FlushEquiv(log1, open1, log2, open2);
      case MarkThenFlushIncl(_) =>
        LaggingIncl(log1, open1, log2, open2, ch);
      case Mark(kind) =>
        assert OpenAfter(op, open1) == open1;
        assert open2.None? ==> OpenAfter(op, open2) == Some(Datum(kind, ""));
        assert Lagging(log1, open1, log2, OpenAfter(op, open2));
      case _ =>
    }
  }

  /** Taking the byte keeps the logs equivalent, as long as both collect it or neither does. */
  lemma ExtendEquiv(log1: seq<Event>, open1: Option<Datum>, log2: seq<Event>, open2: Option<Datum>, ch: char)
    requires LogsEquiv(log1, open1, log2, open2) && (open1.Some? <==> open2.Some?)
    ensures LogsEquiv(log1, Extend(open1, ch), log2, Extend(open2, ch))
  {
    hide Coalesce, Push;
    if Lagging(log1, open1, log2, open2) && open1 != open2 {
      var bytes, rest := open1.value.bytes, open2.value.bytes;
      var q := bytes[..|bytes| - |rest|];
      assert bytes + [ch] == q + (rest + [ch]);
      assert (bytes + [ch])[..|bytes + [ch]| - |rest + [ch]|] == q;
    }
  }

  /** The two runs stand at the same byte of the stream, `log` and `off` being what the calls
      before the second one delivered and took. */
  predicate Equiv(r1: Run, log: seq<Event>, off: nat, r2: Run) {
    && r1.control == r2.control && r1.parser == r2.parser && r1.headerBytes == r2.headerBytes
    && r1.consumed == off + r2.consumed
    && (!r1.control.Fail? ==> LogsEquiv(r1.events, r1.open, log + r2.events, r2.open))
    && (r2.control.Advance? && r2.skipping ==> r1.skipping)
  }

  lemma SkippingIrrelevant(p: Parser, ch: char)
    requires !p.state.HeaderValue? || IsHeaderChar(ch)
    ensures Transition(p, true, ch) == Transition(p, false, ch)
  {
    hide ValueByte, IsHeaderChar;
  }

  /** Inside a body each byte taken is collected. */
  lemma BodyByteCollected(p: Parser, ch: char)
    requires IsDataBodyState(p.state)
    ensures var o := Transition(p, false, ch);
      o.control.Advance? ==> o.op == Mark(Body) || o.op == Flush(Body)
  {
  }

  lemma SameOpenness(p: Parser, open1: Option<Datum>, open2: Option<Datum>, ch: char)
    requires OpenOk(p.state, open1) && OpenOk(p.state, open2)
    requires var o := Transition(p, false, ch); o.control.Advance? && OpFits(o.op, open1) && OpFits(o.op, open2)
    ensures var o := Transition(p, false, ch); OpenAfter(o.op, open1).Some? <==> OpenAfter(o.op, open2).Some?
  {
    hide Transition;
    if IsDataBodyState(p.state) {
      BodyByteCollected(p, ch);
    }
  }

  lemma AppendAssoc(a: seq<Event>, b: seq<Event>, c: seq<Event>)
    ensures a + (b + c) == a + b + c
  {
  }

  lemma {:induction false} SettleEquiv(r1: Run, log: seq<Event>, off: nat, r2: Run, ch: char)
    requires Equiv(r1, log, off, r2) && r1.control.Advance?
    requires Inv(r1.parser) && OpenOk(r1.parser.state, r1.open) && OpenOk(r1.parser.state, r2.open)
    requires r1.skipping && !r2.skipping ==> IsHeaderChar(ch) || !r1.parser.state.HeaderValue?
    ensures Equiv(Settle(r1, ch), log, off, Settle(r2, ch))
    decreases Rank(r1.parser.state)
  {
    hide Transition, Settle, Inv, OpenOk, OpFits, LogsEquiv, IsHeaderChar, OpenAfter, EventsOf;
    if r1.skipping != r2.skipping {
      SkippingIrrelevant(r1.parser, ch);
    }
    var o := Transition(r1.parser, r1.skipping, ch);
    assert o == Transition(r2.parser, r2.skipping, ch);
    TransitionKeeps(r1.parser, r1.open, r1.skipping, ch);
    TransitionKeeps(r1.parser, r2.open, r1.skipping, ch);
    OpEquiv(o.op, r1.events, r1.open, log + r2.events, r2.open, ch);
    AppendAssoc(log, r2.events, EventsOf(o.op, r2.open, ch));
    SettleUnfold(r1, ch);
    SettleUnfold(r2, ch);
    var s1, s2 := Settled(r1, ch), Settled(r2, ch);
    if o.control.Reexecute? {
      SettleEquiv(s1, log, off, s2, ch);
    } else if o.control.Advance? {
      AdvanceOpenness(r1, r2, ch);
      ExtendEquiv(s1.events, s1.open, log + s2.events, s2.open, ch);
    }
  }

  lemma AdvanceOpenness(r1: Run, r2: Run, ch: char)
    requires r1.parser == r2.parser && OpenOk(r1.parser.state, r1.open) && OpenOk(r1.parser.state, r2.open)
    requires var o := Transition(r1.parser, r1.skipping, ch);
      && o.control.Advance? && OpFits(o.op, r1.open) && OpFits(o.op, r2.open)
    ensures var o := Transition(r1.parser, r1.skipping, ch); OpenAfter(o.op, r1.open).Some? <==> OpenAfter(o.op, r2.open).Some?
  {
    hide Transition;
    if r1.parser.state.HeaderValue? {
    } else {
      if r1.skipping {
        SkippingIrrelevant(r1.parser, ch);
      }
      SameOpenness(r1.parser, r1.open, r2.open, ch);
    }
  }

  lemma StepEquiv(r1: Run, log: seq<Event>, off: nat, r2: Run, ch: char)
    requires Equiv(r1, log, off, r2) && RunOk(r1) && RunOk(r2)
    requires r1.control.Advance? && r1.skipping ==> IsHeaderChar(ch)
    ensures Equiv(Step(r1, ch), log, off, Step(r2, ch))
  {
    hide Settle, Inv, OpenOk, LogsEquiv, IsHeaderChar;
    if r1.control.Advance? {
      SettleEquiv(Count(r1), log, off, Count(r2), ch);
    }
  }

  lemma {:induction false} BlockEquiv(r1: Run, log: seq<Event>, off: nat, r2: Run, block: string)
    requires Equiv(r1, log, off, r2) && RunOk(r1) && RunOk(r2)
    requires forall j: nat | j < |block| ::
      var s := RunBytes(r1, block[..j]); s.control.Advance? && s.skipping ==> IsHeaderChar(block[j])
    ensures Equiv(RunBytes(r1, block), log, off, RunBytes(r2, block))
  {
    hide Step, RunOk, Equiv, IsHeaderChar;
    if block != "" {
      var n := |block| - 1;
      var b := block[..n];
      forall j: nat | j < |b|
        ensures var s := RunBytes(r1, b[..j]); s.control.Advance? && s.skipping ==> IsHeaderChar(b[j])
      {
        assert b[..j] == block[..j];
      }
      BlockEquiv(r1, log, off, r2, b);
      RunBytesKeeps(r1, b);
      RunBytesKeeps(r2, b);
      StepEquiv(RunBytes(r1, b), log, off, RunBytes(r2, b), block[n]);
    }
  }

  // ---- The theorem ----------------------------------------------------------------------

  lemma OpenAtStartOk(s: State, open: Option<Datum>)
    requires OpenOk(s, open)
    ensures if open.Some? && open.value.kind != Body then OpenAtStart(s) == Some(Datum(open.value.kind, ""))
            else OpenAtStart(s).None?
    ensures open.Some? && open.value.kind == Body ==> IsDataBodyState(s)
  {
  }

  /** At a cut the earlier run goes on collecting; the later one starts with what was collected
      delivered. */
  lemma CutEquiv(r1: Run, log: seq<Event>, off: nat, r2: Run)
    requires Equiv(r1, log, off, r2) && r1.control.Advance? && OpenOk(r1.parser.state, r1.open)
    requires OpenOk(r1.parser.state, r2.open)
    ensures var c := Finish(r2); Equiv(r1, log + c.events, off + c.consumed, Begin(c.parser, c.headerBytes))
  {
    hide Coalesce, Push, OpenOk, OpenAtStart;
    var c := Finish(r2);
    OpenAtStartOk(r1.parser.state, r1.open);
    OpenAtStartOk(r1.parser.state, r2.open);
    AppendAssoc(log, r2.events, FlushOpen(r2.open));
    var log2 := log + r2.events;
    assert log2 + [] == log2 && log + c.events + [] == log + c.events;
    if r1.open.Some? {
      var kind, bytes := r1.open.value.kind, r1.open.value.bytes;
      assert bytes[..|bytes|] == bytes;
      if r2.open.Some? {
        var rest := r2.open.value.bytes;
        CoalesceSnoc(log2, Data(kind, rest));
        if r1.open == r2.open && Coalesce(r1.events) == Coalesce(log2) {
        } else {
          PushJoins(Coalesce(r1.events), kind, bytes[..|bytes| - |rest|], rest);
        }
      }
      assert Coalesce(log + c.events) == Push(Coalesce(r1.events), Data(kind, bytes));
      assert Lagging(r1.events, r1.open, log + c.events, OpenAtStart(c.parser.state));
    }
  }

  lemma QuietPrefix(p: Parser, count: nat, a: string, b: string)
    requires Quiet(p, count, a + b)
    ensures Quiet(p, count, a)
  {
    hide RunBytes;
    forall i: nat | i < |a|
      ensures var r := RunBytes(Begin(p, count), a[..i]);
        !r.control.Exit? && (r.control.Advance? && r.skipping ==> IsHeaderChar(a[i]))
    {
      assert (a + b)[..i] == a[..i] && (a + b)[i] == a[i];
    }
  }

  lemma QuietSuffix(p: Parser, count: nat, a: string, b: string)
    requires Quiet(p, count, a + b)
    ensures b != "" ==> !RunBytes(Begin(p, count), a).control.Exit?
    ensures forall j: nat | j < |b| ::
      var s := RunBytes(RunBytes(Begin(p, count), a), b[..j]); s.control.Advance? && s.skipping ==> IsHeaderChar(b[j])
  {
    hide RunBytes;
    if b != "" {
      assert (a + b)[..|a|] == a;
    }
    forall j: nat | j < |b|
      ensures var s := RunBytes(RunBytes(Begin(p, count), a), b[..j]);
        s.control.Advance? && s.skipping ==> IsHeaderChar(b[j])
    {
      assert (a + b)[..|a| + j] == a + b[..j] && (a + b)[|a| + j] == b[j];
      RunBytesAppend(Begin(p, count), a, b[..j]);
    }
  }

  /** The calls before the last buffer, and the run on it. */
  predicate LastCallEquiv(p: Parser, count: nat, bufs: seq<string>) {
    bufs != [] &&
    var n := |bufs| - 1;
    var f := Feed(p, count, bufs[..n]);
    var r1 := RunBytes(Begin(p, count), Flatten(bufs));
    if f.parser.errno.Ok? then
      Inv(f.parser) && CountOk(f.parser, f.count)
      && Equiv(r1, f.events, f.consumed, RunBytes(Begin(f.parser, f.count), bufs[n]))
    else r1.control.Fail? && r1.parser == f.parser && r1.consumed == f.consumed
  }

  lemma {:induction false} FeedEquiv(p: Parser, count: nat, bufs: seq<string>)
    requires Inv(p) && CountOk(p, count) && bufs != [] && (forall i | 0 <= i < |bufs| :: bufs[i] != "")
    requires Quiet(p, count, Flatten(bufs))
    ensures LastCallEquiv(p, count, bufs)
  {
    hide RunBytes, Inv, CountOk, RunOk, Equiv, Quiet;
    var n := |bufs| - 1;
    var before, last := bufs[..n], bufs[n];
    var start := Begin(p, count);
    BeginOk(p, count);
    QuietSuffix(p, count, Flatten(before), last);
    RunBytesAppend(start, Flatten(before), last);
    if n == 0 {
      assert Flatten(before) == "" && "" + last == last;
      assert Feed(p, count, before) == Fed(p, count, [], 0);
      InvOk(p);
      SameEquiv(RunBytes(start, last));
    } else {
      QuietPrefix(p, count, Flatten(before), last);
      FeedEquiv(p, count, before);
      FeedNext(p, count, before, last);
    }
  }

  lemma InvOk(p: Parser)
    requires Inv(p)
    ensures p.errno.Ok?
  {
    hide StateOk;
  }

  lemma SameEquiv(r: Run)
    ensures Equiv(r, [], 0, r)
  {
    assert [] + r.events == r.events;
  }

  /** From one buffer to the next. */
  lemma FeedNext(p: Parser, count: nat, before: seq<string>, last: string)
    requires Inv(p) && CountOk(p, count) && last != "" && LastCallEquiv(p, count, before)
    requires var r := RunBytes(Begin(p, count), Flatten(before));
      && !r.control.Exit?
      && forall j: nat | j < |last| ::
           var s := RunBytes(r, last[..j]); s.control.Advance? && s.skipping ==> IsHeaderChar(last[j])
    ensures
      var f := Feed(p, count, before);
      var r1 := RunBytes(RunBytes(Begin(p, count), Flatten(before)), last);
      if f.parser.errno.Ok? then
        Inv(f.parser) && CountOk(f.parser, f.count)
        && Equiv(r1, f.events, f.consumed, RunBytes(Begin(f.parser, f.count), last))
      else r1.control.Fail? && r1.parser == f.parser && r1.consumed == f.consumed
  {
    hide RunBytes, Inv, CountOk, OpenOk, IsHeaderChar, LogsEquiv;
    var m := |before| - 1;
    var f0, f := Feed(p, count, before[..m]), Feed(p, count, before);
    var r1 := RunBytes(Begin(p, count), Flatten(before));
    BeginOk(p, count);
    RunBytesKeeps(Begin(p, count), Flatten(before));
    if !f0.parser.errno.Ok? {
      RunBytesStopped(r1, last);
    } else {
      var r2 := RunBytes(Begin(f0.parser, f0.count), before[m]);
      BeginOk(f0.parser, f0.count);
      RunBytesKeeps(Begin(f0.parser, f0.count), before[m]);
      if r1.control.Fail? {
        RunBytesStopped(r1, last);
      } else {
        CutEquiv(r1, f0.events, f0.consumed, r2);
        InvOk(r2.parser);
        BeginOk(f.parser, f.count);
        BlockEquiv(r1, f.events, f.consumed, Begin(f.parser, f.count), last);
      }
    }
  }

  /** On a quiet stream every cut gives what one buffer gives. */
  lemma SplitInvariance(p: Parser, count: nat, data: string, bufs: seq<string>)
    requires Inv(p) && CountOk(p, count) && Quiet(p, count, data) && IsCut(bufs, data)
    ensures Agree(Feed(p, count, bufs), Feed(p, count, [data]))
  {
    hide RunBytes, Inv, CountOk, LogsEquiv;
    FeedEquiv(p, count, bufs);
    InvOk(p);
    var n := |bufs| - 1;
    var f := Feed(p, count, bufs[..n]);
    var r1 := RunBytes(Begin(p, count), data);
    FeedOneBuffer(p, count, data);
    assert [] + Finish(r1).events == Finish(r1).events;
    BeginOk(p, count);
    RunBytesKeeps(Begin(p, count), data);
    if f.parser.errno.Ok? {
      var r2 := RunBytes(Begin(f.parser, f.count), bufs[n]);
      BeginOk(f.parser, f.count);
      RunBytesKeeps(Begin(f.parser, f.count), bufs[n]);
      if r1.control.Advance? {
        FlushEquiv(r1.events, r1.open, f.events + r2.events, r2.open);
        AppendAssoc(f.events, r2.events, FlushOpen(r2.open));
      } else if r1.control.Exit? {
        ExitEquiv(r1.events, f.events + r2.events, r2.open);
      }
    }
  }

  lemma ExitEquiv(log1: seq<Event>, log2: seq<Event>, open2: Option<Datum>)
    requires LogsEquiv(log1, None, log2, open2)
    ensures Coalesce(log1) == Coalesce(log2)
  {
  }

  lemma FeedOneBuffer(p: Parser, count: nat, data: string)
    requires p.errno.Ok?
    ensures var c := Call(p, count, data); Feed(p, count, [data]) == Fed(c.parser, c.headerBytes, [] + c.events, c.consumed)
  {
    hide Call;
    assert [data][..0] == [];
    assert Feed(p, count, [data][..0]) == Fed(p, count, [], 0);
  }

  /** A byte skipped unchecked is refused when a buffer begins with it. */
  lemma UncheckedByte(r: Run, ch: char)
    requires RunOk(r) && r.control.Advance? && r.skipping && !IsHeaderChar(ch)
    ensures Step(r, ch).control.Advance? && Step(r, ch).consumed == r.consumed + 1
    ensures var s := Step(Begin(r.parser, r.headerBytes), ch); s.control.Fail? && s.consumed == 0
  {
    hide StateOk;
  }

  lemma TwoBuffers(p: Parser, count: nat, a: string, b: string)
    requires p.errno.Ok?
    ensures Flatten([a, b]) == a + b
    ensures var c := Call(p, count, a);
      c.parser.errno.Ok? ==>
        var d := Call(c.parser, c.headerBytes, b);
        Feed(p, count, [a, b]).parser == d.parser && Feed(p, count, [a, b]).consumed == c.consumed + d.consumed
  {
    hide Call;
    assert [a, b][..1] == [a] && [a][..0] == [];
    assert Flatten([a]) == a by { assert Flatten([a][..0]) == ""; assert "" + a == a; }
    FeedOneBuffer(p, count, a);
  }

  /** Cutting just before an unchecked byte, or just after a change of protocol, is noticed. */
  lemma CutNoticed(p: Parser, count: nat, data: string, i: nat)
    requires Inv(p) && CountOk(p, count) && i < |data|
    requires var r := RunBytes(Begin(p, count), data[..i]);
      r.control.Exit? || (r.control.Advance? && r.skipping && !IsHeaderChar(data[i]))
    ensures IsCut([data[..i], data[i..]], data)
    ensures !Agree(Feed(p, count, [data[..i], data[i..]]), Feed(p, count, [data]))
  {
    hide RunBytes, Inv, CountOk, Step, OpenOk, IsHeaderChar;
    var start := Begin(p, count);
    var a, b := data[..i], data[i..];
    var r := RunBytes(start, a);
    assert data == a + b;
    InvOk(p);
    BeginOk(p, count);
    RunBytesKeeps(start, a);
    RunBytesConsumed(start, a);
    RunBytesAppend(start, a, b);
    RunBytesConsumed(r, b);
    TwoBuffers(p, count, a, b);
    FeedOneBuffer(p, count, data);
    if i == 0 {
      assert a == "";
      RunBytesNone(start);
    }
    var c := Finish(r);
    InvOk(c.parser);
    BeginOk(c.parser, c.headerBytes);
    if r.control.Exit? {
      RunBytesStopped(r, b);
      RunBytesKeeps(Begin(c.parser, c.headerBytes), b);
      SomethingConsumed(Begin(c.parser, c.headerBytes), b);
    } else {
      UncheckedByte(r, data[i]);
      RunBytesCons(r, b);
      RunBytesCons(Begin(c.parser, c.headerBytes), b);
      RunBytesConsumed(Step(r, b[0]), b[1..]);
      RunBytesStopped(Step(Begin(c.parser, c.headerBytes), b[0]), b[1..]);
      RunBytesKeeps(Begin(c.parser, c.headerBytes), b);
    }
  }

  lemma SomethingConsumed(r: Run, data: string)
    requires r.control.Advance? && data != ""
    ensures !RunBytes(r, data).control.Fail? ==> RunBytes(r, data).consumed > r.consumed
  {
    hide RunBytes, Settle;
    RunBytesCons(r, data);
    SettleConsumed(Count(r), data[0]);
    var s := Step(r, data[0]);
    RunBytesConsumed(s, data[1..]);
    if s.control.Fail? {
      RunBytesStopped(s, data[1..]);
    }
  }

  /** Split invariance, both ways: all cuts of a stream agree exactly when the stream is quiet. */
  lemma SplitInvarianceExact(p: Parser, count: nat, data: string)
    requires Inv(p) && CountOk(p, count) && data != ""
    ensures Quiet(p, count, data) <==>
            (forall bufs | IsCut(bufs, data) :: Agree(Feed(p, count, bufs), Feed(p, count, [data])))
  {
    hide RunBytes, Feed, Inv, CountOk, Agree, IsCut;
    if Quiet(p, count, data) {
      forall bufs | IsCut(bufs, data)
        ensures Agree(Feed(p, count, bufs), Feed(p, count, [data]))
      {
        SplitInvariance(p, count, data, bufs);
      }
    } else {
      var i: nat :| i < |data| &&
        var r := RunBytes(Begin(p, count), data[..i]);
        r.control.Exit? || (r.control.Advance? && r.skipping && !IsHeaderChar(data[i]));
      CutNoticed(p, count, data, i);
    }
  }

  /** Not every stream is quiet: a control byte inside a header value is refused or not,
      depending on where the buffer begins. */
  lemma SomeStreamIsNotQuiet(p: Parser, count: nat)
    requires Inv(p) && p.state.HeaderValue? && p.headerState.General?
    ensures !Quiet(p, count, "a\U{01}")
  {
    hide RunBytes, Step, StateOk;
    var data := "a\U{01}";
    assert data[..1] == ['a'];
    RunBytesOne(Begin(p, count), 'a');
    ValueStep(Begin(p, count), 'a');
    var r := RunBytes(Begin(p, count), data[..1]);
    assert r.control.Advance? && r.skipping && !IsHeaderChar(data[1]);
  }
}
