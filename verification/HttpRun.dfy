/** Runs of the byte machine: one byte, one buffer, a list of buffers. */
module HttpRun {
  import opened Options
  import opened HttpTypes
  import opened HttpMachine

  /** A data callback being collected: its kind, and the bytes since its mark. */
  datatype Datum = Datum(kind: DataKind, bytes: string)

  /** A run in progress.  `control` is Advance until the run fails or leaves for another
      protocol; `consumed` counts the bytes taken, and `headerBytes` those that began in a
      header state since the count was last reset; `reset` says whether it was in this buffer. */
  datatype Run = Run(
    parser: Parser, headerBytes: nat, open: Option<Datum>, skipping: bool, events: seq<Event>,
    control: Control, consumed: nat, reset: bool)

  // ---- The meaning of an Op ------------------------------------------------------------

  predicate IsOpen(open: Option<Datum>, kind: DataKind) { open.Some? && open.value.kind == kind }

  /** MARK keeps a mark that is already set. */
  function MarkOpen(open: Option<Datum>, kind: DataKind): Option<Datum> {
    if IsOpen(open, kind) then open else Some(Datum(kind, ""))
  }

  function OpenAfter(op: Op, open: Option<Datum>): Option<Datum> {
    match op
    case Mark(kind) => MarkOpen(open, kind)
    case Flush(kind) => if IsOpen(open, kind) then None else open
    case MarkThenFlush(kind) => None
    case MarkThenFlushIncl(kind) => None
    case _ => open
  }

  function EventsOf(op: Op, open: Option<Datum>, ch: char): seq<Event> {
    match op
    case Flush(kind) => if IsOpen(open, kind) then [Data(kind, open.value.bytes)] else []
    case MarkThenFlush(kind) => [Data(kind, MarkOpen(open, kind).value.bytes)]
    case MarkThenFlushIncl(kind) => [Data(kind, MarkOpen(open, kind).value.bytes + [ch])]
    case Notify(event) => [event]
    case _ => []
  }

  function Extend(open: Option<Datum>, ch: char): Option<Datum> {
    if open.Some? then Some(Datum(open.value.kind, open.value.bytes + [ch])) else None
  }

  // ---- One byte ------------------------------------------------------------------------

  /** The run after one pass through the switch, the current byte not yet taken. */
  function Settled(r: Run, ch: char): Run
    requires r.control.Advance?
  {
    var o := Transition(r.parser, r.skipping, ch);
    var resets := ResetsCount(r.parser.state) && !o.control.Fail?;
    Run(o.parser, if resets then 0 else r.headerBytes,
        OpenAfter(o.op, r.open), o.skipping, r.events + EventsOf(o.op, r.open, ch),
        if o.control.Reexecute? then Advance else o.control, r.consumed, r.reset || resets)
  }

  /** The switch, entered again until it lets go of the byte. */
  function Settle(r: Run, ch: char): (r': Run)
    requires r.control.Advance?
    ensures !r'.control.Reexecute?
    decreases Rank(r.parser.state)
  {
    var o := Transition(r.parser, r.skipping, ch);
    var r1 := Settled(r, ch);
    match o.control
    case Advance => r1.(open := Extend(r1.open, ch), consumed := r.consumed + 1)
    case Reexecute => Settle(r1, ch)
    case Fail => r1
    case Exit => r1.(consumed := r.consumed + 1)
  }

  /** COUNT_HEADER_SIZE(1), without its limit. */
  function Count(r: Run): Run {
    if ParsingHeader(r.parser.state) then r.(headerBytes := r.headerBytes + 1) else r
  }

  function Step(r: Run, ch: char): (r': Run)
    ensures !r.control.Advance? ==> r' == r
    ensures !r.control.Reexecute? ==> !r'.control.Reexecute?
  {
    if r.control.Advance? then Settle(Count(r), ch) else r
  }

  // ---- One buffer ----------------------------------------------------------------------

  function RunBytes(r: Run, data: string): Run {
    if data == "" then r else Step(RunBytes(r, data[..|data| - 1]), data[|data| - 1])
  }

  /** The data callback that a buffer beginning in state `s` continues. */
  function OpenAtStart(s: State): Option<Datum> {
    if s.HeaderField? then Some(Datum(Field, ""))
    else if s.HeaderValue? then Some(Datum(Value, ""))
    else if IsUrlState(s) then Some(Datum(Url, ""))
    else if s.ResStatus? then Some(Datum(Status, ""))
    else None
  }

  /** The start of a buffer, when `count` header bytes have been seen. */
  function Begin(p: Parser, count: nat): Run { Run(p, count, OpenAtStart(p.state), false, [], Advance, 0, false) }

  function FlushOpen(open: Option<Datum>): seq<Event> {
    if open.Some? then [Data(open.value.kind, open.value.bytes)] else []
  }

  /** The end of the buffer delivers what is still being collected. */
  function Finish(r: Run): Run {
    if r.control.Advance? then r.(open := None, skipping := false, events := r.events + FlushOpen(r.open)) else r
  }

  /** One call on a non-empty buffer. */
  function Call(p: Parser, count: nat, data: string): Run { Finish(RunBytes(Begin(p, count), data)) }

  // ---- Composition ---------------------------------------------------------------------

  lemma {:induction false} RunBytesAppend(r: Run, a: string, b: string)
    ensures RunBytes(r, a + b) == RunBytes(RunBytes(r, a), b)
    decreases |b|
  {
    hide Step;
    if b == "" {
      assert a + b == a;
    } else {
      var b0 := b[..|b| - 1];
      assert (a + b)[..|a + b| - 1] == a + b0;
      RunBytesAppend(r, a, b0);
    }
  }

  lemma RunBytesNone(r: Run)
    ensures RunBytes(r, "") == r
  {
  }

  lemma RunBytesOne(r: Run, ch: char)
    ensures RunBytes(r, [ch]) == Step(r, ch)
  {
    hide Step;
    assert [ch][..0] == "";
    assert RunBytes(r, [ch][..0]) == r;
  }

  lemma RunBytesCons(r: Run, data: string)
    requires data != ""
    ensures RunBytes(r, data) == RunBytes(Step(r, data[0]), data[1..])
  {
    hide Step;
    assert data == [data[0]] + data[1..];
    RunBytesAppend(r, [data[0]], data[1..]);
    RunBytesOne(r, data[0]);
  }

  lemma {:induction false} RunBytesStopped(r: Run, data: string)
    requires !r.control.Advance?
    ensures RunBytes(r, data) == r
  {
    hide Step;
    if data != "" {
      RunBytesStopped(r, data[..|data| - 1]);
    }
  }

  lemma {:induction false} RunBytesConsumed(r: Run, data: string)
    requires !r.control.Reexecute?
    ensures !RunBytes(r, data).control.Reexecute?
    ensures r.consumed <= RunBytes(r, data).consumed <= r.consumed + |data|
    ensures RunBytes(r, data).control.Advance? ==> r.control.Advance? && RunBytes(r, data).consumed == r.consumed + |data|
  {
    hide Settle;
    if data != "" {
      var r0 := RunBytes(r, data[..|data| - 1]);
      RunBytesConsumed(r, data[..|data| - 1]);
      if r0.control.Advance? {
        SettleConsumed(Count(r0), data[|data| - 1]);
      }
    }
  }

  lemma {:induction false} SettleConsumed(r: Run, ch: char)
    requires r.control.Advance?
    ensures var r' := Settle(r, ch); r'.consumed == if r'.control.Fail? then r.consumed else r.consumed + 1
    decreases Rank(r.parser.state)
  {
    hide Transition;
    var o := Transition(r.parser, r.skipping, ch);
    if o.control.Reexecute? {
      SettleConsumed(Settled(r, ch), ch);
    }
  }
}
