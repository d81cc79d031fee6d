/** http_parser_execute: the loop over a buffer, with its index, its marks, the re-execution of
    the switch, the inner loops over header bytes, the search for a line end and the jumps over
    body bytes.  `Execute` is proved to do what the byte machine does on the same bytes. */
module HttpExecute {
  import opened Options
  import opened HttpTypes
  import opened HttpMachine
  import opened HttpRun
  import opened HttpInvariant
  import opened HttpBlocks

  /** The mark variables that are set, each an index into the buffer. */
  type Marks = map<DataKind, nat>

  /** The marks say what the byte machine has open: the buffer from the mark on. */
  ghost predicate MarksOk(marks: Marks, open: Option<Datum>, data: string, p: nat) {
    && p <= |data|
    && marks.Keys == (if open.Some? then {open.value.kind} else {})
    && (open.Some? ==>
          marks[open.value.kind] <= p && data[marks[open.value.kind]..p] == open.value.bytes)
  }

  function StartMarks(s: State): Marks {
    if s.HeaderField? then map[Field := 0]
    else if s.HeaderValue? then map[Value := 0]
    else if IsUrlState(s) then map[Url := 0]
    else if s.ResStatus? then map[Status := 0]
    else map[]
  }

  lemma StartMarksOk(p: Parser, count: nat, data: string)
    ensures MarksOk(StartMarks(p.state), Begin(p, count).open, data, 0)
  {
  }

  lemma MarksOkExtend(marks: Marks, open: Option<Datum>, data: string, p: nat, q: nat)
    requires MarksOk(marks, open, data, p) && p <= q <= |data|
    ensures MarksOk(marks, ExtendBy(open, data[p..q]), data, q)
    ensures q == p + 1 ==> ExtendBy(open, data[p..q]) == Extend(open, data[p])
  {
    if open.Some? {
      var m := marks[open.value.kind];
      assert data[m..p] + data[p..q] == data[m..q];
      if q == p + 1 {
        assert data[p..q] == [data[p]];
      }
    }
  }

  // The header count.  The C counter can be ahead of the true one.

  /** By how much it is: a reset in this buffer wipes out what earlier buffers have left. */
  function Lag(r: Run, lag: nat): nat { if r.reset then 0 else lag }

  /** The loops over a name and over a value count one byte too many where the buffer ends. */
  predicate Overcounts(before: State, after: State) {
    (before.HeaderField? && after.HeaderField?) || (before.HeaderValue? && after.HeaderValue?)
  }

  /** The one byte too many, at the end of a buffer. */
  function Extra(start: Run, data: string, p: nat): nat
    requires p <= |data|
  {
    if 0 < p == |data| && Overcounts(RunBytes(start, data[..p - 1]).parser.state, RunBytes(start, data[..p]).parser.state)
    then 1 else 0
  }

  /** The counter passes the limit behind `data[..i]`: with the next byte, or at the buffer's end
      with the byte that is one too many. */
  predicate ExceedsAt(start: Run, data: string, lag: nat, i: nat)
    requires i <= |data|
  {
    var r := RunBytes(start, data[..i]);
    && r.control.Advance? && r.headerBytes + Lag(r, lag) + 1 > MAX_HEADER_SIZE
    && (if i < |data| then ParsingHeader(r.parser.state) else Extra(start, data, i) == 1)
  }

  ghost predicate Exceeds(start: Run, data: string, lag: nat) {
    exists i: nat :: i <= |data| && ExceedsAt(start, data, lag, i)
  }

  /** It does not pass it before `data[p]`. */
  ghost predicate Within(start: Run, data: string, lag: nat, p: nat) {
    forall i: nat | i < p && i <= |data| :: !ExceedsAt(start, data, lag, i)
  }

  /** How far the counter is ahead after a call, if it was by `ahead` before. */
  function AheadAfter(p: Parser, count: nat, data: string, ahead: nat): nat {
    var start := Begin(p, count);
    Lag(RunBytes(start, data), ahead) + Extra(start, data, |data|)
  }

  /** The counter, exactly. */
  predicate Counted(nread: nat, r: Run, lag: nat, more: nat) {
    nread == r.headerBytes + Lag(r, lag) + more && nread <= MAX_HEADER_SIZE
  }

  lemma WithinNext(start: Run, data: string, lag: nat, p: nat)
    requires Within(start, data, lag, p) && p < |data|
    requires var r := RunBytes(start, data[..p]); ParsingHeader(r.parser.state) ==> r.headerBytes + Lag(r, lag) + 1 <= MAX_HEADER_SIZE
    ensures Within(start, data, lag, p + 1)
  {
    hide RunBytes, ParsingHeader;
  }

  /** The bytes from `p` to `q` are all in one header name or value. */
  predicate Scanned(start: Run, data: string, p: nat, q: nat) {
    && p <= q <= |data|
    && var r, s := RunBytes(start, data[..p]), RunBytes(start, data[..q]);
       && s.reset == r.reset && s.headerBytes == r.headerBytes + (q - p)
       && (p < q ==> Overcounts(RunBytes(start, data[..q - 1]).parser.state, s.parser.state))
  }

  lemma ScannedNone(start: Run, data: string, p: nat)
    requires p <= |data|
    ensures Scanned(start, data, p, p)
  {
  }

  lemma ScannedNext(start: Run, data: string, p: nat, q: nat)
    requires Scanned(start, data, p, q) && q < |data|
    requires var r, s := RunBytes(start, data[..q]), RunBytes(start, data[..q + 1]);
      s.reset == r.reset && s.headerBytes == r.headerBytes + 1 && Overcounts(r.parser.state, s.parser.state)
    ensures Scanned(start, data, p, q + 1)
  {
    hide RunBytes;
  }

  lemma ScannedJoin(start: Run, data: string, p: nat, q: nat, to: nat)
    requires Scanned(start, data, p, q) && Scanned(start, data, q, to) && q < to
    ensures Scanned(start, data, p, to)
  {
    hide RunBytes;
  }

  /** A stretch of header bytes is within the limit if its end is. */
  lemma HeaderWithin(start: Run, data: string, lag: nat, p: nat, q: nat)
    requires Within(start, data, lag, p + 1) && Scanned(start, data, p, q)
    requires var s := RunBytes(start, data[..q]); s.headerBytes + Lag(s, lag) + 1 <= MAX_HEADER_SIZE
    ensures Within(start, data, lag, if q < |data| then q + 1 else q)
  {
    hide RunBytes, ParsingHeader;
    var r := RunBytes(start, data[..p]);
    forall i: nat | p < i <= q && i < |data|
      ensures !ExceedsAt(start, data, lag, i)
    {
      RunBytesSlice(start, data, p, i);
      HeaderBytesBound(r, data[p..i]);
      RunBytesSlice(start, data, i, q);
      HeaderBytesBound(RunBytes(start, data[..i]), data[i..q]);
    }
  }

  /** Too many of them: the counter passes the limit behind them. */
  lemma ScannedExceeds(start: Run, data: string, lag: nat, p: nat, q: nat, nread: nat)
    requires Scanned(start, data, p, q) && Counted(nread, RunBytes(start, data[..p]), lag, 1) && nread + (q - p) > MAX_HEADER_SIZE
    requires RunBytes(start, data[..q]).control.Advance?
    requires if q < |data| then ParsingHeader(RunBytes(start, data[..q]).parser.state) else p < q
    ensures Exceeds(start, data, lag)
  {
    hide RunBytes, ParsingHeader, Overcounts;
    assert ExceedsAt(start, data, lag, q);
  }

  /** Not too many. */
  lemma ScannedWithin(start: Run, data: string, lag: nat, p: nat, q: nat, nread: nat)
    requires Scanned(start, data, p, q) && Counted(nread, RunBytes(start, data[..p]), lag, 1) && nread + (q - p) <= MAX_HEADER_SIZE
    requires Within(start, data, lag, p + 1)
    ensures Within(start, data, lag, if q < |data| then q + 1 else q)
    ensures Counted(nread + (q - p), RunBytes(start, data[..q]), lag, 1)
    ensures q == |data| && p < q ==> Extra(start, data, q) == 1
  {
    hide RunBytes, ParsingHeader, Overcounts, Within, Extra;
    HeaderWithin(start, data, lag, p, q);
    if q == |data| && p < q {
      ExtraIs(start, data, q);
    }
  }

  lemma ExtraIs(start: Run, data: string, q: nat)
    requires 0 < q == |data| && Overcounts(RunBytes(start, data[..q - 1]).parser.state, RunBytes(start, data[..q]).parser.state)
    ensures Extra(start, data, q) == 1
  {
    hide RunBytes, Overcounts;
  }

  /** Bytes of a body do not count. */
  lemma BodyWithin(start: Run, data: string, lag: nat, p: nat, q: nat)
    requires Within(start, data, lag, p + 1) && p <= q < |data|
    requires var r := RunBytes(start, data[..p]);
      && r.control.Advance? && !r.skipping && OpenOk(r.parser.state, r.open)
      && (r.parser.state.BodyIdentityEof?
          || ((r.parser.state.BodyIdentity? || r.parser.state.ChunkData?) && q - p < r.parser.contentLength))
    ensures Within(start, data, lag, q + 1)
  {
    hide RunBytes;
    var r := RunBytes(start, data[..p]);
    OpenIsBody(r);
    forall i: nat | p < i <= q
      ensures !ExceedsAt(start, data, lag, i)
    {
      RunBytesSlice(start, data, p, i);
      if r.parser.state.BodyIdentityEof? {
        EofSteps(r, data[p..i]);
      } else {
        BodySteps(r, data[p..i]);
      }
    }
  }

  /** Where a run leaves for another protocol, no name or value is being read. */
  lemma ExitExtra(start: Run, data: string, p: nat)
    requires RunOk(start) && p < |data| && RunBytes(start, data[..p + 1]).control.Exit?
    ensures Extra(start, data, |data|) == 0
  {
    hide RunBytes;
    StoppedAt(start, data, p);
    RunAt(start, data, p + 1);
    assert data[..|data|] == data;
  }

  /** The counter does not pass the limit in a buffer that is read without an error. */
  lemma WithinAll(start: Run, data: string, lag: nat, nread: nat)
    requires Within(start, data, lag, |data|) && Counted(nread, RunBytes(start, data), lag, Extra(start, data, |data|))
    ensures !Exceeds(start, data, lag)
  {
    hide RunBytes, ParsingHeader, Overcounts;
    assert data[..|data|] == data;
  }

  /** A run that has stopped does not count any more. */
  lemma WithinStopped(start: Run, data: string, lag: nat, p: nat)
    requires Within(start, data, lag, p + 1) && p < |data| && !RunBytes(start, data[..p + 1]).control.Advance?
    ensures !Exceeds(start, data, lag)
  {
    hide RunBytes, ParsingHeader, Extra;
    forall i: nat | p < i <= |data|
      ensures !RunBytes(start, data[..i]).control.Advance?
    {
      RunBytesSlice(start, data, p + 1, i);
      RunBytesStopped(RunBytes(start, data[..p + 1]), data[p + 1..i]);
    }
  }

  // The macros.  A mark is set once; a data callback clears its mark.

  method SetMark(kind: DataKind, p: nat, marks: Marks) returns (marks': Marks)
    ensures marks' == if kind in marks then marks else marks[kind := p]
  {
    marks' := if kind in marks then marks else marks[kind := p];
  }

  method CallbackData(kind: DataKind, data: string, end: nat, marks: Marks, events: seq<Event>)
    returns (marks': Marks, events': seq<Event>)
    requires kind in marks ==> marks[kind] <= end <= |data|
    ensures marks' == marks - {kind}
    ensures events' == if kind in marks then events + [Data(kind, data[marks[kind]..end])] else events
  {
    marks', events' := marks, events;
    if kind in marks {
      events' := events + [Data(kind, data[marks[kind]..end])];
      marks' := marks - {kind};
    }
  }

  /** What a pass through the switch does to the marks and the callbacks. */
  method Expand(op: Op, data: string, p: nat, marks: Marks, events: seq<Event>, ghost open: Option<Datum>)
    returns (marks': Marks, events': seq<Event>)
    requires p < |data| && MarksOk(marks, open, data, p) && OpFits(op, open)
    ensures MarksOk(marks', OpenAfter(op, open), data, p)
    ensures events' == events + EventsOf(op, open, data[p])
  {
    marks', events' := marks, events;
    assert events + [] == events;
    match op {
      case Nothing =>
      case Mark(kind) =>
        marks' := SetMark(kind, p, marks');
      case Flush(kind) =>
        marks', events' := CallbackData(kind, data, p, marks', events');
      case MarkThenFlush(kind) =>
        marks' := SetMark(kind, p, marks');
        assert data[p..p] == "" == MarkOpen(open, kind).value.bytes;
        marks', events' := CallbackData(kind, data, p, marks', events');
      case MarkThenFlushIncl(kind) =>
        marks' := SetMark(kind, p, marks');
        assert data[marks'[kind]..p] == MarkOpen(open, kind).value.bytes;
        assert data[marks'[kind]..p + 1] == data[marks'[kind]..p] + [data[p]];
        marks', events' := CallbackData(kind, data, p + 1, marks', events');
      case Notify(event) =>
        events' := events' + [event];
    }
  }

  /** memchr over `data[from..from + limit]`. */
  method MemChr(data: string, from: nat, limit: nat, c: char) returns (at: Option<nat>)
    requires from + limit <= |data|
    ensures at.Some? ==> from <= at.value < from + limit && data[at.value] == c && c !in data[from..at.value]
    ensures at.None? ==> c !in data[from..from + limit]
  {
    var i := from;
    while i < from + limit
      invariant from <= i <= from + limit
      invariant c !in data[from..i]
    {
      if data[i] == c {
        return Some(i);
      }
      assert data[from..i + 1] == data[from..i] + [data[i]];
      i := i + 1;
    }
    return None;
  }

  /** Where the search for a line end leads: the nearer of the two, or the end of the buffer. */
  function LineEnd(cr: Option<nat>, lf: Option<nat>, end: nat): nat {
    if cr.Some? then
      if lf.Some? && cr.value >= lf.value then lf.value else cr.value
    else if lf.Some? then lf.value
    else end
  }

  lemma NoLineEndBefore(data: string, from: nat, limit: nat, cr: Option<nat>, lf: Option<nat>)
    requires from + limit <= |data| && limit > 0 && data[from] != CR && data[from] != LF
    requires cr.Some? ==> from <= cr.value < from + limit && data[cr.value] == CR && CR !in data[from..cr.value]
    requires lf.Some? ==> from <= lf.value < from + limit && data[lf.value] == LF && LF !in data[from..lf.value]
    requires cr.None? ==> CR !in data[from..from + limit]
    requires lf.None? ==> LF !in data[from..from + limit]
    requires cr.Some? || lf.Some? || from + limit == |data|
    ensures var to := LineEnd(cr, lf, |data|);
      && from < to <= |data| && NoLineEnd(data[from..to])
      && (to < |data| ==> data[to] == CR || data[to] == LF)
  {
    var to := LineEnd(cr, lf, |data|);
    NotInShorter(data, from, to, if cr.Some? then cr.value else from + limit, CR);
    NotInShorter(data, from, to, if lf.Some? then lf.value else from + limit, LF);
  }

  lemma NoLineEndDef(s: string)
    requires CR !in s && LF !in s
    ensures NoLineEnd(s)
  {
  }

  lemma NotInShorter(data: string, from: nat, to: nat, end: nat, c: char)
    requires from <= to <= end <= |data| && c !in data[from..end]
    ensures c !in data[from..to]
  {
    assert data[from..end][..to - from] == data[from..to];
  }

  /** What a run of the byte machine must be where the loop stands at `p` with nothing taken of
      the byte there. */
  ghost predicate Matches(r: Run, p: nat, marks: Marks, events: seq<Event>, data: string) {
    && r.control.Advance? && r.consumed == p && r.events == events
    && Inv(r.parser) && OpenOk(r.parser.state, r.open) && MarksOk(marks, r.open, data, p)
  }

  /** What a run keeps, at the point where it has taken `p` bytes. */
  lemma RunAt(start: Run, data: string, p: nat)
    requires RunOk(start) && p <= |data|
    ensures var r := RunBytes(start, data[..p]);
      && RunOk(r)
      && (r.control.Advance? ==> Inv(r.parser) && OpenOk(r.parser.state, r.open) && r.consumed == start.consumed + p)
  {
    hide RunBytes, Inv, OpenOk, CountOk;
    RunBytesKeeps(start, data[..p]);
    RunBytesConsumed(start, data[..p]);
  }

  lemma FieldByteStep(start: Run, data: string, p: nat)
    requires RunOk(start) && p < |data| && Token(data[p]) != '\0'
    requires RunBytes(start, data[..p]).control.Advance? && RunBytes(start, data[..p]).parser.state.HeaderField?
    ensures var r, r' := RunBytes(start, data[..p]), RunBytes(start, data[..p + 1]);
      var q := NameByte(r.parser, Token(data[p]));
      if q.errno.Ok? then r' == Moved(r, q, false, data[p]) && q.state.HeaderField?
      else q.errno.UnexpectedContentLength? && r' == Failed(r, q)
  {
    hide RunBytes, Step, NameByte, Token, OpenOk, CountOk;
    var r := RunBytes(start, data[..p]);
    RunAt(start, data, p);
    RunBytesSnoc(start, data, p);
    NameStep(r, data[p]);
    NameByteKeeps(r.parser, Token(data[p]));
  }

  /** The byte after a name. */
  lemma FieldEndStep(start: Run, data: string, p: nat)
    requires p < |data| && Token(data[p]) == '\0'
    requires RunBytes(start, data[..p]).control.Advance? && RunBytes(start, data[..p]).parser.state.HeaderField?
    requires IsOpen(RunBytes(start, data[..p]).open, Field)
    ensures var r, r' := RunBytes(start, data[..p]), RunBytes(start, data[..p + 1]);
      r' == if data[p] == ':'
            then r.(parser := r.parser.(state := HeaderValueDiscardWs), open := None, skipping := false,
                    headerBytes := r.headerBytes + 1, events := r.events + [Data(Field, r.open.value.bytes)],
                    consumed := r.consumed + 1)
            else Failed(r, r.parser.(errno := InvalidHeaderToken))
  {
    hide RunBytes, Step, Token;
    RunBytesSnoc(start, data, p);
    FieldEnd(RunBytes(start, data[..p]), data[p]);
  }

  lemma FieldEnd(r: Run, ch: char)
    requires r.control.Advance? && r.parser.state.HeaderField? && IsOpen(r.open, Field) && Token(ch) == '\0'
    ensures Step(r, ch) ==
      if ch == ':'
      then r.(parser := r.parser.(state := HeaderValueDiscardWs), open := None, skipping := false,
              headerBytes := r.headerBytes + 1, events := r.events + [Data(Field, r.open.value.bytes)],
              consumed := r.consumed + 1)
      else Failed(r, r.parser.(errno := InvalidHeaderToken))
  {
    hide Token;
  }

  /** What one value byte does, where the loop still looks at the bytes. */
  lemma ValueByteStep(start: Run, data: string, p: nat)
    requires RunOk(start) && p < |data| && data[p] != CR && data[p] != LF && IsHeaderChar(data[p])
    requires RunBytes(start, data[..p]).control.Advance? && RunBytes(start, data[..p]).parser.state.HeaderValue?
    ensures var r, r' := RunBytes(start, data[..p]), RunBytes(start, data[..p + 1]);
      var q := ValueByte(r.parser, data[p]);
      && q == r.parser.(index := q.index, headerState := q.headerState, flags := q.flags, errno := q.errno,
                        contentLength := q.contentLength)
      && if q.errno.Ok? then r' == Moved(r, q, r.parser.headerState.General?, data[p])
         else q.errno.InvalidContentLength? && r' == Failed(r, q)
  {
    hide RunBytes, Step, ValueByte, IsHeaderChar, OpenOk, CountOk;
    var r := RunBytes(start, data[..p]);
    RunAt(start, data, p);
    RunBytesSnoc(start, data, p);
    ValueStep(r, data[p]);
    ValueByteKeeps(r.parser, data[p]);
  }

  lemma BadValueByte(start: Run, data: string, p: nat)
    requires p < |data| && data[p] != CR && data[p] != LF && !IsHeaderChar(data[p])
    requires var r := RunBytes(start, data[..p]); r.control.Advance? && r.parser.state.HeaderValue? && !r.skipping
    ensures var r := RunBytes(start, data[..p]);
      RunBytes(start, data[..p + 1]) == Failed(r, r.parser.(errno := InvalidHeaderToken))
  {
    hide RunBytes, IsHeaderChar, ValueByte;
    RunBytesSnoc(start, data, p);
  }

  /** The search passes the bytes from `p` to `q` at once. */
  lemma SkipTo(start: Run, data: string, p: nat, q: nat)
    requires p < q <= |data| && NoLineEnd(data[p..q]) && IsHeaderChar(data[p])
    requires var r := RunBytes(start, data[..p]);
      r.control.Advance? && r.parser.state.HeaderValue? && r.parser.headerState.General? && r.open.Some?
    ensures var r := RunBytes(start, data[..p]);
      RunBytes(start, data[..q]) ==
      r.(open := ExtendBy(r.open, data[p..q]), skipping := true, headerBytes := r.headerBytes + (q - p),
         consumed := r.consumed + (q - p))
  {
    hide RunBytes, IsHeaderChar, NoLineEnd;
    assert data[..q] == data[..p] + data[p..q];
    RunBytesAppend(start, data[..p], data[p..q]);
    SkipSteps(RunBytes(start, data[..p]), data[p..q]);
  }

  lemma SkipToLast(start: Run, data: string, p: nat, q: nat)
    requires p < q <= |data| && NoLineEnd(data[p..q]) && IsHeaderChar(data[p])
    requires var r := RunBytes(start, data[..p]);
      r.control.Advance? && r.parser.state.HeaderValue? && r.parser.headerState.General? && r.open.Some?
    ensures RunBytes(start, data[..q - 1]).parser == RunBytes(start, data[..p]).parser
  {
    hide RunBytes, IsHeaderChar;
    if p < q - 1 {
      assert data[p..q][..q - 1 - p] == data[p..q - 1];
      SkipTo(start, data, p, q - 1);
    }
  }

  /** The run after a value's last byte, with the line end counted but, for LF, not taken. */
  function ValueDone(r: Run): Run
    requires r.open.Some?
  {
    r.(parser := r.parser.(state := HeaderAlmostDone), open := None, skipping := false,
       headerBytes := r.headerBytes + 1, events := r.events + [Data(Value, r.open.value.bytes)])
  }

  lemma ValueEnd(r: Run)
    requires r.control.Advance? && r.parser.state.HeaderValue? && IsOpen(r.open, Value)
    ensures Step(r, CR) == ValueDone(r).(consumed := r.consumed + 1)
    ensures Step(r, LF) == Settle(ValueDone(r), LF)
  {
    hide ValueByte, IsHeaderChar;
  }

  lemma ValueEndStep(start: Run, data: string, p: nat)
    requires p < |data| && (data[p] == CR || data[p] == LF)
    requires var r := RunBytes(start, data[..p]);
      r.control.Advance? && r.parser.state.HeaderValue? && IsOpen(r.open, Value)
    ensures var r, r' := RunBytes(start, data[..p]), RunBytes(start, data[..p + 1]);
      r' == if data[p] == CR then ValueDone(r).(consumed := r.consumed + 1) else Settle(ValueDone(r), LF)
  {
    hide RunBytes, Step, Settle;
    RunBytesSnoc(start, data, p);
    ValueEnd(RunBytes(start, data[..p]));
  }

  /** Where the switch stands at `p`, the byte counted but not yet taken. */
  ghost predicate Stands(r: Run, start: Run, data: string, p: nat, marks: Marks, events: seq<Event>) {
    && p < |data| && Matches(r, p, marks, events, data) && !r.skipping
    && Settle(r, data[p]) == RunBytes(start, data[..p + 1])
  }

  lemma ValueDoneStands(start: Run, data: string, p: nat, marks: Marks, events: seq<Event>)
    requires RunOk(start) && p < |data| && data[p] == LF
    requires var r := RunBytes(start, data[..p]); r.parser.state.HeaderValue? && Matches(r, p, marks, events, data)
    ensures var r := RunBytes(start, data[..p]);
      && IsOpen(r.open, Value) && Value in marks && marks[Value] <= p && r.open.value.bytes == data[marks[Value]..p]
      && Stands(ValueDone(r), start, data, p, marks - {Value}, events + [Data(Value, data[marks[Value]..p])])
  {
    hide RunBytes, Settle;
    ValueEndStep(start, data, p);
  }

  lemma ValueDoneMatches(start: Run, data: string, p: nat, marks: Marks, events: seq<Event>)
    requires RunOk(start) && p < |data| && data[p] == CR
    requires var r := RunBytes(start, data[..p]); r.parser.state.HeaderValue? && Matches(r, p, marks, events, data)
    ensures var r, r' := RunBytes(start, data[..p]), RunBytes(start, data[..p + 1]);
      && IsOpen(r.open, Value) && Value in marks && marks[Value] <= p
      && Matches(r', p + 1, marks - {Value}, events + [Data(Value, data[marks[Value]..p])], data)
      && r'.parser == r.parser.(state := HeaderAlmostDone) && r'.headerBytes == r.headerBytes + 1
      && r'.reset == r.reset && !r'.skipping
    ensures Extra(start, data, p + 1) == 0
  {
    hide RunBytes, Settle;
    ValueEndStep(start, data, p);
  }

  lemma FieldDoneMatches(start: Run, data: string, p: nat, marks: Marks, events: seq<Event>)
    requires RunOk(start) && p < |data| && Token(data[p]) == '\0'
    requires var r := RunBytes(start, data[..p]); r.parser.state.HeaderField? && Matches(r, p, marks, events, data)
    ensures var r, r' := RunBytes(start, data[..p]), RunBytes(start, data[..p + 1]);
      && IsOpen(r.open, Field) && Field in marks && marks[Field] <= p
      && if data[p] == ':'
         then
           && Matches(r', p + 1, marks - {Field}, events + [Data(Field, data[marks[Field]..p])], data)
           && r'.parser == r.parser.(state := HeaderValueDiscardWs) && r'.headerBytes == r.headerBytes + 1
           && r'.reset == r.reset && !r'.skipping
         else r' == Failed(r, r.parser.(errno := InvalidHeaderToken))
  {
    hide RunBytes, Token;
    FieldEndStep(start, data, p);
    RunAt(start, data, p + 1);
  }

  /** The run on a longer piece of the buffer, step by step from the shorter one. */
  lemma RunBytesSlice(start: Run, data: string, p: nat, q: nat)
    requires p <= q <= |data|
    ensures RunBytes(start, data[..q]) == RunBytes(RunBytes(start, data[..p]), data[p..q])
  {
    hide RunBytes;
    assert data[..q] == data[..p] + data[p..q];
    RunBytesAppend(start, data[..p], data[p..q]);
  }

  /** The mark after MARK(body). */
  function BodyMarks(marks: Marks, p: nat): Marks { if Body in marks then marks else marks[Body := p] }

  lemma BodyMarksOk(marks: Marks, open: Option<Datum>, data: string, p: nat, q: nat)
    requires MarksOk(marks, open, data, p) && p <= q <= |data|
    requires open.Some? ==> IsOpen(open, Body)
    ensures MarksOk(BodyMarks(marks, p), ExtendBy(MarkOpen(open, Body), data[p..q]), data, q)
  {
    MarksOkExtend(BodyMarks(marks, p), MarkOpen(open, Body), data, p, q);
  }

  /** Body bytes to the end of the buffer, with more to come. */
  lemma BodyToEnd(start: Run, data: string, p: nat, marks: Marks, events: seq<Event>)
    requires RunOk(start) && p < |data|
    requires var r := RunBytes(start, data[..p]);
      && !r.skipping && Matches(r, p, marks, events, data)
      && (((r.parser.state.BodyIdentity? || r.parser.state.ChunkData?) && |data| - p < r.parser.contentLength)
          || r.parser.state.BodyIdentityEof?)
    ensures var r, t := RunBytes(start, data[..p]), RunBytes(start, data[..|data|]);
      && t.parser == (if r.parser.state.BodyIdentityEof? then r.parser
                      else r.parser.(contentLength := r.parser.contentLength - (|data| - p)))
      && Matches(t, |data|, BodyMarks(marks, p), events, data) && t.headerBytes == r.headerBytes && t.reset == r.reset
    ensures Extra(start, data, |data|) == 0
  {
    hide RunBytes, MarksOk;
    var r := RunBytes(start, data[..p]);
    RunBytesSlice(start, data, p, |data|);
    RunAt(start, data, |data|);
    BodyMarksOk(marks, r.open, data, p, |data|);
    if r.parser.state.BodyIdentityEof? {
      EofSteps(r, data[p..|data|]);
    } else {
      BodySteps(r, data[p..|data|]);
    }
  }

  /** A chunk's bytes to its last one. */
  lemma ChunkToItsEnd(start: Run, data: string, p: nat, q: nat, marks: Marks, events: seq<Event>)
    requires RunOk(start) && p < q <= |data|
    requires var r := RunBytes(start, data[..p]);
      && !r.skipping && Matches(r, p, marks, events, data)
      && r.parser.state.ChunkData? && q - p == r.parser.contentLength
    ensures var r, t := RunBytes(start, data[..p]), RunBytes(start, data[..q]);
      && t.parser == r.parser.(contentLength := 0, state := ChunkDataAlmostDone)
      && Matches(t, q, BodyMarks(marks, p), events, data) && t.headerBytes == r.headerBytes && t.reset == r.reset
      && !t.skipping
    ensures Extra(start, data, q) == 0
  {
    hide RunBytes, MarksOk;
    var r := RunBytes(start, data[..p]);
    RunBytesSlice(start, data, p, q);
    RunAt(start, data, q);
    BodyMarksOk(marks, r.open, data, p, q);
    WholeChunkSteps(r, data[p..q]);
  }

  /** The last byte of a counted body: it is delivered, and the switch is entered again. */
  lemma LastBodyByte(r: Run, ch: char)
    requires r.control.Advance? && r.parser.state.BodyIdentity? && r.parser.contentLength == 1
    ensures var r1 := r.(parser := r.parser.(contentLength := 0, state := MessageDone), open := None, skipping := false,
                         events := r.events + [Data(Body, MarkOpen(r.open, Body).value.bytes + [ch])]);
      Step(r, ch) == Settle(r1, ch)
  {
  }

  lemma BodyBeforeLast(start: Run, data: string, p: nat, q: nat)
    requires p <= q < |data|
    requires var r := RunBytes(start, data[..p]);
      && !r.skipping && r.control.Advance? && (r.open.Some? ==> IsOpen(r.open, Body))
      && r.parser.state.BodyIdentity? && q + 1 - p == r.parser.contentLength
    ensures var r, t := RunBytes(start, data[..p]), RunBytes(start, data[..q]);
      && t == r.(parser := r.parser.(contentLength := 1), open := t.open, consumed := r.consumed + (q - p))
      && MarkOpen(t.open, Body) == ExtendBy(MarkOpen(r.open, Body), data[p..q])
  {
    hide RunBytes;
    var r := RunBytes(start, data[..p]);
    RunBytesSlice(start, data, p, q);
    ExtendByOne(MarkOpen(r.open, Body), [data[q]]);
    if p < q {
      BodySteps(r, data[p..q]);
    } else {
      assert data[p..q] == "";
      RunBytesNone(r);
    }
  }

  /** The run where the last byte of a counted body, at `q`, has been delivered. */
  function BodyDelivered(r: Run, q: nat, bytes: string): Run {
    r.(parser := r.parser.(contentLength := 0, state := MessageDone), open := None, skipping := false,
       events := r.events + [Data(Body, bytes)], consumed := q)
  }

  lemma BodyMarkBytes(marks: Marks, open: Option<Datum>, data: string, p: nat, q: nat)
    requires MarksOk(marks, open, data, p) && p <= q < |data| && (open.Some? ==> IsOpen(open, Body))
    ensures var m := BodyMarks(marks, p);
      m[Body] <= q && data[m[Body]..q + 1] == ExtendBy(MarkOpen(open, Body), data[p..q]).value.bytes + [data[q]]
  {
    BodyMarksOk(marks, open, data, p, q);
    var m := BodyMarks(marks, p);
    assert data[m[Body]..q + 1] == data[m[Body]..q] + [data[q]];
  }

  lemma OpenIsBody(r: Run)
    requires OpenOk(r.parser.state, r.open) && IsDataBodyState(r.parser.state)
    ensures r.open.Some? ==> IsOpen(r.open, Body)
  {
  }

  lemma DeliveredMatches(r: Run, data: string, p: nat, q: nat, marks: Marks, events: seq<Event>, bytes: string)
    requires Matches(r, p, marks, events, data) && r.parser.state.BodyIdentity? && p <= q < |data|
    ensures Matches(BodyDelivered(r, q, bytes), q, BodyMarks(marks, p) - {Body}, events + [Data(Body, bytes)], data)
  {
    hide MethodString;
  }

  /** A counted body to its last byte, at `q`. */
  lemma BodyToItsEnd(start: Run, data: string, p: nat, q: nat, marks: Marks, events: seq<Event>)
    requires RunOk(start) && p <= q < |data|
    requires var r := RunBytes(start, data[..p]);
      && !r.skipping && Matches(r, p, marks, events, data)
      && r.parser.state.BodyIdentity? && q + 1 - p == r.parser.contentLength
    ensures var m := BodyMarks(marks, p);
      && m[Body] <= q
      && var r1 := BodyDelivered(RunBytes(start, data[..p]), q, data[m[Body]..q + 1]);
         Stands(r1, start, data, q, m - {Body}, events + [Data(Body, data[m[Body]..q + 1])])
    ensures RunBytes(start, data[..q]).parser.state.BodyIdentity?
  {
    hide RunBytes, Step, Settle, Inv, OpenOk, RunOk, MarksOk;
    var r, m := RunBytes(start, data[..p]), BodyMarks(marks, p);
    assert r.open.Some? ==> IsOpen(r.open, Body) by { OpenIsBody(r); }
    BodyMarkBytes(marks, r.open, data, p, q);
    BodyBeforeLast(start, data, p, q);
    DeliveredMatches(r, data, p, q, marks, events, data[m[Body]..q + 1]);
    LastBodyByte(RunBytes(start, data[..q]), data[q]);
    RunBytesSnoc(start, data, q);
  }

  predicate IsChunkState(s: State) {
    s.ChunkSizeStart? || s.ChunkSize? || s.ChunkParameters? || s.ChunkSizeAlmostDone?
    || s.ChunkData? || s.ChunkDataAlmostDone? || s.ChunkDataDone?
  }

  /** The assertions of the C code, and the internal error after the switch, are never reached:
      a chunk is read with the chunked flag set and its size from a fresh header count, a body
      has a length that is neither 0 nor unknown, a finished chunk has length 0, and inside a
      value the recogniser is past the name. */
  lemma AssertionsHold(p: Parser)
    requires Inv(p)
    ensures IsChunkState(p.state) ==> p.flags.chunked
    ensures p.state.BodyIdentity? || p.state.ChunkData? ==> p.contentLength != 0 && p.contentLength != ABSENT
    ensures p.state.ChunkDataAlmostDone? ==> p.contentLength == 0
    ensures p.state.HeaderValue? ==> !p.headerState.Connection? && !p.headerState.TransferEncoding?
    ensures p.state.HeaderField? ==> NameState(p.headerState, p.index)
    ensures p.errno.Ok? && p.index < 128
  {
    hide MethodString;
  }

  /** A byte that is taken on its own is not one that a loop over a name or a value goes on with. */
  predicate TakenAlone(before: State, now: State) {
    !before.HeaderField? && (before.HeaderValue? ==> now.HeaderAlmostDone?)
  }

  lemma NoExtra(before: State, p: Parser, ch: char)
    requires TakenAlone(before, p.state)
    ensures var o := Transition(p, false, ch);
      && (o.control.Reexecute? ==> TakenAlone(before, o.parser.state))
      && (o.control.Advance? ==> !Overcounts(before, o.parser.state))
  {
    hide TransValueStart, FinishHeader;
  }

  /** One pass of the switch over a byte that is taken on its own. */
  lemma PassStands(r: Run, start: Run, data: string, p: nat, marks: Marks, events: seq<Event>)
    requires Stands(r, start, data, p, marks, events) && RunOk(start) && !r.parser.state.HeaderValue?
    ensures var o := Transition(r.parser, false, data[p]);
      var r1, t := Settled(r, data[p]), RunBytes(start, data[..p + 1]);
      && Keeps(r.parser, r.open, o) && !o.skipping && OpFits(o.op, r.open)
      && match o.control
         case Advance => t == r1.(open := Extend(r1.open, data[p]), consumed := p + 1) && t.control.Advance?
         case Reexecute => Settle(r1, data[p]) == t && !IsBlockState(r1.parser.state)
         case Exit => t == r1.(consumed := p + 1) && t.control.Exit?
         case Fail => t == r1 && t.control.Fail? && !o.parser.errno.Ok? && !o.parser.errno.HeaderOverflow?
  {
    hide RunBytes, Settle, Transition, Keeps, Inv, OpenOk, OpFits;
    TransitionKeeps(r.parser, r.open, false, data[p]);
    SettleUnfold(r, data[p]);
    KeepsFits(r.parser, r.open, Transition(r.parser, false, data[p]));
  }

  lemma KeepsFits(p: Parser, open: Option<Datum>, o: Outcome)
    requires Keeps(p, open, o) && Inv(p)
    ensures OpFits(o.op, open) && p.errno.Ok?
    ensures o.control.Fail? <==> !o.parser.errno.Ok?
  {
    hide OpFits, StateOk, OpenOk;
  }

  function InitialParser(t: MessageType): (p: Parser)
    ensures Inv(p) && CountOk(p, 0)
  {
    Parser(t, NO_FLAGS, if t.Request? then StartReq else if t.Response? then StartRes else StartReqOrRes,
           General, 0, 0, 0, 0, 0, DELETE, Ok, false)
  }

  /** A call with no bytes: the end of the input. */
  function AtEof(p: Parser): (r: (Parser, nat, seq<Event>)) {
    if p.state.BodyIdentityEof? then (p, 0, [MessageEnd(p)])
    else if p.state.Dead? || p.state.StartReqOrRes? || p.state.StartRes? || p.state.StartReq? then (p, 0, [])
    else (p.(errno := InvalidEofState), 1, [])
  }

  lemma BeginMatches(p: Parser, count: nat, data: string)
    requires Inv(p) && CountOk(p, count)
    ensures RunOk(Begin(p, count)) && RunBytes(Begin(p, count), data[..0]) == Begin(p, count)
    ensures Matches(Begin(p, count), 0, StartMarks(p.state), [], data)
  {
    hide StateOk;
    assert data[..0] == "";
    RunBytesNone(Begin(p, count));
    StartMarksOk(p, count, data);
    BeginOk(p, count);
  }

  /** The byte at `p` after it has been counted. */
  lemma CountedStands(start: Run, data: string, p: nat, marks: Marks, events: seq<Event>)
    requires p < |data|
    requires var r := RunBytes(start, data[..p]); Matches(r, p, marks, events, data) && !r.skipping
    ensures Stands(Count(RunBytes(start, data[..p])), start, data, p, marks, events)
  {
    hide RunBytes, Settle, Inv, OpenOk, MarksOk;
    RunBytesSnoc(start, data, p);
  }

  /** A run that has stopped on the byte at `p` is the run on the whole buffer. */
  lemma StoppedAt(start: Run, data: string, p: nat)
    requires p < |data| && !RunBytes(start, data[..p + 1]).control.Advance?
    ensures RunBytes(start, data) == RunBytes(start, data[..p + 1])
  {
    hide RunBytes;
    RunBytesSlice(start, data, p + 1, |data|);
    RunBytesStopped(RunBytes(start, data[..p + 1]), data[p + 1..]);
    assert data[..|data|] == data;
    assert data[p + 1..|data|] == data[p + 1..];
  }

  /** The C struct, with the loop as its methods. */
  class PushParser {
    var kind: MessageType
    var flags: Flags
    var state: State
    var headerState: HeaderState
    var index: nat
    var nread: nat
    var contentLength: int
    var httpMajor: int
    var httpMinor: int
    var statusCode: int
    var verb: Method
    var errno: Errno
    var upgrade: bool

    function View(): Parser
      reads this
    {
      Parser(kind, flags, state, headerState, index, contentLength, httpMajor, httpMinor, statusCode,
             verb, errno, upgrade)
    }

    ghost predicate Valid()
      reads this
    {
      nread < TWO32 && (errno.Ok? ==> Inv(View()) && CountOk(View(), nread) && nread <= MAX_HEADER_SIZE)
    }

    /** http_parser_init. */
    constructor (t: MessageType)
      ensures Valid() && View() == InitialParser(t) && nread == 0
    {
      kind, flags, headerState, index, nread := t, NO_FLAGS, General, 0, 0;
      state := InitialParser(t).state;
      contentLength, httpMajor, httpMinor, statusCode := 0, 0, 0, 0;
      verb, errno, upgrade := DELETE, Ok, false;
    }

    /** http_parser_init, on a parser that is used again. */
    method Init(t: MessageType)
      modifies this
      ensures Valid() && View() == InitialParser(t) && nread == 0
    {
      hide InitialParser, StateOk;
      Load(InitialParser(t));
      nread := 0;
    }

    method Load(p: Parser)
      modifies this
      ensures View() == p && nread == old(nread)
    {
      kind, flags, state, headerState, index := p.kind, p.flags, p.state, p.headerState, p.index;
      contentLength, httpMajor, httpMinor := p.contentLength, p.httpMajor, p.httpMinor;
      statusCode, verb, errno, upgrade := p.statusCode, p.verb, p.errno, p.upgrade;
    }

    /** COUNT_HEADER_SIZE on the 32-bit counter. */
    method CountHeaderSize(n: nat) returns (ok: bool)
      requires errno.Ok?
      modifies this`nread, this`errno
      ensures nread == (old(nread) + n) % TWO32
      ensures ok <==> nread <= MAX_HEADER_SIZE
      ensures errno == if ok then Ok else HeaderOverflow
    {
      nread := (nread + n) % TWO32;
      ok := nread <= MAX_HEADER_SIZE;
      if !ok {
        errno := HeaderOverflow;
      }
    }

    /** How the switch lets go of a byte at `p`, said by the run that has taken it. */
    ghost predicate LetsGo(start: Run, data: string, lag: nat, p: nat, marks: Marks, events: seq<Event>, verdict: Control)
      reads this
    {
      && nread < TWO32
      && if verdict.Fail? && errno.HeaderOverflow? then p <= |data| && Exceeds(start, data, lag) else
      p < |data| &&
      var t := RunBytes(start, data[..p + 1]);
      match verdict
      case Fail =>
        !errno.Ok? && t.control.Fail? && t.parser.errno == errno && t.events == events && t.consumed == p
      case Exit =>
        && t.control.Exit? && View() == t.parser && t.events == events && t.consumed == p + 1
        && Counted(nread, t, lag, 0) && CountOk(View(), nread) && Within(start, data, lag, p + 1)
      case Advance =>
        && View() == t.parser && Matches(t, p + 1, marks, events, data)
        && Counted(nread, t, lag, Extra(start, data, p + 1)) && Within(start, data, lag, p + 1)
        && CountOk(View(), nread) && (p + 1 < |data| ==> !t.skipping)
      case Reexecute => false
    }

    /** The loop over name bytes inside s_header_field. */
    method ScanName(data: string, p: nat, marks: Marks, events: seq<Event>, ghost start: Run) returns (q: nat)
      requires p < |data| && RunOk(start) && state.HeaderField? && errno.Ok?
      requires var r := RunBytes(start, data[..p]);
        !r.skipping && View() == r.parser && Matches(r, p, marks, events, data)
      modifies this
      ensures nread == old(nread) && p <= q <= |data|
      ensures errno.Ok? ==>
        var r := RunBytes(start, data[..q]);
        && state.HeaderField? && !r.skipping && View() == r.parser && Matches(r, q, marks, events, data)
        && Scanned(start, data, p, q)
        && (q < |data| ==> Token(data[q]) == '\0')
      ensures !errno.Ok? ==>
        && errno.UnexpectedContentLength? && q < |data|
        && var t := RunBytes(start, data[..q + 1]);
           t.control.Fail? && t.parser.errno == errno && t.events == events && t.consumed == q
    {
      hide RunBytes, NameByte, Token, StateOk, MarksOk, Scanned;
      q := p;
      ghost var r := RunBytes(start, data[..p]);
      ScannedNone(start, data, p);
      while q < |data| && Token(data[q]) != '\0'
        invariant p <= q <= |data|
        invariant r == RunBytes(start, data[..q]) && !r.skipping
        invariant state.HeaderField? && errno.Ok? && nread == old(nread)
        invariant View() == r.parser && Matches(r, q, marks, events, data)
        invariant Scanned(start, data, p, q)
      {
        var next := NameByte(View(), Token(data[q]));
        FieldByteStep(start, data, q);
        RunAt(start, data, q + 1);
        Load(next);
        if !errno.Ok? {
          return;
        }
        MarksOkExtend(marks, r.open, data, q, q + 1);
        ScannedNext(start, data, p, q);
        r := RunBytes(start, data[..q + 1]);
        q := q + 1;
      }
    }

    /** s_header_field: name bytes until one that is not a token. */
    method FieldLoop(data: string, p: nat, marks: Marks, events: seq<Event>, ghost start: Run, ghost lag: nat)
      returns (p': nat, marks': Marks, events': seq<Event>, verdict: Control)
      requires p < |data| < TWO32 - MAX_HEADER_SIZE && RunOk(start) && state.HeaderField? && errno.Ok?
      requires var r := RunBytes(start, data[..p]);
        && !r.skipping && View() == r.parser && Matches(r, p, marks, events, data)
        && Counted(nread, r, lag, 1) && Within(start, data, lag, p + 1)
      modifies this
      ensures LetsGo(start, data, lag, p', marks', events', verdict) && p <= p'
    {
      hide RunBytes, Token, StateOk, MarksOk, OpenOk, Exceeds, Within, Extra;
      marks', events' := marks, events;
      p' := ScanName(data, p, marks, events, start);
      if !errno.Ok? {
        verdict := Fail;
        return;
      }
      ghost var counted := nread;
      var ok := CountHeaderSize(p' - p);
      if !ok {
        ScannedExceeds(start, data, lag, p, p', counted);
        verdict := Fail;
        return;
      }
      ScannedWithin(start, data, lag, p, p', counted);
      if p' == |data| {
        p' := p' - 1;
        verdict := Advance;
      } else {
        marks', events', verdict := FieldStop(data, p', marks', events', start, lag);
      }
    }

    /** The byte after a name: a colon, or an error. */
    method FieldStop(data: string, q: nat, marks: Marks, events: seq<Event>, ghost start: Run, ghost lag: nat)
      returns (marks': Marks, events': seq<Event>, verdict: Control)
      requires q < |data| && Token(data[q]) == '\0' && RunOk(start) && state.HeaderField? && errno.Ok?
      requires Within(start, data, lag, q + 1)
      requires var r := RunBytes(start, data[..q]);
        View() == r.parser && Matches(r, q, marks, events, data) && Counted(nread, r, lag, 1)
      modifies this
      ensures LetsGo(start, data, lag, q, marks', events', verdict)
    {
      hide RunBytes, Token, StateOk, MarksOk, OpenOk;
      FieldDoneMatches(start, data, q, marks, events);
      marks', events' := marks, events;
      if data[q] == ':' {
        state := HeaderValueDiscardWs;
        marks', events' := CallbackData(Field, data, q, marks, events);
        verdict := Advance;
      } else {
        errno := InvalidHeaderToken;
        verdict := Fail;
      }
    }

    /** The search by memchr, at most MAX_HEADER_SIZE bytes ahead. */
    method SearchLineEnd(data: string, q: nat, marks: Marks, events: seq<Event>, ghost start: Run, ghost lag: nat)
      returns (to: nat, ghost over: bool)
      requires q < |data| && RunOk(start) && IsHeaderChar(data[q]) && data[q] != CR && data[q] != LF
      requires var r := RunBytes(start, data[..q]);
        r.parser.state.HeaderValue? && r.parser.headerState.General? && Matches(r, q, marks, events, data)
      ensures q < to <= |data|
      ensures over ==> to == |data| && to - q > MAX_HEADER_SIZE && Exceeds(start, data, lag)
      ensures !over ==>
        var r, r' := RunBytes(start, data[..q]), RunBytes(start, data[..to]);
        && r'.parser == r.parser && Matches(r', to, marks, events, data)
        && Scanned(start, data, q, to)
        && (to < |data| ==> data[to] == CR || data[to] == LF)
    {
      hide RunBytes, IsHeaderChar, NoLineEnd, StateOk, MarksOk;
      var limit := if |data| - q < MAX_HEADER_SIZE then |data| - q else MAX_HEADER_SIZE;
      var cr := MemChr(data, q, limit, CR);
      var lf := MemChr(data, q, limit, LF);
      to := LineEnd(cr, lf, |data|);
      over := cr.None? && lf.None? && limit < |data| - q;
      if over {
        assert NoLineEnd(data[q..q + limit]) by { NoLineEndDef(data[q..q + limit]); }
        SkipTo(start, data, q, q + limit);
        assert ExceedsAt(start, data, lag, q + limit);
      } else {
        NoLineEndBefore(data, q, limit, cr, lf);
        SkipTo(start, data, q, to);
        SkipToLast(start, data, q, to);
        MarksOkExtend(marks, RunBytes(start, data[..q]).open, data, q, to);
      }
    }

    /** The loop over value bytes inside s_header_value; `hState` is its local recogniser state.
        `over` says that the search gave up after MAX_HEADER_SIZE bytes and jumped to the end. */
    method ScanValue(data: string, p: nat, marks: Marks, events: seq<Event>, ghost start: Run, ghost lag: nat)
      returns (q: nat, hState: HeaderState, ghost over: bool)
      requires p < |data| < TWO32 - MAX_HEADER_SIZE && RunOk(start) && state.HeaderValue? && errno.Ok?
      requires var r := RunBytes(start, data[..p]);
        !r.skipping && View() == r.parser && Matches(r, p, marks, events, data)
      modifies this
      ensures nread == old(nread) && p <= q <= |data|
      ensures over ==> errno.Ok? && q == |data| && q - p > MAX_HEADER_SIZE && Exceeds(start, data, lag)
      ensures !over && errno.Ok? ==>
        var r := RunBytes(start, data[..q]);
        && r.parser.state.HeaderValue? && View().(headerState := hState) == r.parser
        && Matches(r, q, marks, events, data)
        && Scanned(start, data, p, q)
        && (q < |data| ==> data[q] == CR || data[q] == LF)
      ensures !errno.Ok? ==>
        && !errno.HeaderOverflow? && q < |data|
        && var t := RunBytes(start, data[..q + 1]);
           t.control.Fail? && t.parser.errno == errno && t.events == events && t.consumed == q
    {
      hide RunBytes, ValueByte, IsHeaderChar, StateOk, MarksOk, OpenOk, CountOk, Scanned, Exceeds;
      ScannedNone(start, data, p);
      q, hState, over := p, headerState, false;
      ghost var r := RunBytes(start, data[..p]);
      while q < |data| && data[q] != CR && data[q] != LF
        invariant p <= q <= |data|
        invariant nread == old(nread) && errno.Ok?
        invariant over ==> q == |data| && q - p > MAX_HEADER_SIZE && Exceeds(start, data, lag)
        invariant !over ==>
          && r == RunBytes(start, data[..q]) && r.parser.state.HeaderValue?
          && View().(headerState := hState) == r.parser && Matches(r, q, marks, events, data)
          && Scanned(start, data, p, q)
          && (r.skipping ==> q == |data| || data[q] == CR || data[q] == LF)
      {
        var ch := data[q];
        if !IsHeaderChar(ch) {
          BadValueByte(start, data, q);
          errno := InvalidHeaderToken;
          return;
        }
        if hState.General? {
          ghost var from := q;
          q, over := SearchLineEnd(data, q, marks, events, start, lag);
          if !over {
            ScannedJoin(start, data, p, from, q);
          }
          r := RunBytes(start, data[..q]);
        } else {
          var next := ValueByte(View().(headerState := hState), ch);
          ValueByteStep(start, data, q);
          RunAt(start, data, q + 1);
          index, flags, contentLength := next.index, next.flags, next.contentLength;
          if !next.errno.Ok? {
            errno, headerState := next.errno, hState;
            return;
          }
          hState := next.headerState;
          MarksOkExtend(marks, r.open, data, q, q + 1);
          ScannedNext(start, data, p, q);
          r := RunBytes(start, data[..q + 1]);
          q := q + 1;
        }
      }
    }

    /** The end of a value at a carriage return. */
    method ValueCr(data: string, p: nat, q: nat, hState: HeaderState, marks: Marks, events: seq<Event>,
                   ghost start: Run, ghost lag: nat)
      returns (marks': Marks, events': seq<Event>, verdict: Control)
      requires p <= q < |data| < TWO32 - MAX_HEADER_SIZE && data[q] == CR && RunOk(start) && errno.Ok?
      requires var r := RunBytes(start, data[..q]);
        && r.parser.state.HeaderValue? && View().(headerState := hState) == r.parser
        && Matches(r, q, marks, events, data)
      requires Scanned(start, data, p, q) && Counted(nread, RunBytes(start, data[..p]), lag, 1) && Within(start, data, lag, p + 1)
      modifies this
      ensures LetsGo(start, data, lag, q, marks', events', verdict)
    {
      hide RunBytes, StateOk, MarksOk, OpenOk, OpFits, Within, Exceeds, Extra, Scanned;
      ValueDoneMatches(start, data, q, marks, events);
      state, headerState := HeaderAlmostDone, hState;
      marks', events' := CallbackData(Value, data, q, marks, events);
      ghost var counted := nread;
      var ok := CountHeaderSize(q - p);
      if !ok {
        ScannedExceeds(start, data, lag, p, q, counted);
        verdict := Fail;
      } else {
        ScannedWithin(start, data, lag, p, q, counted);
        verdict := Advance;
      }
    }

    /** The end of a value at a line feed, which the switch will look at again. */
    method ValueLf(data: string, p: nat, q: nat, hState: HeaderState, marks: Marks, events: seq<Event>,
                   ghost start: Run, ghost lag: nat)
      returns (marks': Marks, events': seq<Event>, verdict: Control)
      requires p <= q < |data| < TWO32 - MAX_HEADER_SIZE && data[q] == LF && RunOk(start) && errno.Ok?
      requires var r := RunBytes(start, data[..q]);
        && r.parser.state.HeaderValue? && View().(headerState := hState) == r.parser
        && Matches(r, q, marks, events, data)
      requires Scanned(start, data, p, q) && Counted(nread, RunBytes(start, data[..p]), lag, 1) && Within(start, data, lag, p + 1)
      modifies this
      ensures verdict == Reexecute || verdict == Fail
      ensures verdict.Fail? ==> LetsGo(start, data, lag, q, marks', events', verdict)
      ensures verdict.Reexecute? ==>
        && state.HeaderAlmostDone?
        && var r := RunBytes(start, data[..q]);
           && r.parser.state.HeaderValue? && r.open.Some? && View() == ValueDone(r).parser && Stands(ValueDone(r), start, data, q, marks', events')
           && Counted(nread, ValueDone(r), lag, 0)
      ensures verdict.Reexecute? ==> Within(start, data, lag, q + 1)
    {
      hide RunBytes, StateOk, MarksOk, CountOk, OpenOk, OpFits, Settle, Within, Exceeds, Extra, Scanned;
      ValueDoneStands(start, data, q, marks, events);
      marks', events' := marks, events;
      state := HeaderAlmostDone;
      ghost var counted := nread;
      var ok := CountHeaderSize(q - p);
      if !ok {
        ScannedExceeds(start, data, lag, p, q, counted);
        verdict := Fail;
      } else {
        ScannedWithin(start, data, lag, p, q, counted);
        headerState := hState;
        marks', events' := CallbackData(Value, data, q, marks, events);
        verdict := Reexecute;
      }
    }

    /** s_header_value: value bytes until the line ends or the buffer does. */
    method ValueLoop(data: string, p: nat, marks: Marks, events: seq<Event>, ghost start: Run, ghost lag: nat)
      returns (p': nat, marks': Marks, events': seq<Event>, verdict: Control)
      requires p < |data| < TWO32 - MAX_HEADER_SIZE && RunOk(start) && state.HeaderValue? && errno.Ok?
      requires var r := RunBytes(start, data[..p]);
        && !r.skipping && View() == r.parser && Matches(r, p, marks, events, data)
        && Counted(nread, r, lag, 1) && Within(start, data, lag, p + 1)
      modifies this
      ensures p <= p'
      ensures !verdict.Reexecute? ==> LetsGo(start, data, lag, p', marks', events', verdict)
      ensures verdict.Reexecute? ==>
        && p' < |data| && data[p'] == LF && state.HeaderAlmostDone?
        && var r := RunBytes(start, data[..p']);
           && r.parser.state.HeaderValue? && r.open.Some? && View() == ValueDone(r).parser && Stands(ValueDone(r), start, data, p', marks', events')
           && Counted(nread, ValueDone(r), lag, 0)
      ensures verdict.Reexecute? ==> Within(start, data, lag, p' + 1)
    {
      hide RunBytes, IsHeaderChar, StateOk, MarksOk, OpenOk, Stands, Within, Exceeds, Extra;
      var hState;
      ghost var over;
      p', hState, over := ScanValue(data, p, marks, events, start, lag);
      marks', events', verdict := marks, events, Fail;
      if !errno.Ok? {
        return;
      }
      if p' < |data| {
        if data[p'] == CR {
          marks', events', verdict := ValueCr(data, p, p', hState, marks, events, start, lag);
        } else {
          marks', events', verdict := ValueLf(data, p, p', hState, marks, events, start, lag);
        }
        return;
      }
      headerState := hState;
      ghost var counted := nread;
      var ok := CountHeaderSize(p' - p);
      if !ok {
        if !over {
          ScannedExceeds(start, data, lag, p, p', counted);
        }
        return;
      }
      ScannedWithin(start, data, lag, p, p', counted);
      p', verdict := p' - 1, Advance;
    }

    /** s_body_identity: take all the bytes there are, up to the length.  A body that ends goes
        through the switch again. */
    method JumpIdentity(data: string, p: nat, marks: Marks, events: seq<Event>, ghost start: Run, ghost lag: nat)
      returns (p': nat, marks': Marks, events': seq<Event>, verdict: Control)
      requires p < |data| && RunOk(start) && errno.Ok? && state.BodyIdentity?
      requires var r := RunBytes(start, data[..p]);
        && !r.skipping && View() == r.parser && Matches(r, p, marks, events, data) && Counted(nread, r, lag, 0)
      requires Within(start, data, lag, p + 1)
      modifies this
      ensures p <= p' < |data|
      ensures !verdict.Reexecute? ==> LetsGo(start, data, lag, p', marks', events', verdict)
      ensures verdict.Reexecute? ==>
        var r, m := RunBytes(start, data[..p]), BodyMarks(marks, p);
        && state.MessageDone? && m[Body] <= p'
        && var r1 := BodyDelivered(r, p', data[m[Body]..p' + 1]);
           && View() == r1.parser && Stands(r1, start, data, p', marks', events')
           && Counted(nread, r1, lag, 0)
      ensures verdict.Reexecute? ==> Within(start, data, lag, p' + 1) && RunBytes(start, data[..p']).parser.state.BodyIdentity?
    {
      hide RunBytes, StateOk, MarksOk, OpenOk, Stands, Settle, Within, Extra;
      AssertionsHold(View());
      assert contentLength != 0 && contentLength != ABSENT;
      events' := events;
      marks' := SetMark(Body, p, marks);
      var toRead := if contentLength < |data| - p then contentLength else |data| - p;
      contentLength := contentLength - toRead;
      p', verdict := p + toRead - 1, Advance;
      BodyWithin(start, data, lag, p, p');
      if contentLength > 0 {
        BodyToEnd(start, data, p, marks, events);
      } else {
        BodyToItsEnd(start, data, p, p', marks, events);
        state := MessageDone;
        marks', events' := CallbackData(Body, data, p' + 1, marks', events');
        verdict := Reexecute;
      }
    }

    /** s_chunk_data: take all the bytes there are, up to the end of the chunk. */
    method JumpChunk(data: string, p: nat, marks: Marks, events: seq<Event>, ghost start: Run, ghost lag: nat)
      returns (p': nat, marks': Marks)
      requires p < |data| && RunOk(start) && errno.Ok? && state.ChunkData?
      requires var r := RunBytes(start, data[..p]);
        && !r.skipping && View() == r.parser && Matches(r, p, marks, events, data) && Counted(nread, r, lag, 0)
      requires Within(start, data, lag, p + 1)
      modifies this
      ensures p <= p' && LetsGo(start, data, lag, p', marks', events, Advance)
    {
      hide RunBytes, StateOk, MarksOk, OpenOk, Stands, Settle, Within, Extra;
      AssertionsHold(View());
      assert flags.chunked && contentLength != 0 && contentLength != ABSENT;
      marks' := SetMark(Body, p, marks);
      var toRead := if contentLength < |data| - p then contentLength else |data| - p;
      contentLength := contentLength - toRead;
      p' := p + toRead - 1;
      BodyWithin(start, data, lag, p, p');
      if contentLength == 0 {
        ChunkToItsEnd(start, data, p, p' + 1, marks, events);
        state := ChunkDataAlmostDone;
      } else {
        BodyToEnd(start, data, p, marks, events);
      }
    }

    /** s_body_identity_eof: take the whole buffer. */
    method JumpEof(data: string, p: nat, marks: Marks, events: seq<Event>, ghost start: Run, ghost lag: nat)
      returns (p': nat, marks': Marks)
      requires p < |data| && RunOk(start) && errno.Ok? && state.BodyIdentityEof?
      requires var r := RunBytes(start, data[..p]);
        && !r.skipping && View() == r.parser && Matches(r, p, marks, events, data) && Counted(nread, r, lag, 0)
      requires Within(start, data, lag, p + 1)
      ensures p <= p' && LetsGo(start, data, lag, p', marks', events, Advance)
    {
      hide RunBytes, StateOk, MarksOk, OpenOk, Stands, Settle, Within, Extra;
      BodyToEnd(start, data, p, marks, events);
      BodyWithin(start, data, lag, p, |data| - 1);
      marks' := SetMark(Body, p, marks);
      p' := |data| - 1;
    }

    /** The switch and its re-execution, for bytes taken one by one. */
    method PassLoop(data: string, p: nat, marks: Marks, events: seq<Event>, ghost r0: Run, ghost start: Run, ghost lag: nat)
      returns (marks': Marks, events': seq<Event>, verdict: Control)
      requires RunOk(start) && !IsBlockState(state)
      requires Stands(r0, start, data, p, marks, events) && View() == r0.parser
      requires TakenAlone(RunBytes(start, data[..p]).parser.state, state)
      requires Counted(nread, r0, lag, 0) && Within(start, data, lag, p + 1) && (state.ChunkSizeStart? ==> nread == 1)
      modifies this
      ensures LetsGo(start, data, lag, p, marks', events', verdict)
    {
      hide RunBytes, Settle, Transition, StateOk, OpenOk, OpFits, MarksOk, EventsOf, OpenAfter, Within, Exceeds, TakenAlone;
      ghost var r := r0;
      marks', events' := marks, events;
      var ch := data[p];
      while true
        invariant !IsBlockState(state)
        invariant Stands(r, start, data, p, marks', events') && View() == r.parser
        invariant TakenAlone(RunBytes(start, data[..p]).parser.state, state)
        invariant Counted(nread, r, lag, 0) && (state.ChunkSizeStart? ==> nread == 1)
        decreases Rank(state)
      {
        AssertionsHold(View());
        assert state.ChunkSizeStart? ==> nread == 1;
        assert IsChunkState(state) ==> flags.chunked;
        PassStands(r, start, data, p, marks', events');
        RunAt(start, data, p + 1);
        NoExtra(RunBytes(start, data[..p]).parser.state, View(), ch);
        var o := Transition(View(), false, ch);
        if ResetsCount(state) && !o.control.Fail? {
          nread := 0;
        }
        Load(o.parser);
        ghost var r1 := Settled(r, ch);
        marks', events' := Expand(o.op, data, p, marks', events', r.open);
        match o.control {
          case Reexecute =>
            r := r1;
          case Advance =>
            MarksOkExtend(marks', r1.open, data, p, p + 1);
            verdict := Advance;
            return;
          case _ =>
            verdict := o.control;
            return;
        }
      }
    }

    /** The switch for the byte at `p`, which has been counted: one case of it takes many bytes,
        the others pass on to the re-execution loop. */
    method Switch(data: string, p: nat, marks: Marks, events: seq<Event>, ghost start: Run, ghost lag: nat)
      returns (p': nat, marks': Marks, events': seq<Event>, verdict: Control)
      requires p < |data| < TWO32 - MAX_HEADER_SIZE && RunOk(start) && errno.Ok?
      requires var r := RunBytes(start, data[..p]);
        && !r.skipping && View() == r.parser && Matches(r, p, marks, events, data)
        && Counted(nread, Count(r), lag, 0) && Within(start, data, lag, p + 1) && (state.ChunkSizeStart? ==> nread == 1)
      modifies this
      ensures p <= p' && LetsGo(start, data, lag, p', marks', events', verdict)
    {
      hide RunBytes, Settle, StateOk, OpenOk, MarksOk, Stands;
      ghost var r := RunBytes(start, data[..p]);
      if state.HeaderField? {
        p', marks', events', verdict := FieldLoop(data, p, marks, events, start, lag);
        return;
      }
      p', marks', events' := p, marks, events;
      if state.HeaderValue? {
        p', marks', events', verdict := ValueLoop(data, p, marks, events, start, lag);
        if !verdict.Reexecute? {
          return;
        }
        r := ValueDone(RunBytes(start, data[..p']));
      } else if state.ChunkData? {
        verdict := Advance;
        p', marks' := JumpChunk(data, p, marks, events, start, lag);
        return;
      } else if state.BodyIdentityEof? {
        verdict := Advance;
        p', marks' := JumpEof(data, p, marks, events, start, lag);
        return;
      } else if state.BodyIdentity? {
        p', marks', events', verdict := JumpIdentity(data, p, marks, events, start, lag);
        if !verdict.Reexecute? {
          return;
        }
        r := BodyDelivered(r, p', data[BodyMarks(marks, p)[Body]..p' + 1]);
      } else {
        CountedStands(start, data, p, marks, events);
        r := Count(r);
      }
      marks', events', verdict := PassLoop(data, p', marks', events', r, start, lag);
    }

    /** http_parser_execute with callbacks that return 0; `events` are the callbacks in order.
        `count` is the number of header bytes there really were so far, at most `nread`. */
    method Execute(data: string, ghost count: nat) returns (consumed: nat, events: seq<Event>)
      requires Valid() && |data| < TWO32 - MAX_HEADER_SIZE && count <= nread
      modifies this
      ensures Valid()
      ensures !old(errno).Ok? ==> View() == old(View()) && nread == old(nread) && consumed == 0 && events == []
      ensures old(errno).Ok? && data == "" ==>
        (View(), consumed, events) == AtEof(old(View())) && nread == old(nread)
      ensures old(errno).Ok? && data != "" && !errno.HeaderOverflow? ==>
        var c := Call(old(View()), count, data);
        && errno == c.parser.errno && consumed == c.consumed && events == c.events
        && (errno.Ok? ==>
              && View() == c.parser
              && nread == c.headerBytes + AheadAfter(old(View()), count, data, old(nread) - count)
              && !Exceeds(Begin(old(View()), count), data, old(nread) - count))
      ensures old(errno).Ok? && data != "" && errno.HeaderOverflow? ==>
        Exceeds(Begin(old(View()), count), data, old(nread) - count)
    {
      events := [];
      if !errno.Ok? {
        return 0, events;
      }
      if data == "" {
        if state.BodyIdentityEof? {
          return 0, [MessageComplete(verb, statusCode)];
        } else if state.Dead? || state.StartReqOrRes? || state.StartRes? || state.StartReq? {
          return 0, [];
        } else {
          errno := InvalidEofState;
          return 1, [];
        }
      }
      consumed, events := ExecuteBytes(data, count);
    }

    method ExecuteBytes(data: string, ghost count: nat) returns (consumed: nat, events: seq<Event>)
      requires Valid() && errno.Ok? && 0 < |data| < TWO32 - MAX_HEADER_SIZE && count <= nread
      modifies this
      ensures Valid()
      ensures !errno.HeaderOverflow? ==>
        var c := Call(old(View()), count, data);
        && errno == c.parser.errno && consumed == c.consumed && events == c.events
        && (errno.Ok? ==>
              && View() == c.parser
              && nread == c.headerBytes + AheadAfter(old(View()), count, data, old(nread) - count)
              && !Exceeds(Begin(old(View()), count), data, old(nread) - count))
      ensures errno.HeaderOverflow? ==> Exceeds(Begin(old(View()), count), data, old(nread) - count)
    {
      hide RunBytes, StateOk, OpenOk, MarksOk, OpenAtStart;
      ghost var start, lag := Begin(View(), count), nread - count;
      BeginMatches(View(), count, data);
      events := [];
      var marks := StartMarks(state);
      var p := 0;
      while p < |data|
        invariant p <= |data| && errno.Ok?
        invariant var r := RunBytes(start, data[..p]);
          && View() == r.parser && Matches(r, p, marks, events, data) && (p < |data| ==> !r.skipping)
          && Counted(nread, r, lag, Extra(start, data, p)) && CountOk(View(), nread)
        invariant Within(start, data, lag, p)
      {
        if ParsingHeader(state) {
          var ok := CountHeaderSize(1);
          if !ok {
            assert ExceedsAt(start, data, lag, p);
            return p, events;
          }
        }
        WithinNext(start, data, lag, p);
        var verdict;
        p, marks, events, verdict := Switch(data, p, marks, events, start, lag);
        if verdict.Fail? {
          if !errno.HeaderOverflow? {
            StoppedAt(start, data, p);
          }
          return p, events;
        }
        if verdict.Exit? {
          StoppedAt(start, data, p);
          RunAt(start, data, p + 1);
          WithinStopped(start, data, lag, p);
          ExitExtra(start, data, p);
          return p + 1, events;
        }
        p := p + 1;
      }
      assert data[..|data|] == data;
      events := Leftover(data, marks, events, RunBytes(start, data));
      WithinAll(start, data, lag, nread);
      consumed := |data|;
    }

    /** The callbacks for the mark that is left over; there is at most one. */
    method Leftover(data: string, marks: Marks, events: seq<Event>, ghost r: Run) returns (events': seq<Event>)
      requires MarksOk(marks, r.open, data, |data|)
      ensures events' == events + FlushOpen(r.open)
    {
      assert events + [] == events;
      assert |marks| <= 1;
      assert forall k: DataKind :: k in marks <==> r.open.Some? && k == r.open.value.kind;
      if r.open.Some? {
        assert data[marks[r.open.value.kind]..|data|] == r.open.value.bytes;
      }
      var rest := marks;
      events' := events;
      rest, events' := CallbackData(Field, data, |data|, rest, events');
      rest, events' := CallbackData(Value, data, |data|, rest, events');
      rest, events' := CallbackData(Url, data, |data|, rest, events');
      rest, events' := CallbackData(Body, data, |data|, rest, events');
      rest, events' := CallbackData(Status, data, |data|, rest, events');
    }
  }
}
