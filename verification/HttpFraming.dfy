/** How a body is framed: the two length fields, bodies of known length, and chunked bodies
    (RFC 7230, sections 3.3.3 and 4.1). */
module HttpFraming {
  import opened Options
  import opened HttpTypes
  import opened HttpMachine
  import opened HttpRun
  import opened HttpInvariant
  import opened HttpBlocks
  import opened HttpSplit

  // ---- Where a run can be cut -------------------------------------------------------------

  /** `Quiet`, for a run that is already under way. */
  ghost predicate QuietFrom(r: Run, data: string) {
    forall i: nat | i < |data| ::
      var s := RunBytes(r, data[..i]); !s.control.Exit? && (s.control.Advance? && s.skipping ==> IsHeaderChar(data[i]))
  }

  lemma QuietFromAppend(r: Run, a: string, b: string)
    requires QuietFrom(r, a) && QuietFrom(RunBytes(r, a), b)
    ensures QuietFrom(r, a + b)
  {
    hide RunBytes, IsHeaderChar;
    forall i: nat | i < |a + b|
      ensures var s := RunBytes(r, (a + b)[..i]);
        !s.control.Exit? && (s.control.Advance? && s.skipping ==> IsHeaderChar((a + b)[i]))
    {
      if i < |a| {
        assert (a + b)[..i] == a[..i];
      } else {
        var j := i - |a|;
        assert (a + b)[..i] == a + b[..j] && (a + b)[i] == b[j];
        RunBytesAppend(r, a, b[..j]);
      }
    }
  }

  /** Text of header characters that is read to its end can be cut anywhere. */
  lemma QuietText(r: Run, text: string)
    requires r.control.Advance? && AllHeaderChars(text)
    requires RunBytes(r, text).consumed == r.consumed + |text|
    ensures QuietFrom(r, text)
  {
    hide RunBytes, IsHeaderChar;
    forall i: nat | i < |text|
      ensures !RunBytes(r, text[..i]).control.Exit?
    {
      RunBytesConsumed(r, text[..i]);
      if RunBytes(r, text[..i]).control.Exit? {
        assert text == text[..i] + text[i..];
        RunBytesAppend(r, text[..i], text[i..]);
        RunBytesStopped(RunBytes(r, text[..i]), text[i..]);
      }
    }
  }

  /** So can the bytes of a body, whatever they are. */
  lemma QuietBlock(r: Run, block: string)
    requires r.control.Advance? && !r.skipping && (IsOpen(r.open, Body) || r.open.None?)
    requires r.parser.state.BodyIdentity? || r.parser.state.ChunkData?
    requires |block| <= r.parser.contentLength
    ensures QuietFrom(r, block)
  {
    hide IsHeaderChar;
    forall i: nat | i < |block|
      ensures RunBytes(r, block[..i]).control.Advance? && !RunBytes(r, block[..i]).skipping
    {
      if i > 0 {
        BodySteps(r, block[..i]);
      } else {
        assert block[..i] == "";
      }
    }
  }

  lemma QuietFromQuiet(p: Parser, count: nat, data: string)
    requires QuietFrom(Begin(p, count), data)
    ensures Quiet(p, count, data)
  {
    hide RunBytes, Begin, IsHeaderChar;
  }

  // ---- What a log of callbacks says, however the stream was cut -------------------------------

  /** The bytes of one kind of data, joined. */
  function Joined(events: seq<Event>, kind: DataKind): string {
    if events == [] then ""
    else
      var e := events[|events| - 1];
      Joined(events[..|events| - 1], kind) + (if e.Data? && e.kind == kind then e.bytes else "")
  }

  /** The callbacks without data, in order. */
  function Notices(events: seq<Event>): seq<Event> {
    if events == [] then []
    else
      var e := events[|events| - 1];
      Notices(events[..|events| - 1]) + (if e.Data? then [] else [e])
  }

  function BytesOf(e: Event, kind: DataKind): string { if e.Data? && e.kind == kind then e.bytes else "" }

  function NoticeOf(e: Event): seq<Event> { if e.Data? then [] else [e] }

  lemma JoinedSnoc(events: seq<Event>, e: Event, kind: DataKind)
    ensures Joined(events + [e], kind) == Joined(events, kind) + BytesOf(e, kind)
    ensures Notices(events + [e]) == Notices(events) + NoticeOf(e)
  {
    assert (events + [e])[..|events|] == events;
  }

  lemma JoinedNone(kind: DataKind)
    ensures Joined([], kind) == "" && Notices([]) == []
  {
  }

  lemma {:induction false} JoinedAppend(a: seq<Event>, b: seq<Event>, kind: DataKind)
    ensures Joined(a + b, kind) == Joined(a, kind) + Joined(b, kind)
    ensures Notices(a + b) == Notices(a) + Notices(b)
    decreases |b|
  {
    hide *;
    if b == [] {
      JoinedNone(kind);
      assert a + b == a;
      assert Joined(a, kind) + "" == Joined(a, kind) && Notices(a) + [] == Notices(a);
    } else {
      var b0, e := b[..|b| - 1], b[|b| - 1];
      JoinedAppend(a, b0, kind);
      JoinedLast(a, b0, e, kind);
      assert b == b0 + [e] && a + b == a + b0 + [e];
    }
  }

  lemma JoinedLast(a: seq<Event>, b: seq<Event>, e: Event, kind: DataKind)
    requires Joined(a + b, kind) == Joined(a, kind) + Joined(b, kind) && Notices(a + b) == Notices(a) + Notices(b)
    ensures Joined(a + b + [e], kind) == Joined(a, kind) + Joined(b + [e], kind)
    ensures Notices(a + b + [e]) == Notices(a) + Notices(b + [e])
  {
    hide *;
    JoinedSnoc(b, e, kind);
    JoinedSnoc(a + b, e, kind);
    TextsGrouped(Joined(a, kind), Joined(b, kind), BytesOf(e, kind));
    NoticesGrouped(Notices(a), Notices(b), NoticeOf(e));
  }

  lemma TextsGrouped(a: string, b: string, c: string)
    ensures a + b + c == a + (b + c)
  {
  }

  lemma NoticesGrouped(a: seq<Event>, b: seq<Event>, c: seq<Event>)
    ensures a + b + c == a + (b + c)
  {
  }

  lemma JoinedOne(e: Event, kind: DataKind)
    ensures Joined([e], kind) == if e.Data? && e.kind == kind then e.bytes else ""
    ensures Notices([e]) == if e.Data? then [] else [e]
  {
    assert [e][..0] == [];
  }

  lemma PushKeeps(log: seq<Event>, e: Event, kind: DataKind)
    ensures Joined(Push(log, e), kind) == Joined(log, kind) + Joined([e], kind)
    ensures Notices(Push(log, e)) == Notices(log) + Notices([e])
  {
    hide Joined, Notices;
    if log != [] && e.Data? && log[|log| - 1].Data? && log[|log| - 1].kind == e.kind {
      var n := |log| - 1;
      var before, last := log[..n], log[n];
      var joined := Data(e.kind, last.bytes + e.bytes);
      assert log == before + [last];
      JoinedAppend(before, [last], kind);
      JoinedAppend(before, [joined], kind);
      JoinedOne(last, kind);
      JoinedOne(e, kind);
      JoinedOne(joined, kind);
      assert Joined(before, kind) + (last.bytes + e.bytes) == Joined(before, kind) + last.bytes + e.bytes;
    } else {
      JoinedAppend(log, [e], kind);
    }
  }

  /** Joining adjacent data callbacks loses nothing. */
  lemma {:induction false} CoalesceKeeps(events: seq<Event>, kind: DataKind)
    ensures Joined(Coalesce(events), kind) == Joined(events, kind)
    ensures Notices(Coalesce(events)) == Notices(events)
  {
    if events != [] {
      var n := |events| - 1;
      CoalesceKeeps(events[..n], kind);
      PushKeeps(Coalesce(events[..n]), events[n], kind);
      JoinedAppend(events[..n], [events[n]], kind);
      assert events == events[..n] + [events[n]];
    }
  }

  // ---- Chunk sizes ----------------------------------------------------------------------------

  predicate IsHex(s: string) { s != "" && forall i | 0 <= i < |s| :: Unhex(s[i]) != -1 }

  function HexValue(s: string): nat
    requires forall i | 0 <= i < |s| :: Unhex(s[i]) != -1
  {
    if s == "" then 0 else HexValue(s[..|s| - 1]) * 16 + Unhex(s[|s| - 1])
  }

  /** The run where a chunk size can begin. */
  predicate AtChunk(r: Run) {
    && r.control.Advance? && r.parser.state.ChunkSizeStart? && r.open.None? && !r.skipping && r.parser.errno.Ok?
    && r.parser.flags.chunked && !r.parser.flags.trailing && r.headerBytes == 0
  }

  lemma FirstSizeByte(r: Run, ch: char)
    requires AtChunk(r) && Unhex(ch) != -1
    ensures Step(r, ch) == Moved(r, r.parser.(contentLength := Unhex(ch), state := ChunkSize), false, ch)
  {
    hide Unhex;
  }

  lemma SizeByte(r: Run, ch: char)
    requires r.control.Advance? && r.parser.state.ChunkSize? && Unhex(ch) != -1 && r.parser.contentLength >= 0
    ensures Step(r, ch) ==
      if (ABSENT - 16) / 16 < r.parser.contentLength then Failed(r, r.parser.(errno := InvalidContentLength))
      else Moved(r, r.parser.(contentLength := r.parser.contentLength * 16 + Unhex(ch)), false, ch)
  {
    hide Unhex;
    CrIsNoDigit();
    assert r.parser.contentLength <= (ABSENT - 16) / 16 ==> r.parser.contentLength * 16 + Unhex(ch) < TWO64;
  }

  lemma CrIsNoDigit()
    ensures Unhex(CR) == -1
  {
  }

  /** A chunk size is read as its exact value, and is accepted exactly up to 2^64 - 17: no value
      wraps, and none is taken for the marker of an absent length. */
  lemma {:induction false} ChunkSizeExact(r: Run, hex: string)
    requires AtChunk(r) && IsHex(hex)
    ensures var r' := RunBytes(r, hex);
      if HexValue(hex) <= MAX_CHUNK then
        r' == r.(parser := r.parser.(contentLength := HexValue(hex), state := ChunkSize),
                 headerBytes := |hex|, consumed := r.consumed + |hex|)
      else r'.control.Fail? && r'.parser.errno == InvalidContentLength
  {
    hide *;
    var n := |hex| - 1;
    HexNotEmpty(hex);
    var before, ch := hex[..n], hex[n];
    assert hex == before + [ch];
    HexParts(before, ch);
    if n == 0 {
      assert before == "" && hex == [ch];
      RunBytesOne(r, ch);
      FirstSizeByte(r, ch);
      FirstSize(r, ch);
    } else {
      ChunkSizeExact(r, before);
      assert hex[..n + 1] == hex;
      RunBytesSnoc(r, hex, n);
      NextSize(r, RunBytes(r, before), before, ch);
    }
  }

  lemma HexNotEmpty(hex: string)
    requires IsHex(hex)
    ensures hex != ""
  {
  }

  lemma HexParts(before: string, ch: char)
    requires IsHex(before + [ch])
    ensures Unhex(ch) != -1 && 0 <= Unhex(ch) <= 15
    ensures if before == "" then HexValue(before + [ch]) == Unhex(ch)
            else IsHex(before) && HexValue(before + [ch]) == HexValue(before) * 16 + Unhex(ch)
  {
    hide Unhex;
    var hex := before + [ch];
    assert hex[..|before|] == before && hex[|before|] == ch;
    UnhexSmall(ch);
    forall i | 0 <= i < |before|
      ensures Unhex(before[i]) != -1
    {
      assert hex[i] == before[i];
    }
  }

  lemma FirstSize(r: Run, ch: char)
    requires AtChunk(r) && 0 <= Unhex(ch) <= 15
    ensures Unhex(ch) <= MAX_CHUNK
    ensures Moved(r, r.parser.(contentLength := Unhex(ch), state := ChunkSize), false, ch)
         == r.(parser := r.parser.(contentLength := Unhex(ch), state := ChunkSize), headerBytes := 1, consumed := r.consumed + 1)
  {
    hide Unhex;
  }

  /** One digit more. */
  lemma NextSize(r: Run, r0: Run, before: string, ch: char)
    requires AtChunk(r) && IsHex(before) && 0 <= Unhex(ch) <= 15
    requires if HexValue(before) <= MAX_CHUNK then
        r0 == r.(parser := r.parser.(contentLength := HexValue(before), state := ChunkSize),
                 headerBytes := |before|, consumed := r.consumed + |before|)
      else r0.control.Fail? && r0.parser.errno == InvalidContentLength
    ensures var value, r' := HexValue(before) * 16 + Unhex(ch), Step(r0, ch);
      if value <= MAX_CHUNK then
        r' == r.(parser := r.parser.(contentLength := value, state := ChunkSize),
                 headerBytes := |before| + 1, consumed := r.consumed + (|before| + 1))
      else r'.control.Fail? && r'.parser.errno == InvalidContentLength
  {
    hide Step, Unhex, HexValue;
    if HexValue(before) <= MAX_CHUNK {
      SizeByte(r0, ch);
    } else {
      StoppedStep(r0, ch);
    }
  }

  lemma StoppedStep(r: Run, ch: char)
    requires r.control.Fail?
    ensures Step(r, ch) == r
  {
  }

  lemma UnhexSmall(ch: char)
    ensures Unhex(ch) == -1 || 0 <= Unhex(ch) <= 15
  {
  }

  lemma SizeLineEnd(r: Run)
    requires r.control.Advance? && r.parser.state.ChunkSize? && r.open.None? && !r.skipping
    requires r.parser.contentLength >= 0
    ensures RunBytes(r, "\r\n") ==
      r.(parser := if r.parser.contentLength == 0
                   then r.parser.(flags := r.parser.flags.(trailing := true), state := HeaderFieldStart)
                   else r.parser.(state := ChunkData),
         headerBytes := 0, reset := true, events := r.events + [ChunkHeader(r.parser.contentLength)],
         consumed := r.consumed + 2)
  {
    hide Step;
    TwoBytes(r, CR, LF);
    SizeCr(r);
    SizeLf(Step(r, CR));
  }

  lemma SizeCr(r: Run)
    requires r.control.Advance? && r.parser.state.ChunkSize?
    ensures Step(r, CR) == Moved(r, r.parser.(state := ChunkSizeAlmostDone), false, CR)
  {
    hide Unhex;
    CrIsNoDigit();
  }

  lemma SizeLf(r: Run)
    requires r.control.Advance? && r.parser.state.ChunkSizeAlmostDone? && r.open.None?
    ensures Step(r, LF) ==
      r.(parser := if r.parser.contentLength == 0
                   then r.parser.(flags := r.parser.flags.(trailing := true), state := HeaderFieldStart)
                   else r.parser.(state := ChunkData),
         headerBytes := 0, reset := true, skipping := false, events := r.events + [ChunkHeader(r.parser.contentLength)],
         consumed := r.consumed + 1)
  {
  }

  lemma TwoBytes(r: Run, a: char, b: char)
    ensures RunBytes(r, [a, b]) == Step(Step(r, a), b)
  {
    hide Step;
    assert [a, b] == [a] + [b];
    RunBytesAppend(r, [a], [b]);
    RunBytesOne(r, a);
    RunBytesOne(Step(r, a), b);
  }

  // ---- One chunk --------------------------------------------------------------------------------

  datatype Chunk = Chunk(size: string, data: string)

  predicate ChunkOk(c: Chunk) { IsHex(c.size) && c.data != "" && HexValue(c.size) == |c.data| <= MAX_CHUNK }

  function ChunkText(c: Chunk): string { c.size + "\r\n" + c.data + "\r\n" }

  function ChunkEvents(c: Chunk): seq<Event> { [ChunkHeader(|c.data|), Data(Body, c.data), ChunkComplete] }

  lemma DataLineEnd(r: Run, data: string)
    requires r.control.Advance? && r.parser.state.ChunkDataAlmostDone? && r.open == Some(Datum(Body, data)) && !r.skipping
    ensures RunBytes(r, "\r\n") ==
      r.(parser := r.parser.(state := ChunkSizeStart), open := None, headerBytes := 0, reset := true,
         events := r.events + [Data(Body, data), ChunkComplete], consumed := r.consumed + 2)
  {
    hide Step;
    TwoBytes(r, CR, LF);
    DataCr(r, data);
    DataLf(Step(r, CR));
    assert r.events + [Data(Body, data)] + [ChunkComplete] == r.events + [Data(Body, data), ChunkComplete];
  }

  lemma DataCr(r: Run, data: string)
    requires r.control.Advance? && r.parser.state.ChunkDataAlmostDone? && r.open == Some(Datum(Body, data)) && !r.skipping
    ensures Step(r, CR) ==
      r.(parser := r.parser.(state := ChunkDataDone), open := None, events := r.events + [Data(Body, data)], consumed := r.consumed + 1)
  {
  }

  lemma DataLf(r: Run)
    requires r.control.Advance? && r.parser.state.ChunkDataDone? && r.open.None? && !r.skipping
    ensures Step(r, LF) ==
      r.(parser := r.parser.(state := ChunkSizeStart), headerBytes := 0, reset := true, events := r.events + [ChunkComplete],
         consumed := r.consumed + 1)
  {
  }

  /** A chunk is announced, delivered whole and closed, and leaves the parser ready for the next.
      It can be cut anywhere. */
  lemma ChunkSteps(r: Run, c: Chunk)
    requires AtChunk(r) && ChunkOk(c)
    ensures RunBytes(r, ChunkText(c)) ==
      r.(parser := r.parser.(contentLength := 0), reset := true, events := r.events + ChunkEvents(c),
         consumed := r.consumed + |ChunkText(c)|)
    ensures QuietFrom(r, ChunkText(c))
  {
    hide RunBytes, QuietFrom, HexValue, IsHex, AllHeaderChars;
    var n := |c.data|;
    ChunkSizeExact(r, c.size);
    var r1 := RunBytes(r, c.size);
    SizeLineEnd(r1);
    var r2 := RunBytes(r1, "\r\n");
    WholeChunkSteps(r2, c.data);
    assert "" + c.data == c.data;
    var r3 := RunBytes(r2, c.data);
    DataLineEnd(r3, c.data);
    RunBytesAppend(r, c.size, "\r\n");
    RunBytesAppend(r, c.size + "\r\n", c.data);
    RunBytesAppend(r, c.size + "\r\n" + c.data, "\r\n");
    assert r.events + [ChunkHeader(n)] + [Data(Body, c.data), ChunkComplete] == r.events + ChunkEvents(c);
    HexIsText(c.size);
    QuietText(r, c.size);
    LineEndIsText();
    QuietText(r1, "\r\n");
    QuietBlock(r2, c.data);
    QuietText(r3, "\r\n");
    QuietFromAppend(r, c.size, "\r\n");
    QuietFromAppend(r, c.size + "\r\n", c.data);
    QuietFromAppend(r, c.size + "\r\n" + c.data, "\r\n");
  }

  lemma HexIsText(s: string)
    requires IsHex(s)
    ensures AllHeaderChars(s)
  {
    assert forall i | 0 <= i < |s| :: Unhex(s[i]) != -1;
  }

  lemma LineEndIsText()
    ensures AllHeaderChars("\r\n")
  {
  }

  // ---- A chunked body ---------------------------------------------------------------------------

  function ChunkTexts(chunks: seq<Chunk>): string {
    if chunks == [] then "" else ChunkTexts(chunks[..|chunks| - 1]) + ChunkText(chunks[|chunks| - 1])
  }

  function AllChunkEvents(chunks: seq<Chunk>): seq<Event> {
    if chunks == [] then [] else AllChunkEvents(chunks[..|chunks| - 1]) + ChunkEvents(chunks[|chunks| - 1])
  }

  function Payload(chunks: seq<Chunk>): string {
    if chunks == [] then "" else Payload(chunks[..|chunks| - 1]) + chunks[|chunks| - 1].data
  }

  lemma {:induction false} ChunksSteps(r: Run, chunks: seq<Chunk>)
    requires AtChunk(r) && forall i | 0 <= i < |chunks| :: ChunkOk(chunks[i])
    ensures var r' := RunBytes(r, ChunkTexts(chunks));
      && r' == r.(parser := r.parser.(contentLength := r'.parser.contentLength), reset := r'.reset,
                  events := r.events + AllChunkEvents(chunks), consumed := r.consumed + |ChunkTexts(chunks)|)
    ensures QuietFrom(r, ChunkTexts(chunks))
  {
    hide RunBytes, ChunkText, ChunkEvents, ChunkOk;
    if chunks == [] {
      RunBytesNone(r);
      assert r.events + [] == r.events;
    } else {
      var n := |chunks| - 1;
      var before := chunks[..n];
      ChunksSteps(r, before);
      ChunkSteps(RunBytes(r, ChunkTexts(before)), chunks[n]);
      RunBytesAppend(r, ChunkTexts(before), ChunkText(chunks[n]));
      assert r.events + AllChunkEvents(before) + ChunkEvents(chunks[n]) == r.events + AllChunkEvents(chunks);
      QuietFromAppend(r, ChunkTexts(before), ChunkText(chunks[n]));
    }
  }

  /** The closing chunk without its last byte. */
  lemma LastChunkSteps(r: Run, zero: string)
    requires AtChunk(r) && IsHex(zero) && HexValue(zero) == 0
    ensures RunBytes(r, zero + "\r\n\r") ==
      r.(parser := r.parser.(contentLength := 0, flags := r.parser.flags.(trailing := true), state := HeadersAlmostDone),
         headerBytes := 1, reset := true, events := r.events + [ChunkHeader(0)], consumed := r.consumed + |zero| + 3)
    ensures QuietFrom(r, zero + "\r\n\r")
  {
    hide RunBytes, HexValue, IsHex, Step, QuietFrom, AllHeaderChars;
    ChunkSizeExact(r, zero);
    var r1 := RunBytes(r, zero);
    SizeLineEnd(r1);
    var r2 := RunBytes(r1, "\r\n");
    RunBytesOne(r2, CR);
    TrailerStart(r2);
    assert zero + "\r\n\r" == zero + "\r\n" + [CR];
    RunBytesAppend(r, zero, "\r\n");
    RunBytesAppend(r, zero + "\r\n", [CR]);
    HexIsText(zero);
    TextAppend(zero, "\r\n\r");
    QuietText(r, zero + "\r\n\r");
  }

  lemma TrailerStart(r: Run)
    requires r.control.Advance? && r.parser.state.HeaderFieldStart? && r.open.None? && !r.skipping
    ensures Step(r, CR) == Moved(r, r.parser.(state := HeadersAlmostDone), false, CR)
  {
    hide NameByte;
  }

  lemma TextAppend(a: string, b: string)
    requires AllHeaderChars(a) && forall i | 0 <= i < |b| :: b[i] == CR || b[i] == LF
    ensures AllHeaderChars(a + b)
  {
  }

  /** What stands after a message is complete, on its last byte. */
  predicate Completed(before: Run, after: Run) {
    && after.parser.state == NewMessage(before.parser) && after.open.None? && after.consumed == before.consumed + 1
    && after.parser.errno.Ok? && (after.control.Advance? || after.control.Exit?)
    && (before.parser.upgrade <==> after.control.Exit?)
    && after.parser.verb == before.parser.verb && after.parser.statusCode == before.parser.statusCode
  }

  lemma TrailerEnd(r: Run)
    requires r.control.Advance? && r.parser.state.HeadersAlmostDone? && r.parser.flags.trailing && r.open.None?
    requires r.parser.errno.Ok?
    ensures var r' := Step(r, LF);
      Completed(r, r') && r'.events == r.events + [ChunkComplete, MessageComplete(r.parser.verb, r.parser.statusCode)]
  {
    hide NewMessage, Step, Transition;
    var q := r.parser.(state := MessageDone);
    TrailerPasses(r.parser, r.skipping);
    TwoPasses(r, LF, q, ChunkComplete, Complete(q, if q.upgrade then Exit else Advance));
    KeepAliveIgnoresState(r.parser);
    assert r.events + [ChunkComplete] + [MessageComplete(r.parser.verb, r.parser.statusCode)]
        == r.events + [ChunkComplete, MessageComplete(r.parser.verb, r.parser.statusCode)];
  }

  /** A byte that is looked at twice, with a notice first and perhaps another one then. */
  lemma TwoPasses(r: Run, ch: char, q: Parser, e: Event, o: Outcome)
    requires r.control.Advance? && r.open.None? && ParsingHeader(r.parser.state) && !ResetsCount(r.parser.state)
    requires Transition(r.parser, r.skipping, ch) == Outcome(q, false, Notify(e), Reexecute)
    requires Transition(q, false, ch) == o && !o.skipping && (o.op.Nothing? || o.op.Notify?) && (o.control.Advance? || o.control.Exit?)
    ensures Step(r, ch) ==
      r.(parser := o.parser, headerBytes := if ResetsCount(q.state) then 0 else r.headerBytes + 1, open := None, skipping := false,
         reset := r.reset || ResetsCount(q.state), events := r.events + [e] + (if o.op.Notify? then [o.op.event] else []),
         control := o.control, consumed := r.consumed + 1)
  {
    hide Transition, Settle;
    var r1 := Settled(Count(r), ch);
    SettleUnfold(Count(r), ch);
    SettleUnfold(r1, ch);
  }

  lemma TrailerPasses(p: Parser, skipping: bool)
    requires p.state.HeadersAlmostDone? && p.flags.trailing
    ensures var q := p.(state := MessageDone);
      && Transition(p, skipping, LF) == Outcome(q, false, Notify(ChunkComplete), Reexecute)
      && Transition(q, false, LF) == Complete(q, if q.upgrade then Exit else Advance)
  {
    hide NewMessage;
  }

  lemma KeepAliveIgnoresState(p: Parser)
    ensures NewMessage(p.(state := MessageDone)) == NewMessage(p)
  {
  }

  function ChunkedText(chunks: seq<Chunk>, zero: string): string { ChunkTexts(chunks) + (zero + "\r\n\r") + [LF] }

  /** Up to its last byte a chunked body delivers the chunks, in order and whole, and announces the
      closing one; the last byte, and no other, completes the message. */
  lemma ChunkedBody(r: Run, chunks: seq<Chunk>, zero: string)
    requires AtChunk(r) && (forall i | 0 <= i < |chunks| :: ChunkOk(chunks[i])) && IsHex(zero) && HexValue(zero) == 0
    ensures var text := ChunkedText(chunks, zero);
      var last, end := RunBytes(r, text[..|text| - 1]), RunBytes(r, text);
      && last.control.Advance? && last.events == r.events + AllChunkEvents(chunks) + [ChunkHeader(0)]
      && end.events == last.events + [ChunkComplete, MessageComplete(r.parser.verb, r.parser.statusCode)]
      && Completed(last, end) && end.consumed == r.consumed + |text|
      && (end.control.Exit? <==> r.parser.upgrade)
      && QuietFrom(r, text)
  {
    hide RunBytes, HexValue, IsHex, ChunkOk, QuietFrom, NewMessage, Step;
    var text := ChunkedText(chunks, zero);
    ChunksSteps(r, chunks);
    var r1 := RunBytes(r, ChunkTexts(chunks));
    LastChunkSteps(r1, zero);
    RunBytesAppend(r, ChunkTexts(chunks), zero + "\r\n\r");
    var most := ChunkTexts(chunks) + (zero + "\r\n\r");
    assert text[..|text| - 1] == most;
    RunBytesAppend(r, most, [LF]);
    var last := RunBytes(r, most);
    RunBytesOne(last, LF);
    TrailerEnd(last);
    QuietFromAppend(r, ChunkTexts(chunks), zero + "\r\n\r");
    QuietLast(last, LF);
    QuietFromAppend(r, most, [LF]);
  }

  lemma QuietLast(r: Run, ch: char)
    requires r.control.Advance? && !r.skipping
    ensures QuietFrom(r, [ch])
  {
    assert [ch][..0] == "";
  }

  /** The chunks' data, in order, is all the body that is delivered. */
  lemma {:induction false} ChunkEventsPayload(chunks: seq<Chunk>)
    ensures Joined(AllChunkEvents(chunks), Body) == Payload(chunks)
    ensures forall e | e in AllChunkEvents(chunks) :: !e.MessageComplete?
  {
    if chunks != [] {
      var n := |chunks| - 1;
      ChunkEventsPayload(chunks[..n]);
      JoinedAppend(AllChunkEvents(chunks[..n]), ChunkEvents(chunks[n]), Body);
      OneChunkPayload(chunks[n]);
    }
  }

  lemma OneChunkPayload(c: Chunk)
    ensures Joined(ChunkEvents(c), Body) == c.data
    ensures Notices(ChunkEvents(c)) == [ChunkHeader(|c.data|), ChunkComplete]
  {
    hide Joined, Notices;
    var es := ChunkEvents(c);
    assert es == [es[0]] + ([es[1]] + [es[2]]);
    JoinedAppend([es[0]], [es[1]] + [es[2]], Body);
    JoinedAppend([es[1]], [es[2]], Body);
    JoinedOne(es[0], Body);
    JoinedOne(es[1], Body);
    JoinedOne(es[2], Body);
    assert "" + (c.data + "") == c.data;
  }

  // ---- The end of the headers ---------------------------------------------------------------------

  /** Where the last byte of a header section is read. */
  predicate AtHeadersEnd(r: Run) {
    && r.control.Advance? && r.parser.state.HeadersAlmostDone? && r.open.None? && !r.skipping && r.parser.errno.Ok?
    && !r.parser.flags.trailing && !(r.parser.flags.chunked && r.parser.flags.contentLength) && r.parser.verb != CONNECT
  }

  function UpgradeOf(p: Parser): bool { (p.flags.upgrade && p.flags.connUpgrade) || p.verb == CONNECT }

  /** The run after the headers are announced and a body is to come. */
  function BodyToCome(r: Run, state: State): Run {
    r.(parser := r.parser.(state := state, upgrade := UpgradeOf(r.parser)), headerBytes := 0, reset := true,
       events := r.events + [HeadersComplete], consumed := r.consumed + 1)
  }

  lemma HeadersEnd(r: Run)
    requires AtHeadersEnd(r) && HasBody(r.parser)
    ensures Step(r, LF) == BodyToCome(r, if r.parser.flags.chunked then ChunkSizeStart else BodyIdentity)
  {
    hide Step, Transition, UpgradeOf;
    var q := r.parser.(state := HeadersDone, upgrade := UpgradeOf(r.parser));
    HeadersPasses(r.parser);
    TwoPasses(r, LF, q, HeadersComplete, Next(q, if q.flags.chunked then ChunkSizeStart else BodyIdentity));
    assert r.events + [HeadersComplete] + [] == r.events + [HeadersComplete];
  }

  /** The headers are announced, and then the switch decides on the framing. */
  lemma HeadersPasses(p: Parser)
    requires p.state.HeadersAlmostDone? && !p.flags.trailing && !(p.flags.chunked && p.flags.contentLength) && p.verb != CONNECT
    ensures var q := p.(state := HeadersDone, upgrade := UpgradeOf(p));
      && Transition(p, false, LF) == Outcome(q, false, Notify(HeadersComplete), Reexecute)
      && (HasBody(p) ==> Transition(q, false, LF) == Next(q, if q.flags.chunked then ChunkSizeStart else BodyIdentity))
      && (!p.flags.chunked && p.contentLength == 0 ==> Transition(q, false, LF) == Complete(q, if q.upgrade then Exit else Advance))
  {
    hide NewMessage, MessageNeedsEof;
  }

  /** Without a body the message ends with its headers. */
  lemma HeadersEndNoBody(r: Run)
    requires AtHeadersEnd(r) && !r.parser.flags.chunked && r.parser.contentLength == 0
    ensures var r' := Step(r, LF); var p := r.parser.(upgrade := UpgradeOf(r.parser));
      && r'.events == r.events + [HeadersComplete, MessageComplete(r.parser.verb, r.parser.statusCode)]
      && Completed(r.(parser := p), r')
  {
    hide NewMessage, Step, Transition, UpgradeOf;
    var q := r.parser.(state := HeadersDone, upgrade := UpgradeOf(r.parser));
    HeadersPasses(r.parser);
    TwoPasses(r, LF, q, HeadersComplete, Complete(q, if q.upgrade then Exit else Advance));
    KeepAliveIgnoresThese(r.parser);
    assert r.events + [HeadersComplete] + [MessageComplete(r.parser.verb, r.parser.statusCode)]
        == r.events + [HeadersComplete, MessageComplete(r.parser.verb, r.parser.statusCode)];
  }

  lemma KeepAliveIgnoresThese(p: Parser)
    ensures forall s, u :: NewMessage(p.(state := s, upgrade := u)) == NewMessage(p)
  {
  }

  // ---- A body of known length -----------------------------------------------------------------------

  /** The last byte of a body that has its last byte only to come. */
  lemma LastBodyByte(r: Run, bytes: string, ch: char)
    requires r.control.Advance? && r.parser.state.BodyIdentity? && r.parser.contentLength == 1 && r.parser.errno.Ok?
    requires MarkOpen(r.open, Body) == Some(Datum(Body, bytes)) && !r.skipping
    ensures var r' := Step(r, ch);
      && r'.events == r.events + [Data(Body, bytes + [ch]), MessageComplete(r.parser.verb, r.parser.statusCode)]
      && r'.open.None? && r'.consumed == r.consumed + 1 && r'.parser.errno.Ok?
      && r'.parser.state == NewMessage(r.parser.(contentLength := 0))
      && r'.control == if r.parser.upgrade then Exit else Advance
  {
    hide NewMessage;
    SettleUnfold(r, ch);
    var r1 := Settled(r, ch);
    SettleUnfold(r1, ch);
    KeepAliveIgnoresState(r.parser.(contentLength := 0));
    assert r.events + [Data(Body, bytes + [ch])] + [MessageComplete(r.parser.verb, r.parser.statusCode)]
        == r.events + [Data(Body, bytes + [ch]), MessageComplete(r.parser.verb, r.parser.statusCode)];
  }

  /** A body up to its last byte. */
  lemma LengthBefore(r: Run, data: string)
    requires r.control.Advance? && r.parser.state.BodyIdentity? && r.open.None? && !r.skipping
    requires 0 < |data| == r.parser.contentLength
    ensures var n := |data| - 1;
      var last := RunBytes(r, data[..n]);
      && last == r.(parser := r.parser.(contentLength := 1), open := last.open, consumed := r.consumed + n)
      && MarkOpen(last.open, Body) == Some(Datum(Body, data[..n]))
  {
    hide RunBytes;
    var n := |data| - 1;
    assert "" + data[..n] == data[..n];
    if n > 0 {
      BodySteps(r, data[..n]);
    } else {
      assert data[..n] == "";
      RunBytesNone(r);
    }
  }

  /** A body is delivered whole, and its last byte, and no other, completes the message. */
  lemma LengthBody(r: Run, data: string)
    requires r.control.Advance? && r.parser.state.BodyIdentity? && r.open.None? && !r.skipping && r.parser.errno.Ok?
    requires 0 < |data| == r.parser.contentLength
    ensures var last, end := RunBytes(r, data[..|data| - 1]), RunBytes(r, data);
      && last.control.Advance? && last.events == r.events
      && end.events == r.events + [Data(Body, data), MessageComplete(r.parser.verb, r.parser.statusCode)]
      && end.open.None? && end.consumed == r.consumed + |data| && end.parser.errno.Ok?
      && end.parser.state == NewMessage(r.parser.(contentLength := 0))
      && end.control == (if r.parser.upgrade then Exit else Advance)
    ensures QuietFrom(r, data)
  {
    hide *;
    var n := |data| - 1;
    QuietBlock(r, data) by { NoneOpen(r); }
    LengthBefore(r, data);
    RunBytesSnoc(r, data, n);
    assert data[..n + 1] == data;
    LastBodyByte(RunBytes(r, data[..n]), data[..n], data[n]);
    assert data[..n] + [data[n]] == data;
    KeepAliveSame(RunBytes(r, data[..n]).parser, r.parser);
  }

  lemma NoneOpen(r: Run)
    requires r.open.None?
    ensures IsOpen(r.open, Body) || r.open.None?
  {
  }

  lemma KeepAliveSame(p: Parser, q: Parser)
    requires p == q.(contentLength := p.contentLength)
    ensures NewMessage(p.(contentLength := 0)) == NewMessage(q.(contentLength := 0))
  {
  }

  // ---- Every cut ------------------------------------------------------------------------------------

  /** What the calls deliver, when nothing is left over and nothing failed. */
  predicate Delivers(f: Fed, notices: seq<Event>, payload: string, length: nat) {
    f.parser.errno.Ok? && f.consumed == length && Notices(f.events) == notices && Joined(f.events, Body) == payload
  }

  /** What one buffer delivers, every cut of a quiet stream delivers. */
  lemma EveryCutDelivers(p: Parser, count: nat, data: string, bufs: seq<string>, events: seq<Event>)
    requires Inv(p) && CountOk(p, count) && data != "" && QuietFrom(Begin(p, count), data) && IsCut(bufs, data)
    requires var r := RunBytes(Begin(p, count), data);
      r.parser.errno.Ok? && r.open.None? && r.consumed == |data| && r.events == events
    ensures Delivers(Feed(p, count, bufs), Notices(events), Joined(events, Body), |data|)
  {
    hide RunBytes, Feed, Inv, CountOk, Begin, QuietFrom, IsCut;
    QuietFromQuiet(p, count, data);
    SplitInvariance(p, count, data, bufs);
    InvOk(p);
    FeedOneBuffer(p, count, data);
    assert events + [] == events && [] + events == events;
    CoalesceKeeps(Feed(p, count, bufs).events, Body);
    CoalesceKeeps(events, Body);
  }

  /** The notices of a chunked body. */
  function ChunkNotices(chunks: seq<Chunk>): seq<Event> {
    if chunks == [] then []
    else ChunkNotices(chunks[..|chunks| - 1]) + [ChunkHeader(|chunks[|chunks| - 1].data|), ChunkComplete]
  }

  lemma {:induction false} ChunkEventsNotices(chunks: seq<Chunk>)
    ensures Notices(AllChunkEvents(chunks)) == ChunkNotices(chunks)
  {
    if chunks != [] {
      var n := |chunks| - 1;
      ChunkEventsNotices(chunks[..n]);
      JoinedAppend(AllChunkEvents(chunks[..n]), ChunkEvents(chunks[n]), Body);
      OneChunkPayload(chunks[n]);
    }
  }

  lemma BeginEnd(p: Parser, count: nat)
    requires p.state.HeadersAlmostDone?
    ensures Begin(p, count) == Run(p, count, None, false, [], Advance, 0, false)
  {
  }

  /** Chunked framing, for every list of chunks, every way of writing their sizes and every cut:
      the body delivered is the chunks' data in order, each chunk is announced and closed, and
      the message is complete once, on the last byte. */
  lemma ChunkedMessage(p: Parser, count: nat, chunks: seq<Chunk>, zero: string, bufs: seq<string>)
    requires Inv(p) && AtHeadersEnd(Begin(p, count)) && p.flags.chunked
    requires (forall i | 0 <= i < |chunks| :: ChunkOk(chunks[i])) && IsHex(zero) && HexValue(zero) == 0
    requires IsCut(bufs, [LF] + ChunkedText(chunks, zero))
    ensures Delivers(Feed(p, count, bufs),
      [HeadersComplete] + ChunkNotices(chunks) + [ChunkHeader(0), ChunkComplete, MessageComplete(p.verb, p.statusCode)],
      Payload(chunks), 1 + |ChunkedText(chunks, zero)|)
  {
    hide RunBytes, Feed, Inv, ChunkOk, IsHex, HexValue, QuietFrom, IsCut, ChunkedText, Step, ChunkTexts, NewMessage;
    var text := ChunkedText(chunks, zero);
    var start := Begin(p, count);
    BeginEnd(p, count);
    RunBytesOne(start, LF);
    HeadersEnd(start);
    var r := RunBytes(start, [LF]);
    QuietLast(start, LF);
    ChunkedBody(r, chunks, zero);
    RunBytesAppend(start, [LF], text);
    QuietFromAppend(start, [LF], text);
    var es := [HeadersComplete] + AllChunkEvents(chunks) + ([ChunkHeader(0)] + [ChunkComplete] + [MessageComplete(p.verb, p.statusCode)]);
    assert RunBytes(start, [LF] + text).events == es;
    assert CountOk(p, count);
    EveryCutDelivers(p, count, [LF] + text, bufs, es);
    ChunkedLog(chunks, p.verb, p.statusCode);
  }

  lemma ChunkedLog(chunks: seq<Chunk>, verb: Method, statusCode: int)
    ensures var end := [ChunkHeader(0)] + [ChunkComplete] + [MessageComplete(verb, statusCode)];
      var es := [HeadersComplete] + AllChunkEvents(chunks) + end;
      && Notices(es) == [HeadersComplete] + ChunkNotices(chunks) + [ChunkHeader(0), ChunkComplete, MessageComplete(verb, statusCode)]
      && Joined(es, Body) == Payload(chunks)
  {
    hide Notices, Joined, AllChunkEvents;
    var end := [ChunkHeader(0)] + [ChunkComplete] + [MessageComplete(verb, statusCode)];
    JoinedAppend([HeadersComplete] + AllChunkEvents(chunks), end, Body);
    JoinedAppend([HeadersComplete], AllChunkEvents(chunks), Body);
    JoinedAppend([ChunkHeader(0)] + [ChunkComplete], [MessageComplete(verb, statusCode)], Body);
    JoinedAppend([ChunkHeader(0)], [ChunkComplete], Body);
    JoinedOne(HeadersComplete, Body);
    JoinedOne(ChunkHeader(0), Body);
    JoinedOne(ChunkComplete, Body);
    JoinedOne(MessageComplete(verb, statusCode), Body);
    ChunkEventsNotices(chunks);
    ChunkEventsPayload(chunks);
    assert "" + Payload(chunks) + ("" + "" + "") == Payload(chunks);
  }

  /** Framing by length, for every body and every cut. */
  lemma LengthMessage(p: Parser, count: nat, data: string, bufs: seq<string>)
    requires Inv(p) && AtHeadersEnd(Begin(p, count)) && !p.flags.chunked && 0 < |data| == p.contentLength != ABSENT
    requires IsCut(bufs, [LF] + data)
    ensures Delivers(Feed(p, count, bufs), [HeadersComplete, MessageComplete(p.verb, p.statusCode)], data, 1 + |data|)
  {
    hide RunBytes, Feed, Inv, QuietFrom, IsCut, Step, NewMessage, Notices, Joined;
    var start := Begin(p, count);
    BeginEnd(p, count);
    RunBytesOne(start, LF);
    HeadersEnd(start);
    var r := RunBytes(start, [LF]);
    QuietLast(start, LF);
    LengthBody(r, data);
    RunBytesAppend(start, [LF], data);
    QuietFromAppend(start, [LF], data);
    var es := [HeadersComplete] + [Data(Body, data)] + [MessageComplete(p.verb, p.statusCode)];
    assert RunBytes(start, [LF] + data).events == es;
    assert CountOk(p, count);
    EveryCutDelivers(p, count, [LF] + data, bufs, es);
    JoinedAppend([HeadersComplete] + [Data(Body, data)], [MessageComplete(p.verb, p.statusCode)], Body);
    JoinedAppend([HeadersComplete], [Data(Body, data)], Body);
    JoinedOne(HeadersComplete, Body);
    JoinedOne(Data(Body, data), Body);
    JoinedOne(MessageComplete(p.verb, p.statusCode), Body);
    assert "" + data + "" == data;
  }
}
