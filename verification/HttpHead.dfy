/** A printed header section read by the byte machine, and the whole printed message. */
module HttpHeads {
  import opened Options
  import opened HttpTypes
  import opened HttpMachine
  import opened HttpRun
  import opened HttpInvariant
  import opened HttpBlocks
  import opened HttpSplit
  import opened HttpFraming
  import opened HttpLength
  import opened HttpRecogniser
  import opened HttpRequests
  import opened OrderedMap
  import opened HttpEncoders

  // ---- Printed lengths -------------------------------------------------------------------------

  /** A printed size is a length field with that value. */
  lemma {:induction false} DecimalExact(n: nat)
    ensures var s := Decimal(n);
      && DecimalValue(s) == n && IsLength(s) && IsNum(s[0]) && (forall i | 0 <= i < |s| :: IsNum(s[i]))
  {
    if n < 10 {
      assert Decimal(n)[..0] == "";
    } else {
      DecimalExact(n / 10);
      var s := Decimal(n);
      assert s[..|s| - 1] == Decimal(n / 10);
    }
  }

  lemma DigitsAreText(s: string)
    requires forall i | 0 <= i < |s| :: IsNum(s[i])
    ensures IsValueText(s)
  {
  }

  // ---- Between the lines -------------------------------------------------------------------------

  /** What the lines read so far have left: a method, a length, and no other framing. */
  predicate HeadParser(p: Parser, m: Method, n: int, sc: int) {
    && p.verb == m && p.contentLength == n && p.statusCode == sc && p.errno.Ok?
    && p.flags.contentLength && !p.flags.chunked && !p.flags.trailing && !p.flags.upgrade
  }

  predicate InHead(r: Run, m: Method, n: int, sc: int) { AtLine(r) && HeadParser(Lined(r).parser, m, n, sc) }

  /** What a line adds. */
  predicate ReadLine(r: Run, r': Run, h: Entry, line: string) {
    && Lined(r').events == Lined(r).events + [Data(Field, h.key), Data(Value, h.value)]
    && r'.consumed == r.consumed + |line| && r'.headerBytes == r.headerBytes + |line|
  }

  /** The framing flags are the same. */
  predicate SameFraming(f: Flags, g: Flags) {
    f.contentLength == g.contentLength && f.chunked == g.chunked && f.trailing == g.trailing && f.upgrade == g.upgrade
  }

  lemma FinishOther(p: Parser)
    requires !p.headerState.Chunked?
    ensures FinishHeader(p) == p.(flags := FinishHeader(p).flags) && SameFraming(FinishHeader(p).flags, p.flags)
  {
    var f := p.flags;
    if p.headerState.ConnKeepAlive? {
      assert FinishHeader(p).flags == f.(connKeepAlive := true);
    } else if p.headerState.ConnClose? {
      assert FinishHeader(p).flags == f.(connClose := true);
    } else if p.headerState.ConnUpgrade? {
      assert FinishHeader(p).flags == f.(connUpgrade := true);
    } else {
      assert FinishHeader(p).flags == f;
    }
  }

  /** A line that can be printed and read: its value, if any, begins with no blank. */
  predicate IsLine(h: Entry) { h.key != "" && IsTokens(h.key) && (h.value == "" || IsClean(h.value)) }

  /** Where the name and the value of a line stand in a run. */
  predicate LineShape(r: Run, h: Entry) {
    var a, b, c := RunBytes(r, h.key), RunBytes(r, h.key + ": "), RunBytes(r, h.key + ": " + h.value);
    && IsLine(h)
    && a.control.Advance? && a.open == Some(Datum(Field, h.key))
    && b.control.Advance? && b.parser.state.HeaderValueDiscardWs? && b.open.None? && !b.skipping
    && c.control.Advance? && (h.value != "" ==> c.open == Some(Datum(Value, h.value)))
  }

  lemma ShapeFrom(r: Run, h: Entry)
    requires AtLine(r) && IsLine(h) && AfterName(Lined(r).parser, h.key).errno.Ok?
    requires var c := RunBytes(Named(Lined(r), h.key), h.value);
      c.control.Advance? && (h.value != "" ==> c.open == Some(Datum(Value, h.value)))
    ensures LineShape(r, h)
  {
    hide RunBytes, AfterName, FinishHeader, IsTokens, IsClean;
    FirstIsToken(h.key);
    LinedSame(r);
    var r0 := Lined(r);
    NextLineBytes(r, h.key);
    NextLineBytes(r, h.key + ": ");
    NextLineBytes(r, h.key + ": " + h.value);
    NameSteps(r0, h.key);
    AfterNameState(r0.parser, h.key);
    NameColon(r0, h.key);
    RunBytesAppend(r0, h.key + ": ", h.value);
  }

  /** A line from its name on, given what its value does. */
  lemma LineFrom(r: Run, h: Entry, r2: Run)
    requires AtLine(r) && IsLine(h) && AfterName(Lined(r).parser, h.key).errno.Ok?
    requires var r1 := Named(Lined(r), h.key);
      && RunBytes(r1, h.value) == r2 && r2.control.Advance? && r2.parser.state.HeaderValue? && r2.parser.errno.Ok?
      && r2.open == Some(Datum(Value, h.value)) && r2.events == r1.events
      && r2.consumed == r1.consumed + |h.value| && r2.headerBytes == r1.headerBytes + |h.value|
    ensures var r' := RunBytes(r, HeaderLine(h));
      && ReadLine(r, r', h, HeaderLine(h)) && AtLine(r') && r'.parser == r2.parser.(state := HeaderValueLws)
    ensures LineShape(r, h)
  {
    hide RunBytes, Step, AfterName, FinishHeader, LineShape, IsClean;
    ShapeFrom(r, h);
    FirstIsToken(h.key);
    NextLineBytes(r, HeaderLine(h));
    var r0 := Lined(r);
    LinedSame(r);
    NameColon(r0, h.key);
    ValueEndSteps(r2, h.value);
    RunBytesAppend(r0, h.key + ": ", h.value);
    RunBytesAppend(r0, h.key + ": " + h.value, "\r\n");
    LineEvents(r0.events, h);
  }

  lemma LineEvents(events: seq<Event>, h: Entry)
    ensures events + [Data(Field, h.key)] + [Data(Value, h.value)] == events + [Data(Field, h.key), Data(Value, h.value)]
  {
  }

  /** A line without a value.  That is delivered with the next byte. */
  lemma EmptyLineFrom(r: Run, name: string)
    requires AtLine(r) && name != "" && IsTokens(name) && AfterName(Lined(r).parser, name).errno.Ok?
    ensures var h := Entry(name, "");
      var r' := RunBytes(r, HeaderLine(h));
      && ReadLine(r, r', h, HeaderLine(h)) && AtLine(r')
      && r'.parser == AfterName(Lined(r).parser, name).(state := HeaderValueDiscardLws)
      && LineShape(r, h)
  {
    hide RunBytes, Step, AfterName, FinishHeader, IsTokens, LineShape;
    RunBytesNone(Named(Lined(r), name));
    ShapeFrom(r, Entry(name, ""));
    FirstIsToken(name);
    var h := Entry(name, "");
    NextLineBytes(r, HeaderLine(h));
    var r0 := Lined(r);
    LinedSame(r);
    NameColon(r0, name);
    EmptyValueSteps(Named(r0, name));
    assert name + ": " + "" == name + ": ";
    RunBytesAppend(r0, name + ": ", "\r\n");
    LineEvents(r0.events, h);
  }

  lemma EmptyValueSteps(r: Run)
    requires r.control.Advance? && r.parser.state.HeaderValueDiscardWs? && r.open.None? && !r.skipping
    ensures RunBytes(r, "\r\n") ==
      r.(parser := r.parser.(state := HeaderValueDiscardLws), headerBytes := r.headerBytes + 2, consumed := r.consumed + 2)
  {
    hide Step;
    TwoBytes(r, CR, LF);
    EmptyValueCr(r);
    EmptyValueLf(Step(r, CR));
  }

  lemma EmptyValueCr(r: Run)
    requires r.control.Advance? && r.parser.state.HeaderValueDiscardWs? && r.open.None? && !r.skipping
    ensures Step(r, CR) == Moved(r, r.parser.(state := HeaderValueDiscardWsAlmostDone), false, CR)
  {
    hide TransValueStart;
  }

  lemma EmptyValueLf(r: Run)
    requires r.control.Advance? && r.parser.state.HeaderValueDiscardWsAlmostDone? && r.open.None? && !r.skipping
    ensures Step(r, LF) == Moved(r, r.parser.(state := HeaderValueDiscardLws), false, LF)
  {
    hide TransValueStart;
  }

  lemma FirstIsToken(name: string)
    requires name != "" && IsTokens(name)
    ensures name[0] != ' ' && name[0] != '\t'
  {
    assert Token(name[0]) != '\0';
  }

  lemma LinedSame(r: Run)
    requires AtLine(r)
    ensures AtLine(Lined(r)) && Lined(r).parser.state.HeaderFieldStart?
    ensures Lined(r) == r.(parser := Lined(r).parser, events := Lined(r).events)
    ensures r.parser.state.HeaderValueLws? ==> Lined(r).events == r.events
  {
  }

  // ---- The three kinds of line ---------------------------------------------------------------------

  lemma LengthName()
    ensures IsTokens("Content-Length") && LowerName("Content-Length") == CONTENT_LENGTH && NamesLength(CONTENT_LENGTH)
  {
  }

  lemma ConnectionName()
    ensures IsTokens("Connection") && LowerName("Connection") == CONNECTION && !NamesLength(CONNECTION)
  {
  }

  /** The first line, behind a start line. */
  lemma LengthLineSteps(r: Run, m: Method, n: nat)
    requires AtLine(r) && r.parser.state.HeaderFieldStart? && r.parser.flags == NO_FLAGS && r.parser.verb == m && n <= MAX_DECIMAL
    ensures var h := Entry("Content-Length", Decimal(n));
      var r' := RunBytes(r, HeaderLine(h));
      InHead(r', m, n, r.parser.statusCode) && ReadLine(r, r', h, HeaderLine(h)) && LineShape(r, h)
  {
    hide RunBytes, AfterName, Decimal, HeaderLine, LowerName, IsTokens, NamesLength, LineShape;
    var h := Entry("Content-Length", Decimal(n));
    LengthName();
    NameExact(r.parser, h.key);
    KeywordStates(r.parser, h.key);
    var r1 := Named(r, h.key);
    DecimalExact(n);
    DigitsAreText(h.value);
    LengthExact(r1, h.value);
    LineFrom(r, h, LengthRead(r1, h.value));
    FinishOther(RunBytes(r, HeaderLine(h)).parser);
  }

  lemma ConnectionValueClean(close: bool)
    ensures IsClean(ConnectionValue(close))
  {
  }

  lemma CloseSpelled()
    ensures Spells("close", true) && Spells("Keep-Alive", false)
  {
  }

  lemma ConnectionLineSteps(r: Run, m: Method, n: int, sc: int, close: bool)
    requires InHead(r, m, n, sc)
    ensures var h := Entry("Connection", ConnectionValue(close));
      var r' := RunBytes(r, HeaderLine(h));
      InHead(r', m, n, sc) && ReadLine(r, r', h, HeaderLine(h)) && LineShape(r, h)
  {
    hide RunBytes, AfterName, HeaderLine, LowerName, IsTokens, NamesLength, Spells, FinishHeader, LineShape;
    ConnectionValueClean(close);
    var h := Entry("Connection", ConnectionValue(close));
    var p := Lined(r).parser;
    LinedSame(r);
    ConnectionName();
    NameExact(p, h.key);
    KeywordStates(p, h.key);
    var r1 := Named(Lined(r), h.key);
    CloseSpelled();
    ConnSteps(r1, close, h.value, |h.value|);
    assert h.value[..|h.value|] == h.value;
    var r2 := RunBytes(r1, h.value);
    LineFrom(r, h, r2);
    FinishOther(RunBytes(r, HeaderLine(h)).parser);
  }

  /** A header the parser gives no meaning to, and whose value it does not change. */
  predicate IsPlain(h: Entry) {
    && h.key != "" && IsTokens(h.key) && (h.value == "" || IsClean(h.value))
    && var w := LowerName(h.key);
       w != CONNECTION && w != PROXY_CONNECTION && w != TRANSFER_ENCODING && w != UPGRADE && !NamesLength(w)
  }

  lemma PlainNotLength(w: string)
    requires !NamesLength(w)
    ensures w != CONTENT_LENGTH
  {
  }

  lemma PlainState(p: Parser, name: string)
    requires p.errno.Ok? && IsPlain(Entry(name, "x")) && !(p.flags.contentLength && NamesLength(LowerName(name)))
    ensures var q := AfterName(p, name);
      && q.errno.Ok? && !IsSpecial(q.headerState) && q == p.(index := q.index, headerState := q.headerState, state := HeaderField)
      && FinishHeader(q) == q
  {
    hide AfterName, NamesLength, LowerName, IsTokens;
    NameExact(p, name);
    KeywordStates(p, name);
    PlainNotLength(LowerName(name));
    assert p.flags.(contentLength := p.flags.contentLength) == p.flags;
  }

  lemma PlainAny(h: Entry)
    requires IsPlain(h)
    ensures IsPlain(Entry(h.key, "x"))
  {
  }

  lemma PlainLineSteps(r: Run, m: Method, n: int, sc: int, h: Entry)
    requires InHead(r, m, n, sc) && IsPlain(h)
    ensures var r' := RunBytes(r, HeaderLine(h));
      InHead(r', m, n, sc) && ReadLine(r, r', h, HeaderLine(h)) && LineShape(r, h)
  {
    hide RunBytes, AfterName, HeaderLine, LowerName, IsTokens, NamesLength, FinishHeader, IsClean, IsSpecial, LineShape;
    var p := Lined(r).parser;
    LinedSame(r);
    PlainAny(h);
    PlainState(p, h.key);
    if h.value == "" {
      EmptyLineFrom(r, h.key);
      FinishSame(AfterName(p, h.key), HeaderValueDiscardLws);
    } else {
      var r1 := Named(Lined(r), h.key);
      PlainValue(r1, h.value);
      var r2 := RunBytes(r1, h.value);
      LineFrom(r, h, r2);
      FinishPlain(RunBytes(r, HeaderLine(h)).parser);
    }
  }

  lemma FinishPlain(p: Parser)
    requires p.headerState.General?
    ensures FinishHeader(p) == p
  {
  }

  lemma FinishSame(p: Parser, s: State)
    requires FinishHeader(p) == p
    ensures FinishHeader(p.(state := s)) == p.(state := s)
  {
  }

  function HeaderEvents(headers: seq<Entry>): seq<Event> {
    if headers == [] then []
    else
      var h := headers[|headers| - 1];
      HeaderEvents(headers[..|headers| - 1]) + [Data(Field, h.key), Data(Value, h.value)]
  }

  lemma {:induction false} PlainLinesSteps(r: Run, m: Method, n: int, sc: int, headers: seq<Entry>)
    requires InHead(r, m, n, sc) && forall i | 0 <= i < |headers| :: IsPlain(headers[i])
    ensures var r', text := RunBytes(r, HeadersText(headers)), HeadersText(headers);
      && InHead(r', m, n, sc) && Lined(r').events == Lined(r).events + HeaderEvents(headers)
      && r'.consumed == r.consumed + |text| && r'.headerBytes == r.headerBytes + |text|
  {
    hide RunBytes, InHead, HeaderLine, IsPlain;
    if headers == [] {
      RunBytesNone(r);
      assert Lined(r).events + [] == Lined(r).events;
    } else {
      var k := |headers| - 1;
      var before, h := headers[..k], headers[k];
      PlainLinesSteps(r, m, n, sc, before);
      var r0 := RunBytes(r, HeadersText(before));
      PlainLineSteps(r0, m, n, sc, h);
      RunBytesAppend(r, HeadersText(before), HeaderLine(h));
      assert Lined(r).events + HeaderEvents(before) + [Data(Field, h.key), Data(Value, h.value)]
          == Lined(r).events + HeaderEvents(headers);
    }
  }

  // ---- The header section ----------------------------------------------------------------------------

  /** All the headers that are printed. */
  function AllHeaders(c: Content): seq<Entry> {
    [Entry("Content-Length", Decimal(|c.body|)), Entry("Connection", ConnectionValue(c.closeConnection))] + c.headers
  }

  lemma {:induction false} HeaderEventsAppend(a: seq<Entry>, b: seq<Entry>)
    ensures HeaderEvents(a + b) == HeaderEvents(a) + HeaderEvents(b)
    decreases |b|
  {
    if b == [] {
      assert a + b == a;
    } else {
      var n := |b| - 1;
      assert (a + b)[..|a + b| - 1] == a + b[..n];
      HeaderEventsAppend(a, b[..n]);
    }
  }

  lemma HeaderEventsTwo(a: Entry, b: Entry)
    ensures HeaderEvents([a, b]) == [Data(Field, a.key), Data(Value, a.value), Data(Field, b.key), Data(Value, b.value)]
  {
    assert [a, b][..1] == [a] && [a][..0] == [];
    assert HeaderEvents([a]) == [Data(Field, a.key), Data(Value, a.value)];
  }

  predicate PlainHeaders(c: Content) { forall i | 0 <= i < |c.headers| :: IsPlain(c.headers[i]) }

  /** The lines of the header section, without the empty one. */
  lemma HeaderLinesSteps(r: Run, m: Method, c: Content)
    requires AtLine(r) && r.parser.state.HeaderFieldStart? && r.parser.flags == NO_FLAGS && r.parser.verb == m
    requires |c.body| <= MAX_DECIMAL && PlainHeaders(c)
    ensures var text := LengthLine(c) + ConnectionLine(c) + HeadersText(c.headers);
      var r' := RunBytes(r, text);
      && InHead(r', m, |c.body|, r.parser.statusCode) && Lined(r').events == r.events + HeaderEvents(AllHeaders(c))
      && r'.consumed == r.consumed + |text| && r'.headerBytes == r.headerBytes + |text|
  {
    hide RunBytes, HeaderLine, AtLine, InHead, IsPlain, Decimal, HeaderEvents;
    var n, sc := |c.body|, r.parser.statusCode;
    var a, b := LengthLine(c), ConnectionLine(c);
    LengthLineSteps(r, m, n);
    var r1 := RunBytes(r, a);
    ConnectionLineSteps(r1, m, n, sc, c.closeConnection);
    var r2 := RunBytes(r1, b);
    PlainLinesSteps(r2, m, n, sc, c.headers);
    RunBytesAppend(r, a, b);
    RunBytesAppend(r, a + b, HeadersText(c.headers));
    var two := [AllHeaders(c)[0], AllHeaders(c)[1]];
    HeaderEventsTwo(two[0], two[1]);
    HeaderEventsAppend(two, c.headers);
    assert r.events + [Data(Field, two[0].key), Data(Value, two[0].value)] + [Data(Field, two[1].key), Data(Value, two[1].value)]
        == r.events + HeaderEvents(two);
    assert r.events + HeaderEvents(two) + HeaderEvents(c.headers) == r.events + HeaderEvents(AllHeaders(c));
  }

  lemma LinesOf(c: Content, i: nat)
    requires i < |AllHeaders(c)|
    ensures HeadersText(AllHeaders(c)[..i]) ==
      if i == 0 then "" else if i == 1 then LengthLine(c) else LengthLine(c) + ConnectionLine(c) + HeadersText(c.headers[..i - 2])
  {
    hide HeaderLine, Decimal;
    var hs := AllHeaders(c)[..i];
    if i > 2 {
      LinesOf(c, i - 1);
      assert hs[..i - 1] == AllHeaders(c)[..i - 1] && c.headers[..i - 2][..i - 3] == c.headers[..i - 3];
    } else if i == 2 {
      assert hs[..1] == AllHeaders(c)[..1];
      LinesOf(c, 1);
      assert c.headers[..0] == [];
      assert LengthLine(c) + ConnectionLine(c) + "" == LengthLine(c) + ConnectionLine(c);
    } else if i == 1 {
      assert hs[..0] == [];
      assert "" + LengthLine(c) == LengthLine(c);
    }
  }

  /** Each line of the header section stands where it was printed. */
  lemma LineAt(r: Run, m: Method, c: Content, i: nat)
    requires AtLine(r) && r.parser.state.HeaderFieldStart? && r.parser.flags == NO_FLAGS && r.parser.verb == m
    requires |c.body| <= MAX_DECIMAL && PlainHeaders(c) && i < |AllHeaders(c)|
    ensures var h, r1 := AllHeaders(c)[i], RunBytes(r, HeadersText(AllHeaders(c)[..i]));
      AtLine(r1) && LineShape(r1, h) && AtLine(RunBytes(r1, HeaderLine(h)))
  {
    hide RunBytes, HeaderLine, AtLine, IsPlain, Decimal, LineShape, HeadersText;
    var n, sc := |c.body|, r.parser.statusCode;
    LinesOf(c, i);
    RunBytesNone(r);
    LengthLineSteps(r, m, n);
    if i > 0 {
      var r1 := RunBytes(r, LengthLine(c));
      ConnectionLineSteps(r1, m, n, sc, c.closeConnection);
      if i > 1 {
        RunBytesAppend(r, LengthLine(c), ConnectionLine(c));
        var r2 := RunBytes(r1, ConnectionLine(c));
        var before := c.headers[..i - 2];
        PlainLinesSteps(r2, m, n, sc, before);
        RunBytesAppend(r, LengthLine(c) + ConnectionLine(c), HeadersText(before));
        PlainLineSteps(RunBytes(r2, HeadersText(before)), m, n, sc, c.headers[i - 2]);
      }
    }
  }

  lemma EmptyLineCr(r: Run, m: Method, n: int, sc: int)
    requires InHead(r, m, n, sc) && m != CONNECT
    ensures var r' := Step(r, CR);
      && AtHeadersEnd(r') && r'.parser == Lined(r).parser.(state := HeadersAlmostDone)
      && r'.events == Lined(r).events && r'.consumed == r.consumed + 1 && r'.headerBytes == r.headerBytes + 1
  {
    hide FinishHeader, Step;
    NextLine(r, CR);
    LinedSame(r);
    TrailerStart(Lined(r));
  }

  // ---- The whole message ---------------------------------------------------------------------------

  /** All callbacks of a printed message behind its start line. */
  function MessageEvents(c: Content, m: Method, sc: int): seq<Event> {
    HeaderEvents(AllHeaders(c)) + [HeadersComplete] + (if c.body == "" then [] else [Data(Body, c.body)]) + [MessageComplete(m, sc)]
  }

  /** The run where a body of `n` bytes begins, none of them a header byte. */
  predicate AtBody(r: Run, n: nat) {
    && r.control.Advance? && r.parser.state.BodyIdentity? && r.parser.contentLength == n && r.open.None? && !r.skipping
    && r.headerBytes == 0
  }

  /** Before the last byte of a header section: all the others have been counted. */
  predicate HeadEnds(r: Run, head: string) {
    && head != ""
    && var last := RunBytes(r, head[..|head| - 1]);
       last.control.Advance? && last.parser.state.HeadersAlmostDone? && last.headerBytes == r.headerBytes + |head| - 1
  }

  /** Between messages. */
  predicate IsIdle(s: State) { s.Dead? || s.StartReq? || s.StartRes? }

  lemma NewIsIdle(p: Parser)
    ensures IsIdle(NewMessage(p))
  {
  }

  /** A message, from its first header line on, completes on its last byte. */
  lemma MessageSteps(r: Run, m: Method, c: Content)
    requires AtLine(r) && r.parser.state.HeaderFieldStart? && r.parser.flags == NO_FLAGS && r.parser.verb == m && m != CONNECT
    requires |c.body| <= MAX_DECIMAL && PlainHeaders(c)
    ensures var head := HeaderSection(c);
      var r1, r' := RunBytes(r, head), RunBytes(r, head + c.body);
      && r1.consumed == r.consumed + |head|
      && (c.body != "" ==> AtBody(r1, |c.body|))
      && r'.control.Advance? && r'.open.None? && r'.parser.errno.Ok?
      && r'.events == r.events + MessageEvents(c, m, r.parser.statusCode)
      && r'.consumed == r.consumed + |head| + |c.body|
      && HeadEnds(r, head) && IsIdle(r'.parser.state)
  {
    hide RunBytes, Step, HeaderLine, AtLine, InHead, IsPlain, Decimal, HeaderEvents, AtHeadersEnd, NewMessage, QuietFrom;
    var n, sc := |c.body|, r.parser.statusCode;
    var lines := LengthLine(c) + ConnectionLine(c) + HeadersText(c.headers);
    HeaderLinesSteps(r, m, c);
    var r0 := RunBytes(r, lines);
    RunBytesAppend(r, lines, "\r\n");
    TwoBytes(r0, CR, LF);
    EmptyLineCr(r0, m, n, sc);
    var r1 := Step(r0, CR);
    RunBytesOne(r0, CR);
    RunBytesAppend(r, lines, [CR]);
    assert HeaderSection(c)[..|HeaderSection(c)| - 1] == lines + [CR];
    EndState(r1);
    InHeadParser(r0, m, n, sc);
    NoUpgrade(r1.parser, m, n, sc);
    var es := HeaderEvents(AllHeaders(c));
    if c.body == "" {
      HeadersEndNoBody(r1);
      NewIsIdle(r1.parser.(upgrade := UpgradeOf(r1.parser)));
      assert HeaderSection(c) + "" == HeaderSection(c);
      assert r.events + es + [HeadersComplete, MessageComplete(m, sc)] == r.events + MessageEvents(c, m, sc);
    } else {
      HeadersEnd(r1);
      EndIsClear(r1);
      var r2 := Step(r1, LF);
      LengthBody(r2, c.body);
      NewIsIdle(r2.parser.(contentLength := 0));
      RunBytesAppend(r, HeaderSection(c), c.body);
      assert r.events + es + [HeadersComplete] + [Data(Body, c.body), MessageComplete(m, sc)]
          == r.events + MessageEvents(c, m, sc);
    }
  }

  lemma EndState(r: Run)
    requires AtHeadersEnd(r)
    ensures r.control.Advance? && r.parser.state.HeadersAlmostDone?
  {
  }

  lemma EndIsClear(r: Run)
    requires AtHeadersEnd(r)
    ensures r.open.None? && !r.skipping && r.control.Advance? && r.parser.errno.Ok?
  {
  }

  lemma InHeadParser(r: Run, m: Method, n: int, sc: int)
    requires InHead(r, m, n, sc)
    ensures HeadParser(Lined(r).parser, m, n, sc)
  {
  }

  lemma NoUpgrade(p: Parser, m: Method, n: int, sc: int)
    requires HeadParser(p, m, n, sc) && m != CONNECT
    ensures !UpgradeOf(p) && !p.flags.chunked && (0 < n < ABSENT ==> HasBody(p))
  {
  }
}
