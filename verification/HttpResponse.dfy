/** Printed responses, read back. */
module HttpResponses {
  import opened Options
  import opened HttpTypes
  import opened HttpMachine
  import opened HttpRun
  import opened HttpInvariant
  import opened HttpBlocks
  import opened HttpSplit
  import opened HttpFraming
  import opened HttpLength
  import opened HttpRecogniser
  import opened HttpExecute
  import opened HttpRequests
  import opened OrderedMap
  import opened HttpEncoders
  import opened HttpHeads
  import opened HttpCuts
  import opened HttpPieces
  import opened HttpParsers
  import opened HttpStored
  import opened HttpRoundTrip

  const PROTOCOL := "HTTP/1.1 "

  function ProtocolStates(): seq<State> {
    [StartReqOrRes, ResOrRespH, ResHT, ResHTT, ResHTTP, ResFirstHttpMajor, ResHttpMajor, ResFirstHttpMinor, ResHttpMinor,
     ResFirstStatusCode]
  }

  /** The parser that has read `k` bytes of the protocol. */
  function ProtocolRead(p: Parser, k: nat): Parser
    requires 0 < k <= |PROTOCOL|
  {
    p.(flags := NO_FLAGS, contentLength := ABSENT, kind := if k > 1 then Response else p.kind, state := ProtocolStates()[k],
       httpMajor := if k > 5 then 1 else p.httpMajor, httpMinor := if k > 7 then 1 else p.httpMinor)
  }

  lemma ProtocolTransition(p: Parser, k: nat)
    requires 0 < k < |PROTOCOL|
    ensures Transition(ProtocolRead(p, k), false, PROTOCOL[k]) == Stay(ProtocolRead(p, k + 1))
    ensures ParsingHeader(ProtocolRead(p, k).state) && !ResetsCount(ProtocolRead(p, k).state)
  {
    hide ShouldKeepAlive, FirstMethod;
  }

  lemma {:induction false} ProtocolSteps(r: Run, k: nat)
    requires AtStart(r) && r.parser.state.StartReqOrRes? && 0 < k <= |PROTOCOL|
    ensures RunBytes(r, PROTOCOL[..k]) ==
      r.(parser := ProtocolRead(r.parser, k), headerBytes := r.headerBytes + k, events := r.events + [MessageBegin],
         consumed := r.consumed + k)
  {
    hide Step, ProtocolRead, Transition;
    if k == 1 {
      assert PROTOCOL[..1] == ['H'];
      RunBytesOne(r, 'H');
      HByte(r);
      ProtocolFirst(r.parser);
    } else {
      ProtocolSteps(r, k - 1);
      assert PROTOCOL[..k][..k - 1] == PROTOCOL[..k - 1];
      ProtocolTransition(r.parser, k - 1);
      MovedStep(RunBytes(r, PROTOCOL[..k - 1]), PROTOCOL[k - 1], ProtocolRead(r.parser, k), false);
    }
  }

  lemma ProtocolFirst(p: Parser)
    ensures ProtocolRead(p, 1) == p.(flags := NO_FLAGS, contentLength := ABSENT, state := ResOrRespH)
  {
  }

  // ---- Status codes ----------------------------------------------------------------------------

  predicate IsDigits(s: string) { s != "" && forall i | 0 <= i < |s| :: IsNum(s[i]) }

  lemma FirstStatusByte(r: Run, ch: char)
    requires r.control.Advance? && r.parser.state.ResFirstStatusCode? && r.open.None? && !r.skipping && IsNum(ch)
    ensures Step(r, ch) == Moved(r, r.parser.(statusCode := Digit(ch), state := ResStatusCode), false, ch)
  {
  }

  lemma StatusByte(r: Run, ch: char)
    requires r.control.Advance? && r.parser.state.ResStatusCode? && r.open.None? && IsNum(ch)
    ensures var v := r.parser.statusCode * 10 + Digit(ch);
      if v <= 999 then Step(r, ch) == Moved(r, r.parser.(statusCode := v), false, ch)
      else Step(r, ch).control.Fail? && Step(r, ch).parser.errno == InvalidStatus
  {
  }

  lemma DigitsGrow(s: string)
    requires IsDigits(s) && |s| > 1
    ensures DecimalValue(s) == DecimalValue(s[..|s| - 1]) * 10 + Digit(s[|s| - 1])
  {
  }

  /** A status is read as its exact value, and accepted exactly up to 999. */
  lemma {:induction false} StatusExact(r: Run, s: string)
    requires r.control.Advance? && r.parser.state.ResFirstStatusCode? && r.open.None? && !r.skipping && IsDigits(s)
    ensures if DecimalValue(s) <= 999 then
        RunBytes(r, s) ==
        r.(parser := r.parser.(statusCode := DecimalValue(s), state := ResStatusCode), headerBytes := r.headerBytes + |s|,
           consumed := r.consumed + |s|)
      else RunBytes(r, s).control.Fail? && RunBytes(r, s).parser.errno == InvalidStatus
  {
    hide Step;
    var n := |s| - 1;
    if n == 0 {
      assert s == [s[0]] && s[..0] == "";
      assert DecimalValue(s[..0]) == 0;
      RunBytesOne(r, s[0]);
      FirstStatusByte(r, s[0]);
    } else {
      hide DecimalValue;
      assert IsDigits(s[..n]);
      StatusExact(r, s[..n]);
      DigitsGrow(s);
      var r0 := RunBytes(r, s[..n]);
      if DecimalValue(s[..n]) <= 999 {
        StatusByte(r0, s[n]);
      }
    }
  }

  // ---- The reason ------------------------------------------------------------------------------

  lemma ReasonFirst(r: Run, ch: char)
    requires r.control.Advance? && r.parser.state.ResStatusStart? && r.open.None? && !r.skipping && ch != CR && ch != LF
    ensures Step(r, ch) ==
      r.(parser := r.parser.(state := ResStatus, index := 0), open := Some(Datum(Status, [ch])), headerBytes := r.headerBytes + 1,
         consumed := r.consumed + 1)
  {
    assert "" + [ch] == [ch];
  }

  lemma ReasonByte(r: Run, ch: char)
    requires r.control.Advance? && r.parser.state.ResStatus? && ch != CR && ch != LF
    ensures Step(r, ch) == Moved(r, r.parser, false, ch)
  {
  }

  lemma {:induction false} ReasonSteps(r: Run, s: string)
    requires r.control.Advance? && r.parser.state.ResStatusStart? && r.open.None? && !r.skipping && s != "" && NoLineEnd(s)
    ensures RunBytes(r, s) ==
      r.(parser := r.parser.(state := ResStatus, index := 0), open := Some(Datum(Status, s)), headerBytes := r.headerBytes + |s|,
         consumed := r.consumed + |s|)
  {
    hide Step;
    var n := |s| - 1;
    assert s[n] in s;
    if n == 0 {
      assert s == [s[0]];
      RunBytesOne(r, s[0]);
      ReasonFirst(r, s[0]);
    } else {
      assert s == s[..n] + [s[n]];
      ReasonSteps(r, s[..n]);
      ReasonByte(RunBytes(r, s[..n]), s[n]);
    }
  }

  function ReasonEvents(message: string): seq<Event> { if message == "" then [] else [Data(Status, message)] }

  lemma LineEndCr(r: Run, message: string)
    requires r.control.Advance? && !r.skipping
    requires if message == "" then r.parser.state.ResStatusStart? && r.open.None?
             else r.parser.state.ResStatus? && r.open == Some(Datum(Status, message))
    ensures Step(r, CR) ==
      r.(parser := r.parser.(state := ResLineAlmostDone), open := None, events := r.events + ReasonEvents(message),
         headerBytes := r.headerBytes + 1, consumed := r.consumed + 1)
  {
    hide Step;
    if message == "" {
      EmptyReasonEnd(r);
      assert r.events + [] == r.events;
    } else {
      ReasonEnd(r, message);
    }
  }

  lemma EmptyReasonEnd(r: Run)
    requires r.control.Advance? && !r.skipping && r.parser.state.ResStatusStart? && r.open.None?
    ensures Step(r, CR) == Moved(r, r.parser.(state := ResLineAlmostDone), false, CR)
  {
    hide Step;
    MovedStep(r, CR, r.parser.(state := ResLineAlmostDone), false);
  }

  lemma ReasonEnd(r: Run, message: string)
    requires r.control.Advance? && !r.skipping && r.parser.state.ResStatus? && r.open == Some(Datum(Status, message))
    ensures Step(r, CR) ==
      r.(parser := r.parser.(state := ResLineAlmostDone), open := None, events := r.events + [Data(Status, message)],
         headerBytes := r.headerBytes + 1, consumed := r.consumed + 1)
  {
  }

  lemma LineEndLf(r: Run)
    requires r.control.Advance? && !r.skipping && r.parser.state.ResLineAlmostDone? && r.open.None?
    ensures Step(r, LF) == Moved(r, r.parser.(state := HeaderFieldStart), false, LF)
  {
    hide Step;
    MovedStep(r, LF, r.parser.(state := HeaderFieldStart), false);
  }

  lemma SpaceAfterStatus(r: Run)
    requires r.control.Advance? && !r.skipping && r.parser.state.ResStatusCode? && r.open.None?
    ensures Step(r, ' ') == Moved(r, r.parser.(state := ResStatusStart), false, ' ')
  {
  }

  predicate IsResponse(c: Content) {
    c.statusCode <= 999 && NoLineEnd(c.statusMessage) && PlainHeaders(c) && |c.body| <= MAX_DECIMAL
  }

  /** The parser behind a status line. */
  predicate StatusLineRead(p: Parser, q: Parser, code: nat) {
    && q.state.HeaderFieldStart? && q.kind.Response? && q.statusCode == code && q.flags == NO_FLAGS
    && q.contentLength == ABSENT && q.verb == p.verb && q.errno == p.errno
  }

  lemma StatusLineSteps(r: Run, c: Content)
    requires AtStart(r) && r.parser.state.StartReqOrRes? && IsResponse(c)
    ensures var r' := RunBytes(r, StatusLine(c));
      && StatusLineRead(r.parser, r'.parser, c.statusCode)
      && r' == r.(parser := r'.parser, headerBytes := r.headerBytes + |StatusLine(c)|,
                  events := r.events + ([MessageBegin] + ReasonEvents(c.statusMessage)), consumed := r.consumed + |StatusLine(c)|)
  {
    hide Step, RunBytes, Decimal, PlainHeaders, DecimalValue, NoLineEnd, ProtocolStates;
    var code, message := Decimal(c.statusCode), c.statusMessage;
    ProtocolSteps(r, |PROTOCOL|);
    assert PROTOCOL[..|PROTOCOL|] == PROTOCOL;
    var r1 := RunBytes(r, PROTOCOL);
    DecimalExact(c.statusCode);
    ProtocolWhole(r.parser);
    StatusExact(r1, code);
    var r2 := RunBytes(r1, code);
    SpaceAfterStatus(r2);
    RunBytesOne(r2, ' ');
    var r3 := RunBytes(r2, " ");
    if message == "" {
      RunBytesNone(r3);
    } else {
      ReasonSteps(r3, message);
    }
    var r4 := RunBytes(r3, message);
    LineEndCr(r4, message);
    LineEndLf(Step(r4, CR));
    TwoBytes(r4, CR, LF);
    RunBytesAppend(r, PROTOCOL, code);
    RunBytesAppend(r, PROTOCOL + code, " ");
    RunBytesAppend(r, PROTOCOL + code + " ", message);
    RunBytesAppend(r, PROTOCOL + code + " " + message, "\r\n");
    assert StatusLine(c) == PROTOCOL + code + " " + message + "\r\n";
    assert r.events + [MessageBegin] + ReasonEvents(message) == r.events + ([MessageBegin] + ReasonEvents(message));
  }

  lemma ProtocolWhole(p: Parser)
    ensures var q := ProtocolRead(p, |PROTOCOL|);
      && q.state.ResFirstStatusCode? && q.kind.Response? && q.flags == NO_FLAGS && q.contentLength == ABSENT
      && q.verb == p.verb && q.errno == p.errno
  {
  }

  // ---- The round trip ------------------------------------------------------------------------------

  function ResponseEvents(c: Content): seq<Event> {
    [MessageBegin] + ReasonEvents(c.statusMessage) + MessageEvents(c, DELETE, c.statusCode)
  }

  /** The printed response is read to its end, where it completes. */
  lemma ResponseRun(c: Content)
    requires IsResponse(c)
    ensures var head, text := StatusLine(c) + HeaderSection(c), ResponseText(c);
      var r1, r := RunBytes(Fresh(), head), RunBytes(Fresh(), text);
      && text == head + c.body && r1.consumed == |head|
      && (c.body != "" ==> AtBody(r1, |c.body|)) && HeadEnds(Fresh(), head) && IsIdle(r.parser.state)
      && r.control.Advance? && r.open.None? && r.parser.errno.Ok? && r.consumed == |text|
      && r.events == ResponseEvents(c)
  {
    hide RunBytes, HeaderSection, MessageEvents, AtBody, PlainHeaders, InitialParser, Fresh, AtStart, StatusLine, ReasonEvents;
    var line, head := StatusLine(c), HeaderSection(c);
    FreshStart();
    FreshIsBegin();
    StatusLineSteps(Fresh(), c);
    var r0 := RunBytes(Fresh(), line);
    MessageSteps(r0, DELETE, c);
    RunBytesAppend(Fresh(), line, head);
    HeadBehind(Fresh(), line, head);
    RunBytesAppend(Fresh(), line, head + c.body);
    assert line + (head + c.body) == line + head + c.body;
    assert [] + ([MessageBegin] + ReasonEvents(c.statusMessage)) + MessageEvents(c, DELETE, c.statusCode) == ResponseEvents(c);
  }

  lemma FreshIsBegin()
    ensures Fresh() == Begin(InitialParser(Both), 0) && Fresh().parser.verb == DELETE && Fresh().parser.state.StartReqOrRes?
  {
  }

  // ---- A printed response can be cut anywhere -------------------------------------------------------

  /** The reason may hold any bytes: they are not skipped but taken one by one. */
  lemma QuietReason(r: Run, s: string)
    requires r.control.Advance? && r.parser.state.ResStatusStart? && r.open.None? && !r.skipping && NoLineEnd(s)
    ensures QuietFrom(r, s)
  {
    hide IsHeaderChar;
    forall i: nat | i < |s|
      ensures RunBytes(r, s[..i]).control.Advance? && !RunBytes(r, s[..i]).skipping
    {
      if i == 0 {
        assert s[..i] == "";
      } else {
        assert forall c | c in s[..i] :: c in s;
        ReasonSteps(r, s[..i]);
      }
    }
  }

  lemma ProtocolText()
    ensures AllHeaderChars(PROTOCOL)
  {
  }

  lemma StatusLineQuiet(r: Run, c: Content)
    requires AtStart(r) && r.parser.state.StartReqOrRes? && IsResponse(c)
    ensures QuietFrom(r, StatusLine(c))
  {
    hide Step, RunBytes, Decimal, PlainHeaders, DecimalValue, ProtocolStates, QuietFrom, NoLineEnd, AllHeaderChars;
    var code, message := Decimal(c.statusCode), c.statusMessage;
    var head := PROTOCOL + code + " ";
    ProtocolSteps(r, |PROTOCOL|);
    assert PROTOCOL[..|PROTOCOL|] == PROTOCOL;
    var r1 := RunBytes(r, PROTOCOL);
    DecimalExact(c.statusCode);
    ProtocolWhole(r.parser);
    StatusExact(r1, code);
    var r2 := RunBytes(r1, code);
    SpaceAfterStatus(r2);
    RunBytesOne(r2, ' ');
    RunBytesAppend(r, PROTOCOL, code);
    RunBytesAppend(r, PROTOCOL + code, " ");
    ProtocolText();
    DigitsAreText(code);
    ValueIsText(code);
    MarksAreText();
    TextJoin(PROTOCOL, code);
    TextJoin(PROTOCOL + code, " ");
    QuietText(r, head);
    var r3 := RunBytes(r, head);
    QuietReason(r3, message);
    QuietFromAppend(r, head, message);
    RunBytesAppend(r, head, message);
    var r4 := RunBytes(r3, message);
    if message == "" {
      RunBytesNone(r3);
    } else {
      ReasonSteps(r3, message);
    }
    LineEndCr(r4, message);
    LineEndLf(Step(r4, CR));
    TwoBytes(r4, CR, LF);
    QuietText(r4, "\r\n");
    QuietFromAppend(r, head + message, "\r\n");
    assert StatusLine(c) == head + message + "\r\n";
  }

  lemma ResponseQuiet(c: Content)
    requires IsResponse(c)
    ensures QuietFrom(Fresh(), ResponseText(c))
  {
    hide RunBytes, StatusLine, HeaderSection, AllHeaderChars, QuietFrom, Fresh, ResponseEvents, PlainHeaders, AtStart, InitialParser;
    var line, head := StatusLine(c), StatusLine(c) + HeaderSection(c);
    ResponseRun(c);
    FreshStart();
    FreshIsBegin();
    StatusLineQuiet(Fresh(), c);
    StatusLineSteps(Fresh(), c);
    SectionIsText(c);
    var r0 := RunBytes(Fresh(), line);
    RunBytesAppend(Fresh(), line, HeaderSection(c));
    QuietText(r0, HeaderSection(c));
    QuietFromAppend(Fresh(), line, HeaderSection(c));
    if c.body == "" {
      assert head + c.body == head;
    } else {
      var r1 := RunBytes(Fresh(), head);
      QuietBlock(r1, c.body);
      QuietFromAppend(Fresh(), head, c.body);
    }
  }

  lemma ResponseMessage(c: Content)
    requires IsResponse(c)
    ensures var line := StatusLine(c);
      && ResponseText(c) == Message(line, c) && QuietFrom(Fresh(), Message(line, c))
      && AtHeaders(RunBytes(Fresh(), line), DELETE) && SameParts(RunBytes(Fresh(), line).events, [])
      && var end := RunBytes(Fresh(), Message(line, c));
         end.control.Advance? && end.open.None? && SameParts(end.events, HeaderEvents(AllHeaders(c)))
  {
    hide RunBytes, QuietFrom, HeaderSection, MessageEvents, PlainHeaders, InitialParser, Fresh, AtStart, SameParts, Message,
      HeaderEvents, ReasonEvents, StatusLine;
    MessageIs(StatusLine(c), c);
    FreshStart();
    FreshIsBegin();
    StatusLineSteps(Fresh(), c);
    ResponseRun(c);
    ResponseQuiet(c);
    var es := [MessageBegin] + ReasonEvents(c.statusMessage);
    assert [] + es == es;
    ReasonParts(c.statusMessage);
    MessageParts(es, c, DELETE, c.statusCode);
  }

  lemma ReasonParts(message: string)
    ensures SameParts([MessageBegin] + ReasonEvents(message), [])
  {
    var es := [MessageBegin] + ReasonEvents(message);
    assert es[..1][..0] == [];
    assert es[..1] == [MessageBegin];
  }

  // ---- What the callbacks make of it -----------------------------------------------------------------

  /** What has been received when a printed response has been read.  The method is that of an unused
      parser. */
  predicate GivesBackResponse(got: Received, c: Content) {
    && got.complete && got.status == c.statusCode && got.body == c.body && got.url == "" && got.parameters == map[]
    && got.verb == "DELETE"
  }

  lemma CoreGivesResponse(r: Received, s: Received, c: Content)
    requires Core(r) == Core(s) && GivesBackResponse(r, c)
    ensures GivesBackResponse(s, c)
  {
  }

  lemma ResponseApplied(c: Content, status: int)
    ensures GivesBackResponse(ApplyAll(NothingReceived(status), ResponseEvents(c)), c)
  {
    hide ApplyAll, MessageEvents, ReasonEvents, Finished;
    var r0 := NothingReceived(status);
    var start := [MessageBegin] + ReasonEvents(c.statusMessage);
    ApplyAllAppend(r0, start, MessageEvents(c, DELETE, c.statusCode));
    ReasonApplied(r0, c.statusMessage);
    MessageApplied(r0, c, DELETE, c.statusCode);
    assert "" + c.body == c.body;
    NoUrl(r0.(body := c.body), c.statusCode);
  }

  lemma ReasonApplied(r: Received, message: string)
    ensures ApplyAll(r, [MessageBegin] + ReasonEvents(message)) == r
  {
    hide ApplyAll;
    ApplyAllAppend(r, [MessageBegin], ReasonEvents(message));
    ApplyOne(r, MessageBegin);
    ApplyOne(r, Data(Status, message));
    ApplyNothing(r);
  }

  lemma NoUrl(r: Received, statusCode: int)
    requires r.urlAndParams == ""
    ensures var f := Finished(r, DELETE, statusCode);
      f == r.(verb := "DELETE", status := statusCode, url := "", complete := true)
  {
    assert Decoded("") == "" && GetStringBefore('?', "", 0) == "";
    ParametersFromEnd("", 1, r.parameters);
  }

  lemma ResponseNotices(c: Content)
    ensures Notices(ResponseEvents(c)) == [MessageBegin, HeadersComplete, MessageComplete(DELETE, c.statusCode)]
  {
    hide Notices, MessageEvents;
    JoinedOne(MessageBegin, Body);
    JoinedOne(Data(Status, c.statusMessage), Body);
    NoNotices();
    JoinedAppend([MessageBegin], ReasonEvents(c.statusMessage), Body);
    JoinedAppend([MessageBegin] + ReasonEvents(c.statusMessage), MessageEvents(c, DELETE, c.statusCode), Body);
    MessageNotices(c, DELETE, c.statusCode);
  }

  /** However a printed response is cut into buffers, it completes, once, and gives back its status
      and body, and its headers exactly when each has a value and none is cut. */
  lemma ResponseRoundTrip(c: Content, status: int, bufs: seq<string>)
    requires IsResponse(c) && IsCut(bufs, ResponseText(c))
    ensures var f := Feed(InitialParser(Both), 0, bufs);
      var got := ApplyAll(NothingReceived(status), f.events);
      var cut := CutInside(AllHeaders(c), |StatusLine(c)|, Ends(bufs));
      && f.parser.errno.Ok? && f.consumed == |ResponseText(c)|
      && Notices(f.events) == [MessageBegin, HeadersComplete, MessageComplete(DELETE, c.statusCode)]
      && GivesBackResponse(got, c)
      && (!cut ==> got.headers == HeaderMap(WithValues(c)))
      && (Distinct(c.headers) ==> (got.headers == HeaderMap(c) <==> AllValued(c.headers) && !cut))
  {
    hide RunBytes, Feed, Inv, ResponseText, StatusLine, ResponseEvents, QuietFrom, IsCut, ApplyAll, Notices, Coalesce, PlainHeaders,
      MapOf, GivesBackResponse, AtHeaders, SameParts, CutInside, HeaderMap, Ends, Kept, AllHeaders, InitialParser, NoLineEnd;
    var p := InitialParser(Both);
    var f := Feed(p, 0, bufs);
    var r0 := NothingReceived(status);
    var es := ResponseEvents(c);
    ResponseRun(c);
    FreshRun();
    InvOk(p);
    ResponseQuiet(c);
    ResponseNotEmpty(c);
    QuietFromQuiet(p, 0, ResponseText(c));
    SplitInvariance(p, 0, ResponseText(c), bufs);
    FeedOneBuffer(p, 0, ResponseText(c));
    assert [] + (es + []) == es;
    CoalesceKeeps(f.events, Body);
    CoalesceKeeps(es, Body);
    ResponseNotices(c);
    CoalesceCore(r0, f.events);
    CoalesceCore(r0, es);
    ResponseApplied(c, status);
    CoreGivesResponse(ApplyAll(r0, es), ApplyAll(r0, f.events), c);
    ResponseMessage(c);
    MessageHeaders(StatusLine(c), DELETE, c, status, bufs);
  }

  lemma ResponseNotEmpty(c: Content)
    ensures ResponseText(c) != ""
  {
    hide HeaderSection;
    assert StatusLine(c) != "";
  }
}
