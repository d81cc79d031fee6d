/** What every reachable parser keeps: the facts behind the assertions of the C code, the
    bounds of its bit fields, and the rule that at most one data callback is being collected. */
module HttpInvariant {
  import opened Options
  import opened HttpTypes
  import opened HttpMachine
  import opened HttpRun

  /** The largest length a decimal value, or a chunk size, can reach. */
  const MAX_DECIMAL: int := 18446744073709551609
  const MAX_CHUNK: int := TWO64 - 17

  /** What the name recogniser can say, with the number of bytes it has matched. */
  predicate NameState(hs: HeaderState, index: nat) {
    match hs
    case General => true
    case SeenC => index == 0
    case SeenCO => index == 1
    case SeenCON => index == 2
    case MatchingConnection => 3 <= index < |CONNECTION| - 1
    case MatchingProxyConnection => index < |PROXY_CONNECTION| - 1
    case MatchingContentLength => 3 <= index < |CONTENT_LENGTH| - 1
    case MatchingTransferEncoding => index < |TRANSFER_ENCODING| - 1
    case MatchingUpgrade => index < |UPGRADE| - 1
    case Connection => true
    case ContentLength => true
    case TransferEncoding => true
    case Upgrade => true
    case _ => false
  }

  /** What the value recogniser can say.  h_connection and h_transfer_encoding are not there. */
  predicate ValueState(hs: HeaderState, index: nat) {
    match hs
    case General => true
    case ContentLength => true
    case MatchingChunked => index < |CHUNKED| - 1
    case MatchingTokenStart => index == 0
    case MatchingKeepAlive => index < |KEEP_ALIVE| - 1
    case MatchingClose => index < |CLOSE| - 1
    case MatchingConnUpgrade => index < |UPGRADE| - 1
    case MatchingToken => true
    case Chunked => true
    case ConnKeepAlive => true
    case ConnClose => true
    case ConnUpgrade => true
    case _ => false
  }

  predicate StateOk(p: Parser) {
    match p.state
    case ReqMethod => 1 <= p.index <= |MethodString(p.verb)|
    case HeaderField => NameState(p.headerState, p.index)
    case HeaderValueDiscardWs => NameState(p.headerState, p.index)
    case HeaderValueDiscardWsAlmostDone => NameState(p.headerState, p.index)
    case HeaderValueDiscardLws => NameState(p.headerState, p.index)
    case HeaderValueStart => ValueState(p.headerState, p.index)
    case HeaderValue =>
      ValueState(p.headerState, p.index) && (p.headerState.ContentLength? ==> p.contentLength <= MAX_DECIMAL)
    case HeaderAlmostDone => ValueState(p.headerState, p.index)
    case HeaderValueLws => ValueState(p.headerState, p.index)
    case ChunkSizeStart => p.flags.chunked
    case ChunkSize => p.flags.chunked && p.contentLength <= MAX_CHUNK
    case ChunkParameters => p.flags.chunked && p.contentLength <= MAX_CHUNK
    case ChunkSizeAlmostDone => p.flags.chunked && p.contentLength <= MAX_CHUNK
    case ChunkData => p.flags.chunked && p.contentLength != 0 && p.contentLength != ABSENT
    case ChunkDataAlmostDone => p.flags.chunked && p.contentLength == 0
    case ChunkDataDone => p.flags.chunked
    case BodyIdentity => p.contentLength != 0 && p.contentLength != ABSENT
    case _ => true
  }

  /** Every field fits the bits it is given. */
  predicate FieldsOk(p: Parser) {
    && p.errno.Ok?
    && p.index < 128
    && 0 <= p.contentLength < TWO64
    && 0 <= p.httpMajor <= 999 && 0 <= p.httpMinor <= 999 && 0 <= p.statusCode <= 999
  }

  predicate Inv(p: Parser) { FieldsOk(p) && p.index <= 17 && StateOk(p) }

  predicate IsDataBodyState(s: State) { s.ChunkData? || s.ChunkDataAlmostDone? || s.BodyIdentity? || s.BodyIdentityEof? }

  /** At most one datum is open, and the state says which. */
  predicate OpenOk(s: State, open: Option<Datum>) {
    if IsUrlState(s) then IsOpen(open, Url)
    else if s.HeaderField? then IsOpen(open, Field)
    else if s.HeaderValue? then IsOpen(open, Value)
    else if s.ResStatus? then IsOpen(open, Status)
    else if IsDataBodyState(s) then open.Some? ==> IsOpen(open, Body)
    else open.None?
  }

  /** The op fits what is open: no callback is overtaken and none is opened over another. */
  predicate OpFits(op: Op, open: Option<Datum>) {
    match op
    case Nothing => true
    case Mark(kind) => open.Some? ==> IsOpen(open, kind)
    case Flush(kind) => open.Some? ==> IsOpen(open, kind)
    case MarkThenFlush(kind) => open.None?
    case MarkThenFlushIncl(kind) => open.Some? ==> IsOpen(open, kind)
    case Notify(_) => open.None?
  }

  /** What one pass through the switch keeps. */
  predicate Keeps(p: Parser, open: Option<Datum>, o: Outcome) {
    && (o.control.Fail? <==> !o.parser.errno.Ok?)
    && OpFits(o.op, open)
    && (!o.control.Fail? ==>
          Inv(o.parser) && OpenOk(o.parser.state, OpenAfter(o.op, open)))
    && (!o.control.Fail? && o.parser.state.ChunkSizeStart? ==> ResetsCount(p.state) && !o.control.Reexecute?)
    && (o.skipping ==> o.parser.state.HeaderValue? && o.parser.headerState.General?)
    && (o.control.Exit? ==> OpenAfter(o.op, open).None?)
  }

  lemma StartKeeps(p: Parser, open: Option<Datum>, ch: char)
    requires Inv(p) && OpenOk(p.state, open)
    requires p.state.Dead? || p.state.StartReqOrRes? || p.state.ResOrRespH? || p.state.StartRes? || p.state.StartReq?
    ensures Keeps(p, open, TransStart(p, ch))
  {
    hide MethodString;
  }

  /** `m'` begins with the first `index` bytes of `m` and then `ch`; no switch comes later
      than at the fifth byte. */
  predicate Continues(m: Method, index: nat, ch: char, m': Method) {
    var s, s' := MethodString(m), MethodString(m');
    && 1 <= index <= 4 && index < |s| && index < |s'| && s'[index] == ch
    && s[0] == s'[0]
    && (index > 1 ==> s[1] == s'[1])
    && (index > 2 ==> s[2] == s'[2])
    && (index > 3 ==> s[3] == s'[3])
  }

  lemma SwitchPostPrefix(m: Method, index: nat, ch: char)
    requires SwitchMethod(m, index, ch).Some? && m in {POST, PUT, PROPFIND}
    ensures Continues(m, index, ch, SwitchMethod(m, index, ch).value)
  {
  }

  lemma SwitchConnectPrefix(m: Method, index: nat, ch: char)
    requires SwitchMethod(m, index, ch).Some? && m == CONNECT
    ensures Continues(m, index, ch, SwitchMethod(m, index, ch).value)
  {
  }

  lemma SwitchMkcolPrefix(m: Method, index: nat, ch: char)
    requires SwitchMethod(m, index, ch).Some? && m == MKCOL
    ensures Continues(m, index, ch, SwitchMethod(m, index, ch).value)
  {
  }

  lemma SwitchLockPrefix(m: Method, index: nat, ch: char)
    requires SwitchMethod(m, index, ch).Some? && m in {LOCK, UNLOCK}
    ensures Continues(m, index, ch, SwitchMethod(m, index, ch).value)
  {
  }

  lemma SwitchOtherPrefix(m: Method, index: nat, ch: char)
    requires SwitchMethod(m, index, ch).Some? && m in {SUBSCRIBE, REPORT}
    ensures Continues(m, index, ch, SwitchMethod(m, index, ch).value)
  {
  }

  /** Trying another method keeps the bytes already matched. */
  lemma SwitchMethodPrefix(m: Method, index: nat, ch: char)
    requires SwitchMethod(m, index, ch).Some?
    ensures Continues(m, index, ch, SwitchMethod(m, index, ch).value)
  {
    hide MethodString, Continues;
    if m in {POST, PUT, PROPFIND} {
      SwitchPostPrefix(m, index, ch);
    } else if m == CONNECT {
      SwitchConnectPrefix(m, index, ch);
    } else if m == MKCOL {
      SwitchMkcolPrefix(m, index, ch);
    } else if m in {LOCK, UNLOCK} {
      SwitchLockPrefix(m, index, ch);
    } else {
      SwitchOtherPrefix(m, index, ch);
    }
  }

  lemma MethodKeeps(p: Parser, open: Option<Datum>, ch: char)
    requires Inv(p) && OpenOk(p.state, open) && p.state.ReqMethod?
    ensures Keeps(p, open, TransMethod(p, ch))
  {
    hide MethodString, SwitchMethod;
    if SwitchMethod(p.verb, p.index, ch).Some? {
      SwitchMethodPrefix(p.verb, p.index, ch);
    }
  }

  lemma ResponseProtocolKeeps(p: Parser, open: Option<Datum>, ch: char)
    requires Inv(p) && OpenOk(p.state, open)
    requires p.state.ResH? || p.state.ResHT? || p.state.ResHTT? || p.state.ResHTTP? || p.state.ResFirstHttpMajor? || p.state.ResHttpMajor?
    ensures Keeps(p, open, TransResponseLine(p, ch))
  {
    hide MethodString;
  }

  lemma StatusCodeKeeps(p: Parser, open: Option<Datum>, ch: char)
    requires Inv(p) && OpenOk(p.state, open)
    requires p.state.ResFirstHttpMinor? || p.state.ResHttpMinor? || p.state.ResFirstStatusCode?
    ensures Keeps(p, open, TransResponseLine(p, ch))
  {
    hide MethodString;
  }

  lemma ResponseReasonKeeps(p: Parser, open: Option<Datum>, ch: char)
    requires Inv(p) && OpenOk(p.state, open) && IsResponseLineState(p.state)
    requires !(p.state.ResH? || p.state.ResHT? || p.state.ResHTT? || p.state.ResHTTP? || p.state.ResFirstHttpMajor? || p.state.ResHttpMajor?)
    requires !(p.state.ResFirstHttpMinor? || p.state.ResHttpMinor? || p.state.ResFirstStatusCode?)
    ensures Keeps(p, open, TransResponseLine(p, ch))
  {
    hide MethodString;
  }

  lemma ResponseLineKeeps(p: Parser, open: Option<Datum>, ch: char)
    requires Inv(p) && OpenOk(p.state, open) && IsResponseLineState(p.state)
    ensures Keeps(p, open, TransResponseLine(p, ch))
  {
    hide MethodString, TransResponseLine, Keeps, OpenOk, Inv;
    if p.state.ResH? || p.state.ResHT? || p.state.ResHTT? || p.state.ResHTTP? || p.state.ResFirstHttpMajor? || p.state.ResHttpMajor? {
      ResponseProtocolKeeps(p, open, ch);
    } else if p.state.ResFirstHttpMinor? || p.state.ResHttpMinor? || p.state.ResFirstStatusCode? {
      StatusCodeKeeps(p, open, ch);
    } else {
      ResponseReasonKeeps(p, open, ch);
    }
  }

  lemma ParseUrlCharIsUrlState(s: State, ch: char)
    ensures ParseUrlChar(s, ch).Dead? || IsUrlState(ParseUrlChar(s, ch))
  {
  }

  lemma UrlKeeps(p: Parser, open: Option<Datum>, ch: char)
    requires Inv(p) && OpenOk(p.state, open) && (p.state.ReqSpacesBeforeUrl? || IsUrlState(p.state))
    ensures Keeps(p, open, TransUrl(p, ch))
  {
    hide MethodString, ParseUrlChar;
    ParseUrlCharIsUrlState(p.state, ch);
    ParseUrlCharIsUrlState(ReqServerStart, ch);
  }

  lemma RequestProtocolKeeps(p: Parser, open: Option<Datum>, ch: char)
    requires Inv(p) && OpenOk(p.state, open)
    requires p.state.ReqHttpStart? || p.state.ReqHttpH? || p.state.ReqHttpHT? || p.state.ReqHttpHTT? || p.state.ReqHttpHTTP?
    ensures Keeps(p, open, TransRequestVersion(p, ch))
  {
    hide MethodString;
  }

  lemma RequestNumberKeeps(p: Parser, open: Option<Datum>, ch: char)
    requires Inv(p) && OpenOk(p.state, open) && IsRequestVersionState(p.state)
    requires !(p.state.ReqHttpStart? || p.state.ReqHttpH? || p.state.ReqHttpHT? || p.state.ReqHttpHTT? || p.state.ReqHttpHTTP?)
    ensures Keeps(p, open, TransRequestVersion(p, ch))
  {
    hide MethodString;
  }

  lemma RequestVersionKeeps(p: Parser, open: Option<Datum>, ch: char)
    requires Inv(p) && OpenOk(p.state, open) && IsRequestVersionState(p.state)
    ensures Keeps(p, open, TransRequestVersion(p, ch))
  {
    hide MethodString, TransRequestVersion, Keeps, OpenOk, Inv;
    if p.state.ReqHttpStart? || p.state.ReqHttpH? || p.state.ReqHttpHT? || p.state.ReqHttpHTT? || p.state.ReqHttpHTTP? {
      RequestProtocolKeeps(p, open, ch);
    } else {
      RequestNumberKeeps(p, open, ch);
    }
  }

  /** What one more byte of a keyword keeps, whichever of the two recognisers it is for. */
  lemma MatchWordKeeps(p: Parser, c: char, word: string, done: HeaderState, miss: HeaderState)
    requires p.index < |word| - 1
    ensures var q := MatchWord(p, c, word, done, miss);
      && q.index == p.index + 1 && q.headerState in {p.headerState, done, miss}
      && q == p.(index := q.index, headerState := q.headerState)
      && (q.headerState == p.headerState ==> q.index < |word| - 1 || p.headerState in {done, miss})
  {
  }

  /** What a name byte may change: the recogniser, and the content-length flag. */
  predicate NameByteOk(p: Parser, q: Parser) {
    && q == p.(index := q.index, headerState := q.headerState, flags := q.flags, errno := q.errno)
    && q.index <= 17
    && (q.errno.Ok? ==> NameState(q.headerState, q.index))
    && (q.errno.Ok? || q.errno.UnexpectedContentLength?)
  }

  lemma NameByteKeeps(p: Parser, c: char)
    requires p.errno.Ok? && p.index <= 17 && NameState(p.headerState, p.index)
    ensures NameByteOk(p, NameByte(p, c))
  {
    hide MatchWord;
    match p.headerState
    case MatchingConnection => MatchWordKeeps(p, c, CONNECTION, HeaderState.Connection, General);
    case MatchingProxyConnection => MatchWordKeeps(p, c, PROXY_CONNECTION, HeaderState.Connection, General);
    case MatchingContentLength => MatchWordKeeps(p, c, CONTENT_LENGTH, HeaderState.ContentLength, General);
    case MatchingTransferEncoding => MatchWordKeeps(p, c, TRANSFER_ENCODING, HeaderState.TransferEncoding, General);
    case MatchingUpgrade => MatchWordKeeps(p, c, UPGRADE, HeaderState.Upgrade, General);
    case _ =>
  }

  lemma NameKeeps(p: Parser, open: Option<Datum>, ch: char)
    requires Inv(p) && OpenOk(p.state, open) && (p.state.HeaderFieldStart? || p.state.HeaderField?)
    ensures Keeps(p, open, TransName(p, ch))
  {
    hide MethodString, NameByte;
    if p.state.HeaderField? {
      NameByteKeeps(p, Token(ch));
    }
  }

  /** What a value byte may change: the recogniser, the connection flags and the length. */
  predicate ValueByteOk(p: Parser, q: Parser) {
    && q == p.(index := q.index, headerState := q.headerState, flags := q.flags, errno := q.errno,
               contentLength := q.contentLength)
    && q.index <= 17
    && ValueState(q.headerState, q.index)
    && 0 <= q.contentLength < TWO64
    && (q.headerState.ContentLength? ==> q.contentLength <= MAX_DECIMAL)
    && (q.errno.Ok? || q.errno.InvalidContentLength?)
  }

  lemma ValueByteKeeps(p: Parser, ch: char)
    requires p.errno.Ok? && p.index <= 17 && ValueState(p.headerState, p.index) && 0 <= p.contentLength < TWO64
    requires p.headerState.ContentLength? ==> p.contentLength <= MAX_DECIMAL
    ensures ValueByteOk(p, ValueByte(p, ch))
    ensures p.headerState.General? ==> ValueByte(p, ch) == p
  {
    hide MatchWord, Lower, Token;
    var c := Lower(ch);
    match p.headerState
    case MatchingChunked => MatchWordKeeps(p, c, CHUNKED, HeaderState.Chunked, General);
    case MatchingKeepAlive => MatchWordKeeps(p, c, KEEP_ALIVE, ConnKeepAlive, MatchingToken);
    case MatchingClose => MatchWordKeeps(p, c, CLOSE, ConnClose, MatchingToken);
    case MatchingConnUpgrade => MatchWordKeeps(p, c, UPGRADE, ConnUpgrade, MatchingToken);
    case _ =>
  }

  lemma ValueKeeps(p: Parser, open: Option<Datum>, skipping: bool, ch: char)
    requires Inv(p) && OpenOk(p.state, open) && p.state.HeaderValue?
    ensures Keeps(p, open, TransValue(p, skipping, ch))
  {
    hide MethodString, ValueByte;
    ValueByteKeeps(p, ch);
  }

  lemma ValueStartKeeps(p: Parser, open: Option<Datum>, ch: char)
    requires Inv(p) && OpenOk(p.state, open) && (p.state.HeaderValueDiscardWs? || p.state.HeaderValueStart?)
    ensures Keeps(p, open, TransValueStart(p, ch))
  {
    hide MethodString, Lower;
  }

  lemma FinishHeaderKeeps(p: Parser)
    ensures FinishHeader(p) == p.(flags := FinishHeader(p).flags)
  {
  }

  lemma LineEndKeeps(p: Parser, open: Option<Datum>, ch: char)
    requires Inv(p) && OpenOk(p.state, open) && IsLineEndState(p.state)
    ensures Keeps(p, open, TransLineEnd(p, ch))
  {
    hide MethodString, TransValueStart, FinishHeader;
    if p.state.HeaderValueDiscardWs? || p.state.HeaderValueStart? {
      ValueStartKeeps(p, open, ch);
    }
    FinishHeaderKeeps(p);
  }

  lemma HeadersAlmostDoneKeeps(p: Parser, open: Option<Datum>, ch: char)
    requires Inv(p) && OpenOk(p.state, open) && p.state.HeadersAlmostDone?
    ensures Keeps(p, open, TransHeadersAlmostDone(p, ch))
  {
    hide MethodString;
  }

  /** Between messages there is nothing to keep. */
  lemma CompleteKeeps(p: Parser, open: Option<Datum>, control: Control)
    requires Inv(p) && open.None? && !control.Fail?
    ensures Keeps(p, open, Complete(p, control))
  {
    hide ShouldKeepAlive, MethodString;
  }

  /** A body begins, and nothing is collected yet. */
  lemma BodyBeginKeeps(p: Parser, open: Option<Datum>, s: State)
    requires Inv(p) && open.None? && ResetsCount(p.state)
    requires s.ChunkSizeStart? || s.BodyIdentity? || s.BodyIdentityEof?
    requires s.ChunkSizeStart? ==> p.flags.chunked
    requires s.BodyIdentity? ==> p.contentLength != 0 && p.contentLength != ABSENT
    ensures Keeps(p, open, Next(p, s))
  {
    hide MethodString;
  }

  lemma FailKeeps(p: Parser, open: Option<Datum>, e: Errno)
    requires !e.Ok?
    ensures Keeps(p, open, FailWith(p, e))
  {
    hide Inv, OpenOk;
  }

  lemma NothingOpen(s: State, open: Option<Datum>)
    requires OpenOk(s, open) && s.HeadersDone?
    ensures open.None?
  {
  }

  lemma HeadersDoneKeeps(p: Parser, open: Option<Datum>, ch: char)
    requires Inv(p) && OpenOk(p.state, open) && p.state.HeadersDone?
    ensures Keeps(p, open, TransHeadersDone(p, ch))
  {
    hide Complete, MessageNeedsEof, HasBody, Keeps, Inv, OpenOk, Next, FailWith;
    NothingOpen(p.state, open);
    FailKeeps(p, open, StrictFailed);
    CompleteKeeps(p, open, Exit);
    CompleteKeeps(p, open, Advance);
    if p.flags.chunked {
      BodyBeginKeeps(p, open, ChunkSizeStart);
    }
    if p.contentLength != 0 && p.contentLength != ABSENT {
      BodyBeginKeeps(p, open, BodyIdentity);
    }
    BodyBeginKeeps(p, open, BodyIdentityEof);
  }

  lemma ChunkSizeKeeps(p: Parser, open: Option<Datum>, ch: char)
    requires Inv(p) && OpenOk(p.state, open)
    requires p.state.ChunkSizeStart? || p.state.ChunkSize? || p.state.ChunkParameters?
    ensures Keeps(p, open, TransBody(p, ch))
  {
    hide MethodString, Unhex;
  }

  lemma ChunkDataKeeps(p: Parser, open: Option<Datum>, ch: char)
    requires Inv(p) && OpenOk(p.state, open)
    requires p.state.ChunkSizeAlmostDone? || p.state.ChunkData? || p.state.ChunkDataAlmostDone? || p.state.ChunkDataDone?
    ensures Keeps(p, open, TransBody(p, ch))
  {
    hide MethodString, Unhex;
  }

  lemma BodyKeeps(p: Parser, open: Option<Datum>, ch: char)
    requires Inv(p) && OpenOk(p.state, open) && IsBodyState(p.state)
    ensures Keeps(p, open, TransBody(p, ch))
  {
    hide ShouldKeepAlive, MessageNeedsEof, MethodString, Unhex;
    if p.state.ChunkSizeStart? || p.state.ChunkSize? || p.state.ChunkParameters? {
      ChunkSizeKeeps(p, open, ch);
    } else if !p.state.BodyIdentity? && !p.state.BodyIdentityEof? && !p.state.MessageDone? {
      ChunkDataKeeps(p, open, ch);
    }
  }

  lemma TransitionKeeps(p: Parser, open: Option<Datum>, skipping: bool, ch: char)
    requires Inv(p) && OpenOk(p.state, open)
    ensures Keeps(p, open, Transition(p, skipping, ch))
  {
    hide MethodString;
    var s := p.state;
    if IsBodyState(s) { BodyKeeps(p, open, ch); }
    else if s.HeaderValue? { ValueKeeps(p, open, skipping, ch); }
    else if s.HeaderField? || s.HeaderFieldStart? { NameKeeps(p, open, ch); }
    else if IsLineEndState(s) { LineEndKeeps(p, open, ch); }
    else if s.HeadersAlmostDone? { HeadersAlmostDoneKeeps(p, open, ch); }
    else if s.HeadersDone? { HeadersDoneKeeps(p, open, ch); }
    else if IsUrlState(s) || s.ReqSpacesBeforeUrl? { UrlKeeps(p, open, ch); }
    else if IsRequestVersionState(s) { RequestVersionKeeps(p, open, ch); }
    else if IsResponseLineState(s) { ResponseLineKeeps(p, open, ch); }
    else if s.ReqMethod? { MethodKeeps(p, open, ch); }
    else { StartKeeps(p, open, ch); }
  }

  // ---- Runs ------------------------------------------------------------------------------

  /** A chunk size is read from a fresh header count. */
  predicate CountOk(p: Parser, count: nat) { p.state.ChunkSizeStart? ==> count == 0 }

  /** A run that has not stopped keeps everything; one that failed says why. */
  predicate RunOk(r: Run) {
    && !r.control.Reexecute?
    && (r.control.Fail? <==> !r.parser.errno.Ok?)
    && (!r.control.Fail? ==> Inv(r.parser) && CountOk(r.parser, r.headerBytes))
    && (!r.control.Fail? ==> OpenOk(r.parser.state, r.open))
    && (r.control.Exit? ==> r.open.None?)
    && (r.control.Advance? && r.skipping ==> r.parser.state.HeaderValue? && r.parser.headerState.General?)
  }

  lemma OpenOkExtend(s: State, open: Option<Datum>, ch: char)
    requires OpenOk(s, open)
    ensures OpenOk(s, Extend(open, ch))
  {
  }

  lemma {:induction false} SettleKeeps(r: Run, ch: char)
    requires r.control.Advance? && Inv(r.parser) && OpenOk(r.parser.state, r.open)
    ensures RunOk(Settle(r, ch))
    decreases Rank(r.parser.state)
  {
    hide Transition, Inv, OpenOk, OpFits;
    var o := Transition(r.parser, r.skipping, ch);
    TransitionKeeps(r.parser, r.open, r.skipping, ch);
    var open := OpenAfter(o.op, r.open);
    if o.control.Reexecute? {
      SettleKeeps(Settled(r, ch), ch);
    } else if o.control.Advance? {
      OpenOkExtend(o.parser.state, open, ch);
    }
  }

  lemma StepKeeps(r: Run, ch: char)
    requires RunOk(r)
    ensures RunOk(Step(r, ch))
  {
    hide Settle, StateOk, OpenOk;
    if r.control.Advance? {
      SettleKeeps(Count(r), ch);
    }
  }

  lemma {:induction false} RunBytesKeeps(r: Run, data: string)
    requires RunOk(r)
    ensures RunOk(RunBytes(r, data))
  {
    hide Step, RunOk;
    if data != "" {
      RunBytesKeeps(r, data[..|data| - 1]);
      StepKeeps(RunBytes(r, data[..|data| - 1]), data[|data| - 1]);
    }
  }

  lemma BeginOk(p: Parser, count: nat)
    requires Inv(p) && CountOk(p, count)
    ensures RunOk(Begin(p, count))
  {
    hide StateOk;
  }

  /** Every call on a reachable parser ends in a reachable parser, or with an error. */
  lemma CallKeeps(p: Parser, count: nat, data: string)
    requires Inv(p) && CountOk(p, count)
    ensures var r := Call(p, count, data);
      if r.control.Fail? then !r.parser.errno.Ok? else Inv(r.parser) && CountOk(r.parser, r.headerBytes)
  {
    hide RunBytes, Inv, CountOk, OpenOk;
    BeginOk(p, count);
    RunBytesKeeps(Begin(p, count), data);
  }
}
