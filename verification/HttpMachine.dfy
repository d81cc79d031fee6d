/** The parser as a machine that reads one byte at a time.

    `Transition` is one pass through the state switch for one byte.  What a pass does to the
    data callbacks is left symbolic, as the `Op`s its macros stand for, so that this machine and
    the buffer loop of HttpExecute can each give them their own meaning: here an open datum is
    the bytes seen since its mark, there it is an index into the buffer. */
module HttpMachine {
  import opened Options
  import opened HttpTypes

  // ---- URL characters ------------------------------------------------------------------

  function ParseUrlChar(s: State, ch: char): State {
    if ch == ' ' || ch == CR || ch == LF || ch == '\t' || ch == '\U{0C}' then Dead
    else match s
      case ReqSpacesBeforeUrl =>
        if ch == '/' || ch == '*' then ReqPath else if IsAlpha(ch) then ReqSchema else Dead
      case ReqSchema =>
        if IsAlpha(ch) then s else if ch == ':' then ReqSchemaSlash else Dead
      case ReqSchemaSlash => if ch == '/' then ReqSchemaSlashSlash else Dead
      case ReqSchemaSlashSlash => if ch == '/' then ReqServerStart else Dead
      case ReqServerWithAt => if ch == '@' then Dead else ParseServerChar(ch)
      case ReqServerStart => ParseServerChar(ch)
      case ReqServer => ParseServerChar(ch)
      case ReqPath =>
        if IsUrlChar(ch) then s
        else if ch == '?' then ReqQueryStringStart
        else if ch == '#' then ReqFragmentStart
        else Dead
      case ReqQueryStringStart => ParseQueryChar(ch)
      case ReqQueryString => ParseQueryChar(ch)
      case ReqFragmentStart =>
        if IsUrlChar(ch) || ch == '?' then ReqFragment else if ch == '#' then s else Dead
      case ReqFragment =>
        if IsUrlChar(ch) || ch == '?' || ch == '#' then s else Dead
      case _ => Dead
  }

  function ParseServerChar(ch: char): State {
    if ch == '/' then ReqPath
    else if ch == '?' then ReqQueryStringStart
    else if ch == '@' then ReqServerWithAt
    else if IsUserinfoChar(ch) || ch == '[' || ch == ']' then ReqServer
    else Dead
  }

  function ParseQueryChar(ch: char): State {
    if IsUrlChar(ch) || ch == '?' then ReqQueryString
    else if ch == '#' then ReqFragmentStart
    else Dead
  }

  // ---- One pass through the switch -----------------------------------------------------

  /** The macros a pass expands: MARK, CALLBACK_DATA, CALLBACK_NOTIFY, and the two passes with
      both MARK and CALLBACK_DATA, an empty header value and the last byte of a body, which
      is delivered with the current byte included. */
  datatype Op =
    | Nothing
    | Mark(kind: DataKind)
    | Flush(kind: DataKind)
    | MarkThenFlush(kind: DataKind)
    | MarkThenFlushIncl(kind: DataKind)
    | Notify(event: Event)

  datatype Control = Advance | Reexecute | Fail | Exit

  /** `skipping` says that the byte was read inside a header value whose meaning no longer
      matters, which is where the buffer loop searches for the line end instead of looking at
      the bytes. */
  datatype Outcome = Outcome(parser: Parser, skipping: bool, op: Op, control: Control)

  /** How often the switch can still be entered again for the same byte. */
  function Rank(s: State): nat {
    match s
    case HeaderValue => 5
    case HeaderValueLws => 4
    case HeaderValueDiscardLws => 4
    case HeaderValueStart => 3
    case HeaderFieldStart => 3
    case HeadersAlmostDone => 2
    case StartReqOrRes => 1
    case BodyIdentity => 1
    case _ => 0
  }

  /** The states whose bytes the buffer loop does not take one by one. */
  predicate IsBlockState(s: State) {
    s.HeaderField? || s.HeaderValue? || s.ChunkData? || s.BodyIdentity? || s.BodyIdentityEof?
  }

  /** Where a pass can lead: a byte is looked at again only in a state of lower rank, and only
      in one that takes bytes one by one. */
  predicate Descends(p: Parser, o: Outcome) {
    && (o.control.Reexecute? ==>
          && Rank(o.parser.state) < Rank(p.state)
          && !IsBlockState(o.parser.state) && !o.parser.state.ChunkSizeStart? && !o.skipping)
    && (o.skipping ==> p.state.HeaderValue?)
    && (o.parser.errno.HeaderOverflow? ==> p.errno.HeaderOverflow?)
  }

  function Next(p: Parser, s: State): Outcome { Outcome(p.(state := s), false, Nothing, Advance) }
  function Stay(p: Parser): Outcome { Outcome(p, false, Nothing, Advance) }
  function Again(p: Parser, s: State): Outcome { Outcome(p.(state := s), false, Nothing, Reexecute) }
  function FailWith(p: Parser, e: Errno): Outcome { Outcome(p.(errno := e), false, Nothing, Fail) }

  /** STRICT_CHECK: the byte must be `want`. */
  function Expect(p: Parser, ch: char, want: char, e: Errno, s: State): Outcome {
    if ch == want then Next(p, s) else FailWith(p, e)
  }

  predicate MessageNeedsEof(p: Parser) {
    !p.kind.Request?
    && !(100 <= p.statusCode < 200 || p.statusCode == 204 || p.statusCode == 304)
    && !(p.flags.chunked || p.contentLength != ABSENT)
  }

  predicate ShouldKeepAlive(p: Parser) {
    (if p.httpMajor > 0 && p.httpMinor > 0 then !p.flags.connClose else p.flags.connKeepAlive)
    && !MessageNeedsEof(p)
  }

  function NewMessage(p: Parser): State {
    if !ShouldKeepAlive(p) then Dead else if p.kind.Request? then StartReq else StartRes
  }

  function MessageEnd(p: Parser): Event { MessageComplete(p.verb, p.statusCode) }

  /** UPDATE_STATE(NEW_MESSAGE()); CALLBACK_NOTIFY(message_complete). */
  function Complete(p: Parser, control: Control): Outcome {
    Outcome(p.(state := NewMessage(p)), false, Notify(MessageEnd(p)), control)
  }

  function TransStart(p: Parser, ch: char): (o: Outcome)
    requires p.state.Dead? || p.state.StartReqOrRes? || p.state.ResOrRespH? || p.state.StartRes? || p.state.StartReq?
    ensures Descends(p, o)
  {
    match p.state
    case Dead => if ch == CR || ch == LF then Stay(p) else FailWith(p, ClosedConnection)
    case StartReqOrRes =>
      if ch == CR || ch == LF then Stay(p)
      else
        var q := p.(flags := NO_FLAGS, contentLength := ABSENT);
        if ch == 'H' then Outcome(q.(state := ResOrRespH), false, Notify(MessageBegin), Advance)
        else Again(q.(kind := Request), StartReq)
    case ResOrRespH =>
      if ch == 'T' then Next(p.(kind := Response), ResHT)
      else if ch == 'E' then Next(p.(kind := Request, verb := HEAD, index := 2), ReqMethod)
      else FailWith(p, InvalidConstant)
    case StartRes =>
      var q := p.(flags := NO_FLAGS, contentLength := ABSENT);
      if ch == 'H' then Outcome(q.(state := ResH), false, Notify(MessageBegin), Advance)
      else if ch == CR || ch == LF then Outcome(q, false, Notify(MessageBegin), Advance)
      else FailWith(q, InvalidConstant)
    case StartReq =>
      if ch == CR || ch == LF then Stay(p)
      else
        var q := p.(flags := NO_FLAGS, contentLength := ABSENT);
        match FirstMethod(ch)
        case None => FailWith(if IsAlpha(ch) then q.(verb := DELETE, index := 1) else q, InvalidMethod)
        case Some(m) =>
          Outcome(q.(verb := m, index := 1, state := ReqMethod), false, Notify(MessageBegin), Advance)
  }

  function FirstMethod(ch: char): Option<Method> {
    if ch == 'A' then Some(ACL)
    else if ch == 'B' then Some(BIND)
    else if ch == 'C' then Some(CONNECT)
    else if ch == 'D' then Some(DELETE)
    else if ch == 'G' then Some(GET)
    else if ch == 'H' then Some(HEAD)
    else if ch == 'L' then Some(LOCK)
    else if ch == 'M' then Some(MKCOL)
    else if ch == 'N' then Some(NOTIFY)
    else if ch == 'O' then Some(OPTIONS)
    else if ch == 'P' then Some(POST)
    else if ch == 'R' then Some(REPORT)
    else if ch == 'S' then Some(SUBSCRIBE)
    else if ch == 'T' then Some(TRACE)
    else if ch == 'U' then Some(UNLOCK)
    else None
  }

  /** Where the bytes so far fit two methods, the one to try next. */
  function SwitchMethod(m: Method, index: int, ch: char): Option<Method> {
    if m == POST && index == 1 && ch == 'U' then Some(PUT)
    else if m == POST && index == 1 && ch == 'A' then Some(PATCH)
    else if m == CONNECT && index == 1 && ch == 'H' then Some(CHECKOUT)
    else if m == CONNECT && index == 2 && ch == 'P' then Some(COPY)
    else if m == MKCOL && index == 1 && ch == 'O' then Some(MOVE)
    else if m == MKCOL && index == 1 && ch == 'E' then Some(MERGE)
    else if m == MKCOL && index == 2 && ch == 'A' then Some(MKACTIVITY)
    else if m == MKCOL && index == 3 && ch == 'A' then Some(MKCALENDAR)
    else if m == SUBSCRIBE && index == 1 && ch == 'E' then Some(SEARCH)
    else if m == REPORT && index == 2 && ch == 'B' then Some(REBIND)
    else if m == POST && index == 1 && ch == 'R' then Some(PROPFIND)
    else if m == PROPFIND && index == 4 && ch == 'P' then Some(PROPPATCH)
    else if m == PUT && index == 2 && ch == 'R' then Some(PURGE)
    else if m == LOCK && index == 1 && ch == 'I' then Some(LINK)
    else if m == UNLOCK && index == 2 && ch == 'S' then Some(UNSUBSCRIBE)
    else if m == UNLOCK && index == 2 && ch == 'B' then Some(UNBIND)
    else if m == UNLOCK && index == 3 && ch == 'I' then Some(UNLINK)
    else if m == MKCOL && index == 1 && ch == '-' then Some(MSEARCH)
    else None
  }

  function TransMethod(p: Parser, ch: char): (o: Outcome)
    requires p.state.ReqMethod?
    ensures Descends(p, o)
  {
    var want := At(MethodString(p.verb), p.index);
    var q := p.(index := p.index + 1);
    if ch == '\0' then FailWith(p, InvalidMethod)
    else if ch == ' ' && want == '\0' then Next(q, ReqSpacesBeforeUrl)
    else if ch == want then Stay(q)
    else match SwitchMethod(p.verb, p.index, ch)
      case None => FailWith(p, InvalidMethod)
      case Some(m) => Stay(q.(verb := m))
  }

  /** One more digit of a number that may not exceed 999. */
  function MoreDigits(value: int, ch: char): int
    requires IsNum(ch)
  {
    value * 10 + Digit(ch)
  }

  predicate IsResponseLineState(s: State) {
    s.ResH? || s.ResHT? || s.ResHTT? || s.ResHTTP? || s.ResFirstHttpMajor? || s.ResHttpMajor?
    || s.ResFirstHttpMinor? || s.ResHttpMinor? || s.ResFirstStatusCode? || s.ResStatusCode?
    || s.ResStatusStart? || s.ResStatus? || s.ResLineAlmostDone?
  }

  function TransResponseLine(p: Parser, ch: char): (o: Outcome)
    requires IsResponseLineState(p.state)
    ensures Descends(p, o)
  {
    match p.state
    case ResH => Expect(p, ch, 'T', StrictFailed, ResHT)
    case ResHT => Expect(p, ch, 'T', StrictFailed, ResHTT)
    case ResHTT => Expect(p, ch, 'P', StrictFailed, ResHTTP)
    case ResHTTP => Expect(p, ch, '/', StrictFailed, ResFirstHttpMajor)
    case ResFirstHttpMajor =>
      if IsNum(ch) then Next(p.(httpMajor := Digit(ch)), ResHttpMajor) else FailWith(p, InvalidVersion)
    case ResHttpMajor =>
      if ch == '.' then Next(p, ResFirstHttpMinor)
      else if !IsNum(ch) then FailWith(p, InvalidVersion)
      else
        var q := p.(httpMajor := MoreDigits(p.httpMajor, ch));
        if q.httpMajor > 999 then FailWith(q, InvalidVersion) else Stay(q)
    case ResFirstHttpMinor =>
      if IsNum(ch) then Next(p.(httpMinor := Digit(ch)), ResHttpMinor) else FailWith(p, InvalidVersion)
    case ResHttpMinor =>
      if ch == ' ' then Next(p, ResFirstStatusCode)
      else if !IsNum(ch) then FailWith(p, InvalidVersion)
      else
        var q := p.(httpMinor := MoreDigits(p.httpMinor, ch));
        if q.httpMinor > 999 then FailWith(q, InvalidVersion) else Stay(q)
    case ResFirstStatusCode =>
      if IsNum(ch) then Next(p.(statusCode := Digit(ch)), ResStatusCode)
      else if ch == ' ' then Stay(p)
      else FailWith(p, InvalidStatus)
    case ResStatusCode =>
      if IsNum(ch) then
        var q := p.(statusCode := MoreDigits(p.statusCode, ch));
        if q.statusCode > 999 then FailWith(q, InvalidStatus) else Stay(q)
      else if ch == ' ' then Next(p, ResStatusStart)
      else if ch == CR then Next(p, ResLineAlmostDone)
      else if ch == LF then Next(p, HeaderFieldStart)
      else FailWith(p, InvalidStatus)
    case ResStatusStart =>
      if ch == CR then Next(p, ResLineAlmostDone)
      else if ch == LF then Next(p, HeaderFieldStart)
      else Outcome(p.(state := ResStatus, index := 0), false, Mark(Status), Advance)
    case ResStatus =>
      if ch == CR then Outcome(p.(state := ResLineAlmostDone), false, Flush(Status), Advance)
      else if ch == LF then Outcome(p.(state := HeaderFieldStart), false, Flush(Status), Advance)
      else Stay(p)
    case ResLineAlmostDone => Expect(p, ch, LF, StrictFailed, HeaderFieldStart)
  }

  function UrlByte(p: Parser, s: State, op: Op, ch: char): Outcome {
    var s' := ParseUrlChar(s, ch);
    if s'.Dead? then Outcome(p.(state := Dead, errno := InvalidUrl), false, op, Fail)
    else Outcome(p.(state := s'), false, op, Advance)
  }

  function TransUrl(p: Parser, ch: char): (o: Outcome)
    requires p.state.ReqSpacesBeforeUrl? || IsUrlState(p.state)
    ensures Descends(p, o)
  {
    if p.state.ReqSpacesBeforeUrl? then
      if ch == ' ' then Stay(p)
      else UrlByte(p, if p.verb == CONNECT then ReqServerStart else ReqSpacesBeforeUrl, Mark(Url), ch)
    else if p.state.ReqSchema? || p.state.ReqSchemaSlash? || p.state.ReqSchemaSlashSlash? || p.state.ReqServerStart? then
      if ch == ' ' || ch == CR || ch == LF then FailWith(p, InvalidUrl)
      else UrlByte(p, p.state, Nothing, ch)
    else if ch == ' ' then Outcome(p.(state := ReqHttpStart), false, Flush(Url), Advance)
    else if ch == CR || ch == LF then
      Outcome(p.(httpMajor := 0, httpMinor := 9, state := if ch == CR then ReqLineAlmostDone else HeaderFieldStart),
              false, Flush(Url), Advance)
    else UrlByte(p, p.state, Nothing, ch)
  }

  predicate IsRequestVersionState(s: State) {
    s.ReqHttpStart? || s.ReqHttpH? || s.ReqHttpHT? || s.ReqHttpHTT? || s.ReqHttpHTTP?
    || s.ReqFirstHttpMajor? || s.ReqHttpMajor? || s.ReqFirstHttpMinor? || s.ReqHttpMinor? || s.ReqLineAlmostDone?
  }

  function TransRequestVersion(p: Parser, ch: char): (o: Outcome)
    requires IsRequestVersionState(p.state)
    ensures Descends(p, o)
  {
    match p.state
    case ReqHttpStart =>
      if ch == 'H' then Next(p, ReqHttpH) else if ch == ' ' then Stay(p) else FailWith(p, InvalidConstant)
    case ReqHttpH => Expect(p, ch, 'T', StrictFailed, ReqHttpHT)
    case ReqHttpHT => Expect(p, ch, 'T', StrictFailed, ReqHttpHTT)
    case ReqHttpHTT => Expect(p, ch, 'P', StrictFailed, ReqHttpHTTP)
    case ReqHttpHTTP => Expect(p, ch, '/', StrictFailed, ReqFirstHttpMajor)
    case ReqFirstHttpMajor =>
      if '1' <= ch <= '9' then Next(p.(httpMajor := Digit(ch)), ReqHttpMajor) else FailWith(p, InvalidVersion)
    case ReqHttpMajor =>
      if ch == '.' then Next(p, ReqFirstHttpMinor)
      else if !IsNum(ch) then FailWith(p, InvalidVersion)
      else
        var q := p.(httpMajor := MoreDigits(p.httpMajor, ch));
        if q.httpMajor > 999 then FailWith(q, InvalidVersion) else Stay(q)
    case ReqFirstHttpMinor =>
      if IsNum(ch) then Next(p.(httpMinor := Digit(ch)), ReqHttpMinor) else FailWith(p, InvalidVersion)
    case ReqHttpMinor =>
      if ch == CR then Next(p, ReqLineAlmostDone)
      else if ch == LF then Next(p, HeaderFieldStart)
      else if !IsNum(ch) then FailWith(p, InvalidVersion)
      else
        var q := p.(httpMinor := MoreDigits(p.httpMinor, ch));
        if q.httpMinor > 999 then FailWith(q, InvalidVersion) else Stay(q)
    case ReqLineAlmostDone => Expect(p, ch, LF, LfExpected, HeaderFieldStart)
  }

  // ---- Header names --------------------------------------------------------------------

  function StartName(c: char): HeaderState {
    if c == 'c' then SeenC
    else if c == 'p' then MatchingProxyConnection
    else if c == 't' then MatchingTransferEncoding
    else if c == 'u' then MatchingUpgrade
    else General
  }

  /** One more byte of a keyword: `miss` when it differs, `done` on the last byte. */
  function MatchWord(p: Parser, c: char, word: string, done: HeaderState, miss: HeaderState): Parser
  {
    var q := p.(index := p.index + 1);
    if q.index > |word| || c != At(word, q.index) then q.(headerState := miss)
    else if q.index == |word| - 1 then q.(headerState := done)
    else q
  }

  /** The effect of one token byte `c` on the name recogniser. */
  function NameByte(p: Parser, c: char): Parser
  {
    match p.headerState
    case SeenC => p.(index := p.index + 1, headerState := if c == 'o' then SeenCO else General)
    case SeenCO => p.(index := p.index + 1, headerState := if c == 'n' then SeenCON else General)
    case SeenCON =>
      p.(index := p.index + 1,
         headerState := if c == 'n' then MatchingConnection else if c == 't' then MatchingContentLength else General)
    case MatchingConnection => MatchWord(p, c, CONNECTION, HeaderState.Connection, General)
    case MatchingProxyConnection => MatchWord(p, c, PROXY_CONNECTION, HeaderState.Connection, General)
    case MatchingContentLength =>
      var q := MatchWord(p, c, CONTENT_LENGTH, HeaderState.ContentLength, General);
      if !q.headerState.ContentLength? then q
      else if p.flags.contentLength then
        q.(headerState := MatchingContentLength, errno := UnexpectedContentLength)
      else q.(flags := q.flags.(contentLength := true))
    case MatchingTransferEncoding => MatchWord(p, c, TRANSFER_ENCODING, HeaderState.TransferEncoding, General)
    case MatchingUpgrade => MatchWord(p, c, UPGRADE, HeaderState.Upgrade, General)
    // a token byte is never a space, so a finished keyword is given up here
    case Connection => p.(headerState := General)
    case ContentLength => p.(headerState := General)
    case TransferEncoding => p.(headerState := General)
    case Upgrade => p.(headerState := General)
    case _ => p
  }

  function TransName(p: Parser, ch: char): (o: Outcome)
    requires (p.state.HeaderFieldStart? || p.state.HeaderField?)
    ensures Descends(p, o)
  {
    var c := Token(ch);
    if p.state.HeaderFieldStart? then
      if ch == CR then Next(p, HeadersAlmostDone)
      else if ch == LF then Again(p, HeadersAlmostDone)
      else if c == '\0' then FailWith(p, InvalidHeaderToken)
      else Outcome(p.(index := 0, state := HeaderField, headerState := StartName(c)), false, Mark(Field), Advance)
    else if c != '\0' then
      var q := NameByte(p, c);
      if q.errno != p.errno then Outcome(q, false, Nothing, Fail) else Stay(q)
    else if ch == ':' then Outcome(p.(state := HeaderValueDiscardWs), false, Flush(Field), Advance)
    else FailWith(p, InvalidHeaderToken)
  }

  // ---- Header values -------------------------------------------------------------------

  function StartToken(c: char): HeaderState {
    if c == 'k' then MatchingKeepAlive
    else if c == 'c' then MatchingClose
    else if c == 'u' then MatchingConnUpgrade
    else MatchingToken
  }

  /** s_header_value_start: the first byte of a value, or of a folded continuation line. */
  function TransValueStart(p: Parser, ch: char): (o: Outcome)
    ensures Descends(p, o)
  {
    var q := p.(state := HeaderValue, index := 0);
    var c := Lower(ch);
    var op := Mark(Value);
    match p.headerState
    case Upgrade =>
      Outcome(q.(flags := q.flags.(upgrade := true), headerState := General), false, op, Advance)
    case TransferEncoding =>
      Outcome(q.(headerState := if c == 'c' then MatchingChunked else General), false, op, Advance)
    case ContentLength =>
      if IsNum(ch) then Outcome(q.(contentLength := Digit(ch)), false, op, Advance)
      else Outcome(q.(errno := InvalidContentLength), false, op, Fail)
    case Connection => Outcome(q.(headerState := StartToken(c)), false, op, Advance)
    case MatchingTokenStart => Outcome(q, false, op, Advance)
    case _ => Outcome(q.(headerState := General), false, op, Advance)
  }

  /** The effect of one value byte on the value recogniser; sets `errno` for a bad length. */
  function ValueByte(p: Parser, ch: char): Parser
  {
    var c := Lower(ch);
    match p.headerState
    case General => p
    case ContentLength =>
      if ch == ' ' then p
      else if !IsNum(ch) || (ABSENT - 10) / 10 < p.contentLength then p.(errno := InvalidContentLength)
      else p.(contentLength := (p.contentLength * 10 + Digit(ch)) % TWO64)
    case MatchingChunked => MatchWord(p, c, CHUNKED, HeaderState.Chunked, General)
    case MatchingTokenStart =>
      if c == 'k' || c == 'c' || c == 'u' then p.(headerState := StartToken(c))
      else if Token(c) != '\0' then p.(headerState := MatchingToken)
      else if c == ' ' || c == '\t' then p
      else p.(headerState := General)
    case MatchingKeepAlive => MatchWord(p, c, KEEP_ALIVE, ConnKeepAlive, MatchingToken)
    case MatchingClose => MatchWord(p, c, CLOSE, ConnClose, MatchingToken)
    case MatchingConnUpgrade => MatchWord(p, c, UPGRADE, ConnUpgrade, MatchingToken)
    case MatchingToken => if ch == ',' then p.(headerState := MatchingTokenStart, index := 0) else p
    case Chunked => if ch != ' ' then p.(headerState := General) else p
    case ConnKeepAlive => ConnectionTokenEnd(p, ch)
    case ConnClose => ConnectionTokenEnd(p, ch)
    case ConnUpgrade => ConnectionTokenEnd(p, ch)
    case _ => p.(headerState := General)
  }

  function ConnectionTokenEnd(p: Parser, ch: char): Parser {
    if ch == ',' then AddConnectionFlag(p).(headerState := MatchingTokenStart, index := 0)
    else if ch != ' ' then p.(headerState := MatchingToken)
    else p
  }

  function AddConnectionFlag(p: Parser): Parser {
    match p.headerState
    case ConnKeepAlive => p.(flags := p.flags.(connKeepAlive := true))
    case ConnClose => p.(flags := p.flags.(connClose := true))
    case ConnUpgrade => p.(flags := p.flags.(connUpgrade := true))
    case _ => p
  }

  /** The flag a finished header leaves behind. */
  function FinishHeader(p: Parser): Parser {
    if p.headerState.Chunked? then p.(flags := p.flags.(chunked := true)) else AddConnectionFlag(p)
  }

  function TransValue(p: Parser, skipping: bool, ch: char): (o: Outcome)
    requires p.state.HeaderValue?
    ensures Descends(p, o)
  {
    if ch == CR then Outcome(p.(state := HeaderAlmostDone), false, Flush(Value), Advance)
    else if ch == LF then Outcome(p.(state := HeaderAlmostDone), false, Flush(Value), Reexecute)
    else if !skipping && !IsHeaderChar(ch) then FailWith(p, InvalidHeaderToken)
    else
      var q := ValueByte(p, ch);
      if q.errno != p.errno then Outcome(q, false, Nothing, Fail)
      else Outcome(q, p.headerState.General?, Nothing, Advance)
  }

  predicate IsLineEndState(s: State) {
    s.HeaderValueDiscardWs? || s.HeaderValueStart? || s.HeaderAlmostDone? || s.HeaderValueLws?
    || s.HeaderValueDiscardWsAlmostDone? || s.HeaderValueDiscardLws?
  }

  function TransLineEnd(p: Parser, ch: char): (o: Outcome)
    requires IsLineEndState(p.state)
    ensures Descends(p, o)
  {
    match p.state
    case HeaderValueDiscardWs =>
      if ch == ' ' || ch == '\t' then Stay(p)
      else if ch == CR then Next(p, HeaderValueDiscardWsAlmostDone)
      else if ch == LF then Next(p, HeaderValueDiscardLws)
      else TransValueStart(p, ch)
    case HeaderValueStart => TransValueStart(p, ch)
    case HeaderAlmostDone => Expect(p, ch, LF, LfExpected, HeaderValueLws)
    case HeaderValueLws =>
      if ch == ' ' || ch == '\t' then Again(p, HeaderValueStart) else Again(FinishHeader(p), HeaderFieldStart)
    case HeaderValueDiscardWsAlmostDone => Expect(p, ch, LF, StrictFailed, HeaderValueDiscardLws)
    case HeaderValueDiscardLws =>
      if ch == ' ' || ch == '\t' then Next(p, HeaderValueDiscardWs)
      else Outcome(FinishHeader(p).(state := HeaderFieldStart), false, MarkThenFlush(Value), Reexecute)
  }

  // ---- The end of the headers ----------------------------------------------------------

  function TransHeadersAlmostDone(p: Parser, ch: char): (o: Outcome)
    requires p.state.HeadersAlmostDone?
    ensures Descends(p, o)
  {
    if ch != LF then FailWith(p, StrictFailed)
    else if p.flags.trailing then Outcome(p.(state := MessageDone), false, Notify(ChunkComplete), Reexecute)
    else if p.flags.chunked && p.flags.contentLength then FailWith(p, UnexpectedContentLength)
    else
      Outcome(p.(state := HeadersDone, upgrade := (p.flags.upgrade && p.flags.connUpgrade) || p.verb == CONNECT),
              false, Notify(HeadersComplete), Reexecute)
  }

  predicate HasBody(p: Parser) { p.flags.chunked || (p.contentLength > 0 && p.contentLength != ABSENT) }

  /** How the body is framed, or that there is none. */
  function TransHeadersDone(p: Parser, ch: char): (o: Outcome)
    requires p.state.HeadersDone?
    ensures Descends(p, o)
  {
    if ch != LF then FailWith(p, StrictFailed)
    else if p.upgrade && (p.verb == CONNECT || !HasBody(p)) then Complete(p, Exit)
    else if p.flags.chunked then Next(p, ChunkSizeStart)
    else if p.contentLength == 0 then Complete(p, Advance)
    else if p.contentLength != ABSENT then Next(p, BodyIdentity)
    else if !MessageNeedsEof(p) then Complete(p, Advance)
    else Next(p, BodyIdentityEof)
  }

  // ---- Bodies --------------------------------------------------------------------------

  predicate IsBodyState(s: State) {
    s.ChunkSizeStart? || s.ChunkSize? || s.ChunkParameters? || s.ChunkSizeAlmostDone?
    || !ParsingHeader(s)
  }

  function TransBody(p: Parser, ch: char): (o: Outcome)
    requires IsBodyState(p.state)
    ensures Descends(p, o)
  {
    match p.state
    case BodyIdentity =>
      var q := p.(contentLength := p.contentLength - 1);
      if q.contentLength == 0
      then Outcome(q.(state := MessageDone), false, MarkThenFlushIncl(Body), Reexecute)
      else Outcome(q, false, Mark(Body), Advance)
    case BodyIdentityEof => Outcome(p, false, Mark(Body), Advance)
    case MessageDone => Complete(p, if p.upgrade then Exit else Advance)
    case ChunkSizeStart =>
      if Unhex(ch) == -1 then FailWith(p, InvalidChunkSize) else Next(p.(contentLength := Unhex(ch)), ChunkSize)
    case ChunkSize =>
      if ch == CR then Next(p, ChunkSizeAlmostDone)
      else if Unhex(ch) == -1 then
        if ch == ';' || ch == ' ' then Next(p, ChunkParameters) else FailWith(p, InvalidChunkSize)
      else if (ABSENT - 16) / 16 < p.contentLength then FailWith(p, InvalidContentLength)
      else Stay(p.(contentLength := (p.contentLength * 16 + Unhex(ch)) % TWO64))
    case ChunkParameters => if ch == CR then Next(p, ChunkSizeAlmostDone) else Stay(p)
    case ChunkSizeAlmostDone =>
      if ch != LF then FailWith(p, StrictFailed)
      else
        var op := Notify(ChunkHeader(p.contentLength));
        if p.contentLength == 0
        then Outcome(p.(flags := p.flags.(trailing := true), state := HeaderFieldStart), false, op, Advance)
        else Outcome(p.(state := ChunkData), false, op, Advance)
    case ChunkData =>
      var q := p.(contentLength := p.contentLength - 1);
      Outcome(if q.contentLength == 0 then q.(state := ChunkDataAlmostDone) else q, false, Mark(Body), Advance)
    case ChunkDataAlmostDone =>
      if ch != CR then FailWith(p, StrictFailed)
      else Outcome(p.(state := ChunkDataDone), false, Flush(Body), Advance)
    case ChunkDataDone =>
      if ch != LF then FailWith(p, StrictFailed)
      else Outcome(p.(state := ChunkSizeStart), false, Notify(ChunkComplete), Advance)
  }

  /** Where the switch sets `nread` back to 0, unless it fails. */
  predicate ResetsCount(s: State) { s.HeadersDone? || s.ChunkSizeAlmostDone? || s.ChunkDataDone? }

  /** One pass through the state switch for the byte `ch`. */
  function Transition(p: Parser, skipping: bool, ch: char): (o: Outcome)
    ensures Descends(p, o)
  {
    var s := p.state;
    if IsBodyState(s) then TransBody(p, ch)
    else if s.HeaderValue? then TransValue(p, skipping, ch)
    else if s.HeaderField? || s.HeaderFieldStart? then TransName(p, ch)
    else if IsLineEndState(s) then TransLineEnd(p, ch)
    else if s.HeadersAlmostDone? then TransHeadersAlmostDone(p, ch)
    else if s.HeadersDone? then TransHeadersDone(p, ch)
    else if IsUrlState(s) || s.ReqSpacesBeforeUrl? then TransUrl(p, ch)
    else if IsRequestVersionState(s) then TransRequestVersion(p, ch)
    else if IsResponseLineState(s) then TransResponseLine(p, ch)
    else if s.ReqMethod? then TransMethod(p, ch)
    else TransStart(p, ch)
  }
}
