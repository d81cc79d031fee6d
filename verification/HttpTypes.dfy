/** The vocabulary of the HTTP/1.x push parser: its states, flags, error numbers and
    events, and the character classes of strict mode.  A `char` stands for one byte. */
module HttpTypes {

  datatype MessageType = Request | Response | Both

  datatype State =
    | Dead
    | StartReqOrRes | ResOrRespH
    | StartRes | ResH | ResHT | ResHTT | ResHTTP
    | ResFirstHttpMajor | ResHttpMajor | ResFirstHttpMinor | ResHttpMinor
    | ResFirstStatusCode | ResStatusCode | ResStatusStart | ResStatus | ResLineAlmostDone
    | StartReq | ReqMethod | ReqSpacesBeforeUrl
    | ReqSchema | ReqSchemaSlash | ReqSchemaSlashSlash
    | ReqServerStart | ReqServer | ReqServerWithAt
    | ReqPath | ReqQueryStringStart | ReqQueryString | ReqFragmentStart | ReqFragment
    | ReqHttpStart | ReqHttpH | ReqHttpHT | ReqHttpHTT | ReqHttpHTTP
    | ReqFirstHttpMajor | ReqHttpMajor | ReqFirstHttpMinor | ReqHttpMinor | ReqLineAlmostDone
    | HeaderFieldStart | HeaderField
    | HeaderValueDiscardWs | HeaderValueDiscardWsAlmostDone | HeaderValueDiscardLws
    | HeaderValueStart | HeaderValue | HeaderValueLws | HeaderAlmostDone
    | ChunkSizeStart | ChunkSize | ChunkParameters | ChunkSizeAlmostDone
    | HeadersAlmostDone | HeadersDone
    | ChunkData | ChunkDataAlmostDone | ChunkDataDone
    | BodyIdentity | BodyIdentityEof | MessageDone

  datatype HeaderState =
    | General | SeenC | SeenCO | SeenCON
    | MatchingConnection | MatchingProxyConnection | MatchingContentLength
    | MatchingTransferEncoding | MatchingUpgrade
    | Connection | ContentLength | TransferEncoding | Upgrade
    | MatchingChunked | MatchingTokenStart | MatchingKeepAlive | MatchingClose
    | MatchingConnUpgrade | MatchingToken
    | Chunked | ConnKeepAlive | ConnClose | ConnUpgrade

  datatype Method =
    | DELETE | GET | HEAD | POST | PUT | CONNECT | OPTIONS | TRACE
    | COPY | LOCK | MKCOL | MOVE | PROPFIND | PROPPATCH | SEARCH | UNLOCK
    | BIND | REBIND | UNBIND | ACL | REPORT | MKACTIVITY | CHECKOUT | MERGE
    | MSEARCH | NOTIFY | SUBSCRIBE | UNSUBSCRIBE | PATCH | PURGE | MKCALENDAR
    | LINK | UNLINK

  datatype Errno =
    | Ok | InvalidEofState | HeaderOverflow | ClosedConnection | InvalidVersion
    | InvalidStatus | InvalidMethod | InvalidUrl | LfExpected | InvalidHeaderToken
    | InvalidContentLength | UnexpectedContentLength | InvalidChunkSize
    | InvalidConstant | StrictFailed

  datatype Flags = Flags(
    chunked: bool, connKeepAlive: bool, connClose: bool, connUpgrade: bool,
    trailing: bool, upgrade: bool, contentLength: bool)

  datatype DataKind = Url | Status | Field | Value | Body

  /** A callback.  `on_message_complete` also shows the two parser fields its receiver reads. */
  datatype Event =
    | Data(kind: DataKind, bytes: string)
    | MessageBegin
    | HeadersComplete
    | ChunkHeader(size: int)
    | ChunkComplete
    | MessageComplete(verb: Method, statusCode: int)

  datatype Parser = Parser(
    kind: MessageType, flags: Flags, state: State, headerState: HeaderState, index: nat,
    contentLength: int, httpMajor: int, httpMinor: int, statusCode: int,
    verb: Method, errno: Errno, upgrade: bool)

  const TWO32: int := 0x1_0000_0000
  const TWO64: int := 0x1_0000_0000_0000_0000
  /** ULLONG_MAX, the "no length known" marker. */
  const ABSENT: int := 0xFFFF_FFFF_FFFF_FFFF
  const MAX_HEADER_SIZE: int := 80 * 1024

  const NO_FLAGS := Flags(false, false, false, false, false, false, false)

  const CR := '\r'
  const LF := '\n'

  const CONNECTION := "connection"
  const PROXY_CONNECTION := "proxy-connection"
  const CONTENT_LENGTH := "content-length"
  const TRANSFER_ENCODING := "transfer-encoding"
  const UPGRADE := "upgrade"
  const CHUNKED := "chunked"
  const KEEP_ALIVE := "keep-alive"
  const CLOSE := "close"

  /** The C string's byte at `i`, its terminating NUL included. */
  function At(s: string, i: nat): char {
    if i < |s| then s[i] else '\0'
  }

  predicate IsNum(c: char) { '0' <= c <= '9' }
  predicate IsAlpha(c: char) { 'a' <= c <= 'z' || 'A' <= c <= 'Z' }
  predicate IsAlphaNum(c: char) { IsAlpha(c) || IsNum(c) }

  function Digit(c: char): (d: int)
    requires IsNum(c)
    ensures 0 <= d <= 9
  {
    c as int - '0' as int
  }

  /** `c | 0x20`: sets bit 5, which is clear in every second block of 32 bytes. */
  function Lower(c: char): char {
    if c < ' ' || '@' <= c <= '_' || '\U{80}' <= c <= '\U{9F}' || '\U{C0}' <= c <= '\U{DF}'
    then (c as int + 32) as char
    else c
  }

  /** The token table: the byte in lower case, or NUL when it may not appear in a header name. */
  function Token(c: char): char {
    if 'A' <= c <= 'Z' then (c as int + 32) as char
    else if 'a' <= c <= 'z' || IsNum(c) || c == '!' || '#' <= c <= '\'' || c == '*' || c == '+'
            || c == '-' || c == '.' || '^' <= c <= '`' || c == '|' || c == '~' then c
    else '\0'
  }

  /** The hexadecimal digit table.  Its C initialiser stops at byte 127, so every byte from
      128 on reads as 0, a valid digit, and not as -1. */
  function Unhex(c: char): (d: int)
    ensures -1 <= d <= 15
  {
    if IsNum(c) then c as int - '0' as int
    else if 'a' <= c <= 'f' then c as int - 'a' as int + 10
    else if 'A' <= c <= 'F' then c as int - 'A' as int + 10
    else if c >= '\U{80}' then 0
    else -1
  }

  predicate IsUrlChar(c: char) { '!' <= c <= '~' && c != '#' && c != '?' }

  predicate IsMark(c: char) {
    c == '-' || c == '_' || c == '.' || c == '!' || c == '~' || c == '*' || c == '\'' || c == '(' || c == ')'
  }

  predicate IsUserinfoChar(c: char) {
    IsAlphaNum(c) || IsMark(c) || c == '%' || c == ';' || c == ':' || c == '&' || c == '='
    || c == '+' || c == '$' || c == ','
  }

  predicate IsHeaderChar(c: char) {
    c == CR || c == LF || c == '\t' || (c > '\U{1F}' && c != '\U{7F}')
  }

  function MethodString(m: Method): (s: string)
    ensures 3 <= |s| <= 11
    ensures forall i | 0 <= i < |s| :: 'A' <= s[i] <= 'Z' || s[i] == '-'
  {
    match m
    case DELETE => "DELETE"
    case GET => "GET"
    case HEAD => "HEAD"
    case POST => "POST"
    case PUT => "PUT"
    case CONNECT => "CONNECT"
    case OPTIONS => "OPTIONS"
    case TRACE => "TRACE"
    case COPY => "COPY"
    case LOCK => "LOCK"
    case MKCOL => "MKCOL"
    case MOVE => "MOVE"
    case PROPFIND => "PROPFIND"
    case PROPPATCH => "PROPPATCH"
    case SEARCH => "SEARCH"
    case UNLOCK => "UNLOCK"
    case BIND => "BIND"
    case REBIND => "REBIND"
    case UNBIND => "UNBIND"
    case ACL => "ACL"
    case REPORT => "REPORT"
    case MKACTIVITY => "MKACTIVITY"
    case CHECKOUT => "CHECKOUT"
    case MERGE => "MERGE"
    case MSEARCH => "M-SEARCH"
    case NOTIFY => "NOTIFY"
    case SUBSCRIBE => "SUBSCRIBE"
    case UNSUBSCRIBE => "UNSUBSCRIBE"
    case PATCH => "PATCH"
    case PURGE => "PURGE"
    case MKCALENDAR => "MKCALENDAR"
    case LINK => "LINK"
    case UNLINK => "UNLINK"
  }

  /** PARSING_HEADER: every state up to and including s_headers_done. */
  predicate ParsingHeader(s: State) {
    !(s.ChunkData? || s.ChunkDataAlmostDone? || s.ChunkDataDone? || s.BodyIdentity?
      || s.BodyIdentityEof? || s.MessageDone?)
  }

  predicate IsUrlState(s: State) {
    s.ReqSchema? || s.ReqSchemaSlash? || s.ReqSchemaSlashSlash? || s.ReqServerStart?
    || s.ReqServer? || s.ReqServerWithAt? || s.ReqPath? || s.ReqQueryStringStart?
    || s.ReqQueryString? || s.ReqFragmentStart? || s.ReqFragment?
  }
}
