# A model of CoSocket

This project models the parts of CoSocket that are hardest to get right and proves what they are
for. All of it is checked by the Dafny verifier; `dafny verify dfyconfig.toml` checks the project.

**The HTTP push parser** (`HttpTypes` to `HttpRecogniser`). Two machines are modelled. The byte
machine (`HttpMachine`, `HttpRun`) reads one byte at a time; a pass through the state switch gives
the new parser fields and, as a symbolic operation, what it does to the callbacks. The buffer loop
(`HttpExecute`) is the real algorithm: an index, five mark variables, the re-execution of the
switch, the inner loops over names and values, the search for a line end and the jumps over body
bytes. Where the C switch takes bytes one by one, both machines use the same transition function;
where it takes many, the loop is proved to do as many steps of the byte machine. Everything else
rests on that: split invariance (`HttpSplit`, `HttpCuts`), the header limit over many calls
(`HttpSession`, `HttpLimit`), body framing and length arithmetic (`HttpFraming`, `HttpLength`,
`HttpChunkLimit`; sections 3.3.2, 3.3.3 and 4.1 of RFC 7230), exactness of the keyword recognisers
(`HttpRecogniser`), and the round trips through the printer and the wrapper (`HttpEncoder`,
`HttpWrapper`, `HttpRequest`, `HttpHead`, `HttpRoundTrip`, `HttpResponse`), with what becomes of
headers that are cut (`HttpPieces`, `HttpStored`) and of messages that are too long
(`HttpReceive`). `HttpUrl` is the URL splitter of the same library.

The byte machine has no header limit. A result about it alone is called so in the table, and is
followed by the one about the real loop, where the limit stands as an exact condition.

**The coroutine scheduler** (`Coroutine`, `Timeouts`, `Epoll`, `Scheduler`, `SchedulerRuns`,
`CoSocket`, `CoQueue`). The scheduler is a machine whose steps are the calls of a running
coroutine, each up to the point where another can run, and the resumptions its loops make. The
invariant of all its runs says where each suspended coroutine is to be found. The source's methods
are methods of a class, on the source's fields, proved against those steps; a coroutine that a
method resumes follows an arbitrary script of calls until it yields or returns.

**WebSocket framing** (`WebSocketParser`, `WebSocketCut`, `WebSocketEncoder`,
`WebSocketRoundTrip`; sections 5.2 to 5.4 of RFC 6455) and **base64** (`Base64`; section 4 of
RFC 4648) are modelled with their quirks: lengths that are written in too few bytes, a last frame
that is not marked, bytes behind a frame that are thrown away, a word that overflows.

Where the code falls short of what one would expect of it, the model keeps the code, and the lemma
says exactly when it does what it should: `HttpSplit.SplitInvarianceExact`,
`HttpStored.StoredExactly`, `HttpLimits.FitsExactly`, `HttpChunkLimits.ChunkedFits`,
`SchedulerRuns.WaitFdExactly`, `Timeouts.InsertKeepsExactly`, `Timeouts.DeadlineOrder`,
`WebSocketRoundTrip.FrameExact`, `WebSocketRoundTrip.MessageRoundTrip`, `WebSocketCuts.CutExact`,
`Base64.EndAssertionExact`, `HttpRecogniser.NameExact`.

System calls, clocks and random numbers are parameters: what epoll reports, the readings of the
clock, and the masking keys are given from outside. A `char` of the HTTP modules and a number below
256 of the others stand for one byte.

## Model

| member | source | states |
|---|---|---|
| HttpMachine.Transition | CoSocket/3rd/http-parser/http_parser.c:708-2054 | Looking at a byte again always leads to a state of lower rank that takes bytes one by one, so the `reexecute` loop ends; no pass makes the header-limit error by itself |
| HttpInvariant.TransitionKeeps | CoSocket/3rd/http-parser/http_parser.c:708-2054 | One pass through the switch keeps the invariant behind every `assert`, fails exactly when it sets an error, never starts a data callback over another, and enters the chunk-size state only from where the header count is zeroed |
| HttpInvariant.SettleKeeps | CoSocket/3rd/http-parser/http_parser.c:703-2055 | All the passes for one byte keep it |
| HttpInvariant.RunBytesKeeps | CoSocket/3rd/http-parser/http_parser.c:702-2055 | Every run over any bytes keeps it, or ends with an error |
| HttpInvariant.CallKeeps | CoSocket/3rd/http-parser/http_parser.c:634-2087 | Every call on a reachable parser ends in a reachable parser or with an error |
| HttpInvariant.SwitchMethodPrefix | CoSocket/3rd/http-parser/http_parser.c:1010-1047 | Changing to another method in the middle of a word keeps the bytes that have already been matched |
| HttpRun.RunBytesAppend | CoSocket/3rd/http-parser/http_parser.c:702-2055 | Reading two pieces one after the other is reading them together |
| HttpRun.RunBytesConsumed | CoSocket/3rd/http-parser/http_parser.c:702-2055 | Unless a run stops, every byte is taken exactly once |
| HttpBlocks.BodySteps | CoSocket/3rd/http-parser/http_parser.c:1878-1912 | `p += to_read - 1` in a body is `to_read` steps of one byte |
| HttpBlocks.WholeChunkSteps | CoSocket/3rd/http-parser/http_parser.c:2011-2032 | A chunk taken at once is as many single steps, to the state behind its last byte |
| HttpBlocks.EofSteps | CoSocket/3rd/http-parser/http_parser.c:1914-1919 | Taking the whole buffer for a body without a length is one step for each byte |
| HttpBlocks.SkipSteps | CoSocket/3rd/http-parser/http_parser.c:1526-1557 | The search for a line end stands for as many steps as it passes bytes, and looks at the first only |
| HttpExecute.PushParser.Execute | CoSocket/3rd/http-parser/http_parser.c:634-2087 | The buffer loop, with its index, marks, re-execution, inner loops, line-end search and jumps, does what the byte machine does: same error, same consumed count, same callbacks, same fields; `nread` is exactly the true header count, plus what earlier buffers left over unless a reset in this one wiped it out, plus one where the buffer ends inside a name or value; the header error comes only where that counter passes 81920, and a buffer read without an error never passes it |
| HttpExecute.HeaderWithin | CoSocket/3rd/http-parser/http_parser.c:1415-1694 | One check behind a stretch of name or value bytes stands for a check at each of them |
| HttpExecute.PushParser.ExecuteBytes | CoSocket/3rd/http-parser/http_parser.c:702-2087 | The same for a buffer that is not empty |
| HttpExecute.PushParser.PassLoop | CoSocket/3rd/http-parser/http_parser.c:708-2054 | The re-execution loop ends, with every assertion in it proved, where the byte machine is after the byte |
| HttpExecute.PushParser.FieldLoop | CoSocket/3rd/http-parser/http_parser.c:1298-1430 | The inner loop over a name, with its count of `p - start`, is as many byte steps |
| HttpExecute.PushParser.ScanName | CoSocket/3rd/http-parser/http_parser.c:1298-1413 | The loop itself: it stops at the first byte that is no token, with the recogniser of the byte machine |
| HttpExecute.PushParser.ScanValue | CoSocket/3rd/http-parser/http_parser.c:1505-1687 | The inner loop over a value, the line-end search and its limit included, stops where the byte machine ends the line, or has already passed the header limit |
| HttpExecute.PushParser.ValueLoop | CoSocket/3rd/http-parser/http_parser.c:1505-1694 | The value state: the callbacks and the count are those of the byte machine, whether the line ends with CR, with LF or not in this buffer |
| HttpExecute.PushParser.JumpIdentity | CoSocket/3rd/http-parser/http_parser.c:1878-1912 | A counted body: delivered with its last byte included when it ends |
| HttpExecute.PushParser.JumpChunk | CoSocket/3rd/http-parser/http_parser.c:2011-2032 | Chunk data up to the end of the chunk or of the buffer |
| HttpExecute.PushParser.JumpEof | CoSocket/3rd/http-parser/http_parser.c:1914-1919 | A body without a length takes the rest of the buffer |
| HttpExecute.PushParser.CountHeaderSize | CoSocket/3rd/http-parser/http_parser.c:154-161 | The 32-bit counter and its limit |
| HttpExecute.PushParser.Leftover | CoSocket/3rd/http-parser/http_parser.c:2057-2079 | At most one mark is set at the end of a buffer, and its bytes are delivered |
| HttpExecute.MemChr | CoSocket/3rd/http-parser/http_parser.c:1542-1543 | The first occurrence within the limit |
| HttpExecute.AssertionsHold | CoSocket/3rd/http-parser/http_parser.c:1883-2043 | The assertions of the body and chunk states hold in every reachable parser |
| HttpExecute.PushParser.Init | CoSocket/3rd/http-parser/http_parser.c:2140-2149 | A parser that is initialised again is a new one |
| HttpSession.ExecuteAll | CoSocket/3rd/http-parser/http_parser.c:154-161 | Over any number of calls `nread` is exactly B plus the over-count, and B <= nread <= B + K at every return without an error, K being the calls since `nread` was last zeroed; no byte of such a run is past 81920, and the header error means that one is; otherwise the calls do what the byte machine does |
| HttpSession.AheadBound | CoSocket/3rd/http-parser/http_parser.c:1415-1689 | The over-count is at most the number of calls since the last reset |
| HttpSession.OverflowMeansTooLong | CoSocket/3rd/http-parser/http_parser.c:154-161 | A stream is refused for its size only where B + K passes 81920, so none with B + K <= 81920 is |
| HttpSession.CompareCuts | CoSocket/3rd/http-parser/http_parser.c:634-2087 | Two parsers in the same state, in the middle of headers or not, fed the same quiet stream in two cuts, neither of which meets the header limit, end alike |
| HttpSplit.SplitInvarianceExact | CoSocket/3rd/http-parser/http_parser.c:634-2087 | All cuts of a stream agree on error, consumed bytes, all fields and the callbacks up to concatenation, exactly when the stream, read at once, has no unfit byte where the line-end search does not look and does not leave for another protocol before its end |
| HttpSplit.SplitInvariance | CoSocket/3rd/http-parser/http_parser.c:634-2087 | One direction, for one cut |
| HttpSplit.CutNoticed | CoSocket/3rd/http-parser/http_parser.c:1526-1557 | A cut just before an unchecked byte, or just after a change of protocol, is noticed |
| HttpSplit.SomeStreamIsNotQuiet | CoSocket/3rd/http-parser/http_parser.c:1526-1557 | The condition is needed: a control byte inside a header value is such a byte |
| HttpSplit.TextIsQuiet | CoSocket/3rd/http-parser/http_parser.c:1526-1557 | Every stream of header characters that stays with the protocol to its last byte can be cut anywhere |
| HttpCuts.CutRunEquiv | CoSocket/3rd/http-parser/http_parser.c:634-2087 | A run that is cut at any offsets stands at each byte where the whole one does |
| HttpCuts.FeedIsCutRun | CoSocket/3rd/http-parser/http_parser.c:634-2087 | The calls on the buffers deliver, callback by callback, what one run does that is interrupted where a buffer ends |
| HttpSplit.FlushEquiv | CoSocket/3rd/http-parser/http_parser.c:2057-2079 | Delivering what is open when a buffer ends changes nothing up to concatenation |
| HttpRecogniser.NameExact | CoSocket/3rd/http-parser/http_parser.c:1248-1413 | The name recogniser stands in a state exactly for the lower-case bytes seen; the content-length flag is set, and a second one refused, for every name that begins with the keyword |
| HttpRecogniser.KeywordStates | CoSocket/3rd/http-parser/http_parser.c:1298-1426 | At the colon the four keyword states stand for their keyword and no other name (proxy-connection counts as connection) |
| HttpRecogniser.NameSteps | CoSocket/3rd/http-parser/http_parser.c:1248-1413 | What a whole name does to a run |
| HttpRecogniser.MethodSound | CoSocket/3rd/http-parser/http_parser.c:954-1051 | The bytes that lead the recogniser to a method are the beginning of its name |
| HttpRecogniser.MethodExact | CoSocket/3rd/http-parser/http_parser.c:954-1051 | Exactly the 33 words of the table lead the recogniser to a method and end where it does |
| HttpRecogniser.MethodByteExact | CoSocket/3rd/http-parser/http_parser.c:1003-1050 | One byte in s_req_method: it goes on with the method held or another, or is refused; a blank is accepted exactly behind the whole name |
| HttpRecogniser.BytesSeen | CoSocket/3rd/http-parser/http_parser.c:954-1051 | Whenever the machine is in s_req_method, the bytes it has seen are the first ones of the name of the method held, as many as `index` says |
| HttpRecogniser.MethodsExactly | CoSocket/3rd/http-parser/http_parser.c:721-1051 | From the start of a message, the bytes before the first blank bring the machine to the URL exactly when, leading line ends left out, they are one of the 33 methods; it then holds that one |
| HttpRecogniser.MethodSteps | CoSocket/3rd/http-parser/http_parser.c:721-756 | Each is read at the start of a message, also when HEAD could still be a response |
| HttpLength.LengthExact | CoSocket/3rd/http-parser/http_parser.c:1471-1589 | A Content-Length value is accepted exactly when it is digits (and spaces behind the first) of a number up to 18446744073709551609, and then as that number |
| HttpFraming.ChunkSizeExact | CoSocket/3rd/http-parser/http_parser.c:1930-1981 | A chunk size is accepted exactly up to 2^64 - 17, as its exact hexadecimal value |
| HttpFraming.ChunkSteps | CoSocket/3rd/http-parser/http_parser.c:1930-2048 | One chunk is announced, delivered whole and closed, wherever it is cut |
| HttpFraming.ChunkedBody | CoSocket/3rd/http-parser/http_parser.c:1930-2048 | A chunked body delivers its chunks in order; its last byte, and no other, completes the message |
| HttpFraming.ChunkedMessage | CoSocket/3rd/http-parser/http_parser.c:1774-2048 | In the byte machine, which has no header limit: for every list of chunks, every spelling of their sizes and every cut, the payload in order, one announcement and one end for each chunk, one completion |
| HttpChunkLimits.ReceiveChunked | CoSocket/3rd/http-parser/http_parser.c:1774-2048 | The same for the real loop, call after call: it succeeds exactly when the counter was below the limit and no size line is longer than the limit, however the stream is cut; otherwise the error is the header limit |
| HttpChunkLimits.ChunkedFits | CoSocket/3rd/http-parser/http_parser.c:1930-1990 | Which chunked messages are refused for their size |
| HttpFraming.LengthBody | CoSocket/3rd/http-parser/http_parser.c:1878-1912 | A counted body is delivered whole and completes on its last byte |
| HttpFraming.LengthMessage | CoSocket/3rd/http-parser/http_parser.c:1774-1928 | In the byte machine: for every body of known length and every cut, exactly its bytes, one completion |
| HttpChunkLimits.ReceiveLength | CoSocket/3rd/http-parser/http_parser.c:1774-1928 | The same for the real loop: it succeeds exactly when the counter was below the limit |
| HttpFraming.HeadersEnd | CoSocket/3rd/http-parser/http_parser.c:1774-1876 | Where the framing is decided: chunked before length |
| HttpFraming.HeadersEndNoBody | CoSocket/3rd/http-parser/http_parser.c:1774-1876 | Length zero completes with the headers |
| HttpFraming.CoalesceKeeps | CoSocket/3rd/http-parser/http_parser.c:105-134 | Concatenating adjacent data callbacks loses no byte and no notice |
| HttpRequests.RequestLineSteps | CoSocket/3rd/http-parser/http_parser.c:954-1246 | A request line gives its method and its URL |
| HttpRequests.UrlSteps | CoSocket/3rd/http-parser/http_parser.c:1053-1124 | A URL is collected whole |
| HttpRequests.ConnSteps | CoSocket/3rd/http-parser/http_parser.c:1480-1642 | The two words of the Connection header lead to their states, in any mixture of cases |
| HttpRequests.PlainValue | CoSocket/3rd/http-parser/http_parser.c:1447-1557 | A clean value of a header without meaning is collected unchanged |
| HttpHeads.PlainLineSteps | CoSocket/3rd/http-parser/http_parser.c:1248-1734 | A header line, with a value or without, gives its name and value and changes no framing |
| HttpHeads.EmptyLineFrom | CoSocket/3rd/http-parser/http_parser.c:1743-1771 | A line without a value; the empty value is delivered with the next byte |
| HttpHeads.HeaderLinesSteps | CoSocket/net/http/HttpEncoder.h:102-118 | The printed header section is read back line by line |
| HttpHeads.MessageSteps | CoSocket/net/http/HttpEncoder.h:102-118 | A printed message, from its first header line on, completes on its last byte |
| HttpHeads.DecimalExact | CoSocket/net/http/HttpEncoder.h:104-104 | A printed size is a length field with that value |
| HttpRoundTrip.RequestRoundTrip | CoSocket/net/http/HttpEncoder.h:87-118 | In the byte machine: the printed request, read in one buffer, completes once and gives back method, URL, parameters and body, and exactly the headers that have a value (`HttpReceiving.Exchange` adds the header limit) |
| HttpRoundTrip.EveryCutRoundTrip | CoSocket/net/http/HttpParser.cpp:129-233 | In the byte machine, however the request is cut into buffers: it completes once, with method, URL, parameters and body; the headers come back exactly when each has a value and no buffer ends strictly inside a name or a value (`HttpReceiving.ReceiveRequest` adds the header limit) |
| HttpRoundTrip.MessageHeaders | CoSocket/net/http/HttpParser.cpp:139-178 | What a printed message, request or response, leaves in the header map in every cut |
| HttpPieces.MessagePieces | CoSocket/3rd/http-parser/http_parser.c:1298-1694 | However a message is cut, its names and values are delivered in the pieces that the buffer ends make of them, and nothing else is |
| HttpPieces.LinePieces | CoSocket/3rd/http-parser/http_parser.c:1248-1734 | The same for one line |
| HttpStored.StoredExactly | CoSocket/net/http/HttpParser.cpp:139-178 | From such pieces the wrapper stores the printed map exactly when no value is empty and no name or value is in more than one piece |
| HttpStored.WholeStored | CoSocket/net/http/HttpParser.cpp:139-178 | Uncut headers are stored, but for those without a value, and only those are lost |
| HttpStored.CutNameLost | CoSocket/net/http/HttpParser.cpp:139-157 | The longest name that is cut is not in the map |
| HttpStored.CutValueShort | CoSocket/net/http/HttpParser.cpp:159-178 | The first value that is cut is stored without its end |
| HttpReceiving.ReceiveRequest | CoSocket/net/http/HttpParser.cpp:28-32 | A printed request, in any buffers, given to the wrapper: it is taken exactly when its start line and headers and the over-count fit 81920, certainly when the section and the number of calls before its end do; then it is complete and gives back what was printed, the headers as above; otherwise the error is the header limit |
| HttpReceiving.ReceiveResponse | CoSocket/net/http/HttpParser.cpp:28-32 | Likewise a printed response |
| HttpReceiving.Exchange | CoSocket/net/http/HttpEncoder.h:87-118 | The round trip of the two classes in one buffer: it succeeds exactly when start line and headers are at most 81920 bytes |
| HttpReceiving.ParseAll | CoSocket/net/http/HttpParser.cpp:28-32 | The wrapper fed buffer after buffer: the callbacks of all calls in order, and when it is refused for the size |
| HttpLimits.FitsExactly | CoSocket/3rd/http-parser/http_parser.c:154-161 | A stream with one header section is refused for its size exactly when the section, and one byte for each call before its end that over-counts, exceed the limit |
| HttpLimits.LateExactly | CoSocket/3rd/http-parser/http_parser.c:154-161 | A stream that resets the counter with its first byte is refused for its size in every cut or in none |
| HttpRoundTrip.ParametersRead | CoSocket/net/http/HttpParser.cpp:213-233 | Printed parameters are read back as the map they print |
| HttpRoundTrip.UrlRead | CoSocket/net/http/HttpParser.cpp:204-233 | URL and parameters come apart where they were joined |
| HttpResponses.ResponseRoundTrip | CoSocket/net/http/HttpEncoder.h:79-85 | In the byte machine, however it is cut: a printed response gives back status and body, and its headers exactly when each has a value and none is cut; its method is that of an unused parser (`HttpReceiving.ReceiveResponse` adds the header limit) |
| HttpResponses.StatusExact | CoSocket/3rd/http-parser/http_parser.c:870-914 | A status is its exact value, accepted up to 999 |
| HttpParsers.HttpParser.Parse | CoSocket/net/http/HttpParser.cpp:28-32 | The callbacks of a call, applied in order to what has been received |
| HttpParsers.HttpParser.OnHeaderName | CoSocket/net/http/HttpParser.cpp:139-157 | A new name replaces the old one; a header is stored when both parts have come |
| HttpParsers.HttpParser.OnHeaderValue | CoSocket/net/http/HttpParser.cpp:159-178 | Likewise for a value; an empty one is ignored |
| HttpParsers.HttpParser.ParseUrlAndParam | CoSocket/net/http/HttpParser.cpp:213-233 | The loop over the parameters |
| HttpParsers.GetStringBefore | CoSocket/net/http/HttpParser.cpp:204-211 | The text before the next flag, or before the end |
| HttpParsers.UrlDecode | CoSocket/base/UrlCodec.cpp:50-74 | The loop gives the decoding of the string |
| HttpParsers.DecodedSame | CoSocket/base/UrlCodec.cpp:50-74 | Decoding leaves a string alone exactly when it has no plus and no percent sign |
| HttpParsers.HttpParser.Reset | CoSocket/net/http/HttpParser.cpp:39-54 | A reset parser is a new one |
| HttpEncoders.HttpEncoder.GetRequestString | CoSocket/net/http/HttpEncoder.h:87-100 | The printed request |
| HttpEncoders.HttpEncoder.GetReponseString | CoSocket/net/http/HttpEncoder.h:79-85 | The printed response |
| HttpEncoders.HttpEncoder.AppendToStream | CoSocket/net/http/HttpEncoder.h:102-118 | The part that both have |
| HttpEncoders.HttpEncoder.AddHeader | CoSocket/net/http/HttpEncoder.h:54-57 | One key changes, the order stays |
| OrderedMap.PutMeaning | CoSocket/net/http/HttpEncoder.h:54-57 | Assigning to a key of the map changes what is found there and nothing else |
| HttpUrls.UrlRight | CoSocket/3rd/http-parser/http_parser.c:2337-2439 | The slices of an accepted URL are not empty, inside the buffer, disjoint, in the order of the fields and between their delimiters; the port is the number of its digits, at most 65535; with a schema there is a host; after CONNECT a host and a port only |
| HttpUrls.Url.ParseUrl | CoSocket/3rd/http-parser/http_parser.c:2337-2439 | The loops over the bytes and the host compute the specified division, which `HttpUrls.UrlRight` describes, with the port in 16 bits, and fail where that fails; no grammar of URLs is given |
| HttpUrls.Url.ParseHost | CoSocket/3rd/http-parser/http_parser.c:2251-2330 | Divides the host into userinfo, host and port |
| HttpUrls.TakenFound | CoSocket/3rd/http-parser/http_parser.c:2350-2406 | Each byte of the first loop keeps the slices right |
| HttpUrls.HostTakenFound | CoSocket/3rd/http-parser/http_parser.c:2263-2312 | Each byte of the second loop does |
| HttpUrls.StageGrows | CoSocket/3rd/http-parser/http_parser.c:486-632 | A URL is read from left to right: no byte leads back |
| Coroutine.SearchSucceeds | CoSocket/3rd/coroutine/coroutine.c:97-107 | The circular search finds a slot whenever one is to spare |
| Coroutine.NewIdFree | CoSocket/3rd/coroutine/coroutine.c:84-107 | A new id was free, is determined, and leaves every other slot as it was, also when the table grows |
| Coroutine.FullExactly | CoSocket/3rd/coroutine/coroutine.c:84-107 | All slots are counted exactly when none is empty |
| Coroutine.Schedule.New | CoSocket/3rd/coroutine/coroutine.c:84-107 | The search and the growth; `assert(0)` is not reached |
| Coroutine.Schedule.Resume | CoSocket/3rd/coroutine/coroutine.c:123-152 | Runs a ready or suspended coroutine and ignores a dead one |
| Coroutine.Schedule.Yield | CoSocket/3rd/coroutine/coroutine.c:167-177 | Suspends the running coroutine |
| Coroutine.Schedule.Finish | CoSocket/3rd/coroutine/coroutine.c:110-121 | Frees its slot and no other |
| Timeouts.DeadlineLater | CoSocket/base/Timestamp.cpp:13-26 | A deadline computed now is ordered after now |
| Timeouts.DeadlineInstant | CoSocket/base/Timestamp.cpp:13-17 | It is the right instant, and a normal timestamp exactly when the microseconds do not overflow |
| Timeouts.OrderOfNormal | CoSocket/base/Timestamp.cpp:19-26 | Between normal timestamps the order is that of instants |
| Timeouts.DeadlineOrder | CoSocket/base/Timestamp.cpp:13-26 | A deadline has its right place among all normal timestamps exactly when its microseconds did not overflow |
| Timeouts.DeadlineMisordered | CoSocket/base/Timestamp.cpp:13-26 | An instance with an overflow: half a second after 7.999999 s is ordered before 8 s |
| Timeouts.InsertKeepsExactly | CoSocket/net/CoSocket.cpp:67-79 | Set and index stay in agreement exactly when the coroutine had no other deadline |
| Timeouts.InsertDelete | CoSocket/net/CoSocket.cpp:67-94 | Deleting undoes inserting |
| Timeouts.InOrderSorted | CoSocket/net/CoSocket.cpp:118-126 | The order of the entries holds each once |
| Timeouts.TimeoutSet.GetExpired | CoSocket/net/CoSocket.cpp:96-103 | The earliest entry, when that is due; -1 exactly when none is |
| Timeouts.TimeoutSet.Insert | CoSocket/net/CoSocket.cpp:67-79 | Insertion into both |
| Timeouts.TimeoutSet.Delete | CoSocket/net/CoSocket.cpp:81-94 | Deletion from both |
| Epoll.Epoller.Update | CoSocket/net/Epoller.cpp:47-61 | Whatever was watched before, exactly the given events are afterwards, and no other descriptor is touched; it fails only for a fault of the kernel, and then changes nothing |
| Epoll.Epoller.EpollCtl | CoSocket/net/Epoller.cpp:63-72 | The three operations on the interest set |
| SchedulerRuns.EveryRun | CoSocket/net/CoSocket.cpp:377-548 | In every run: a coroutine is suspended exactly when it is in one, and only one, of the places the scheduler looks (a descriptor slot, a wait set, the unprocessed resume list); the next resumption finds a suspended coroutine while none runs |
| SchedulerRuns.StepKeeps | CoSocket/net/CoSocket.cpp:178-548 | Every step keeps the invariant: homes, deadlines, the epoll set equal to the events waited for, nothing lost in the two lists |
| SchedulerRuns.PlayKeeps | CoSocket/net/CoSocket.cpp:178-548 | So does every run |
| SchedulerRuns.ResumptionHits | CoSocket/net/CoSocket.cpp:483-548 | A resumption finds a suspended coroutine and runs it |
| SchedulerRuns.NotRecycled | CoSocket/net/CoSocket.cpp:377-548 | Until it is resumed, a suspended coroutine keeps its id and its place, so no wakeup reaches a stranger |
| SchedulerRuns.WaitFdExactly | CoSocket/net/CoSocket.cpp:392-462 | Waiting for a descriptor keeps the invariant exactly when nobody waits for the same direction |
| SchedulerRuns.DoubledWaitLoses | CoSocket/net/CoSocket.cpp:392-471 | A doubled wait wipes the first one out: that coroutine is suspended and can never be found again |
| Scheduler.OneHome | CoSocket/net/CoSocket.cpp:377-548 | A suspended coroutine has one home and a dead id has none |
| Scheduler.NotifyKeeps | CoSocket/net/CoSocket.cpp:383-390 | Notifying moves the waiters, in order, from the wait set to the end of the list |
| Scheduler.WaitConditionKeeps | CoSocket/net/CoSocket.cpp:377-381 | A waiting coroutine is in the wait set |
| Scheduler.WaitFdFreeKeeps | CoSocket/net/CoSocket.cpp:265-295 | A coroutine that waits for a free direction is in its slot, with its deadline, and the kernel watches for it |
| Scheduler.ResumeFdKeeps | CoSocket/net/CoSocket.cpp:281-294 | A coroutine that comes back leaves no trace in slot, epoll set and deadlines |
| Scheduler.NextResumeKeeps | CoSocket/net/CoSocket.cpp:525-534 | The oldest entry of the resume list is suspended, and is taken out |
| Scheduler.StartKeeps | CoSocket/net/CoSocket.cpp:178-193 | A new coroutine takes a slot nobody had |
| Scheduler.ClearKeeps | CoSocket/net/CoSocket.cpp:514-534 | A list is cleared only when everything in it has been handed out |
| Scheduler.KeyExact | CoSocket/net/CoSocket.cpp:377-390 | Two conditions share a wait set exactly when they differ by a multiple of 2^32 |
| CoSockets.CoSocket.constructor | CoSocket/net/CoSocket.cpp:152-159 | A new scheduler is the initial state |
| CoSockets.CoSocket.ConditionNotify | CoSocket/net/CoSocket.cpp:383-390 | The step of the machine |
| CoSockets.CoSocket.ConditionWait | CoSocket/net/CoSocket.cpp:377-381 | The step of the machine, up to the yield |
| CoSockets.CoSocket.SaveToCoIdMap | CoSocket/net/CoSocket.cpp:434-462 | Refuses exactly a direction that is taken |
| CoSockets.CoSocket.AddEventAndYield | CoSocket/net/CoSocket.cpp:392-406 | Waits exactly when the direction is free; the epoll update does not fail |
| CoSockets.CoSocket.DeleteEvent | CoSocket/net/CoSocket.cpp:408-424 | The kernel watches for the other direction only |
| CoSockets.CoSocket.BlockOn | CoSocket/net/CoSocket.cpp:265-295 | Read, Write, Accept and Connect once they would block, refused waits included |
| CoSockets.CoSocket.Resume | CoSocket/net/CoSocket.cpp:281-294 | A call that comes back reports a timeout exactly when the timeout pass resumed it |
| CoSockets.CoSocket.RunCoroutine | CoSocket/net/CoSocket.cpp:426-432 | Whatever a coroutine does in its turn keeps the invariant and disturbs no sleeper |
| CoSockets.CoSocket.NewCoroutine | CoSocket/net/CoSocket.cpp:178-193 | Noted inside a coroutine, started outside |
| CoSockets.CoSocket.RunNewCoFunc | CoSocket/net/CoSocket.cpp:514-523 | When it is done every function has been started, in order |
| CoSockets.CoSocket.RunWaitResumeCo | CoSocket/net/CoSocket.cpp:525-534 | When it is done every notified coroutine has been resumed, in order, those notified meanwhile included |
| CoSockets.CoSocket.EventHandler | CoSocket/net/CoSocket.cpp:483-512 | Reader first, writer last; a waiting writer is resumed although the reader ran before |
| CoSockets.CoSocket.RunTimeoutCo | CoSocket/net/CoSocket.cpp:536-548 | Ends; resumes exactly the coroutines expired at its start, once each, in the order of their deadlines; each resumed call reports its timeout; leaves no expired entry |
| CoSockets.CoSocket.RunOnce | CoSocket/net/CoSocket.cpp:167-176 | A round of the main loop keeps the invariant, with any time passing between its beginning and the timeout pass |
| CoSockets.CoSocket.Run | CoSocket/net/CoSocket.cpp:167-176 | So do all rounds, and no notification is lost |
| CoQueues.NoLostWakeup | CoSocket/net/CoQueue.h:25-39 | In every run with any producers and consumers: while there are items nobody is in the wait set, a sleeping consumer has its wakeup under way, and items come out in the order they went in |
| CoQueues.QueueStepKeeps | CoSocket/net/CoQueue.h:25-39 | One step keeps this |
| CoQueues.ConditionsApart | CoSocket/net/CoQueue.h:15-19 | Conditions below 2^32 never share a wait set; condition 2^32 shares that of condition 0 |
| CoQueues.CoQueue.Enque | CoSocket/net/CoQueue.h:25-29 | The step of the queue |
| CoQueues.CoQueue.DequePass | CoSocket/net/CoQueue.h:31-39 | One pass of the loop: wait when empty, else the first item |
| WebSocketRoundTrip.MessageRoundTrip | CoSocket/net/http/WebSocketEncoder.h:53-105 | The frames of a message, each in arbitrary pieces, give the message back; the parser is complete after the last piece, and not before, exactly when the length is not a multiple of the frame size |
| WebSocketRoundTrip.FrameExact | CoSocket/net/http/WebSocketEncoder.h:70-89 | A frame gives its payload back exactly when it has at most 65535 bytes and not 126 |
| WebSocketRoundTrip.FrameRead | CoSocket/net/http/WebSocketParser.h:123-220 | A sound frame adds its payload and completes the message if it is the last |
| WebSocketRoundTrip.ServerFrameRefused | CoSocket/net/http/WebSocketParser.h:165-187 | Unmasked frames are refused |
| WebSocketRoundTrip.Transfer | CoSocket/net/http/WebSocketEncoder.h:40-49 | The two classes together, frame after frame until the encoder is complete |
| WebSocketCuts.CutAnywhere | CoSocket/net/http/WebSocketParser.h:60-79 | Any cut of one frame leaves the state and the verdict of one piece |
| WebSocketCuts.CutExact | CoSocket/net/http/WebSocketParser.h:60-79 | A cut goes unnoticed, whatever follows, exactly when it is not behind a finished frame, whose rest one call throws away |
| WebSocketCuts.TwoPieces | CoSocket/net/http/WebSocketParser.h:60-79 | Two pieces do what one does |
| WebSocketParsers.ParsedKeeps | CoSocket/net/http/WebSocketParser.h:118-220 | The offset stays inside the cache, and the payload within 10MB although the sum that is checked can wrap |
| WebSocketParsers.NoWrap | CoSocket/net/http/WebSocketParser.h:179-184 | A sum that wraps belongs to a frame that is never complete |
| WebSocketParsers.HeaderStays | CoSocket/net/http/WebSocketParser.h:123-163 | More bytes do not change a complete header |
| WebSocketParsers.HeaderAgain | CoSocket/net/http/WebSocketParser.h:123-163 | Parsing a header again forgets what was known of its beginning |
| WebSocketParsers.MaskedTwice | CoSocket/net/http/WebSocketParser.h:215-216 | Masking twice is not masking |
| WebSocketParsers.WebSocketParser.Parse | CoSocket/net/http/WebSocketParser.h:60-79 | The state and the verdict of the specification |
| WebSocketParsers.WebSocketParser.ParseHeader | CoSocket/net/http/WebSocketParser.h:123-163 | Reads the header fields that are there |
| WebSocketParsers.WebSocketParser.Process | CoSocket/net/http/WebSocketParser.h:209-220 | Unmasks the payload when it is all there |
| WebSocketEncoders.WebSocketEncoder.Encode | CoSocket/net/http/WebSocketEncoder.h:53-105 | One frame, with its length field, key and masked bytes |
| WebSocketEncoders.WebSocketEncoder.PutLength | CoSocket/net/http/WebSocketEncoder.h:73-89 | The length field as it is written, 126 in one byte and four of eight bytes included |
| Base64.RoundTrip | CoSocket/3rd/base64/base64.cpp:22-82 | Decoding undoes encoding, whatever white space and padding is put in between |
| Base64.EncodingInjective | CoSocket/3rd/base64/base64.cpp:22-55 | No two byte strings have the same text |
| Base64.Encode | CoSocket/3rd/base64/base64.cpp:22-55 | The loop over the overflowing word writes the groups of six bits, padded to four times a third of the length, every write in bounds; too long a string is refused |
| Base64.Decode | CoSocket/3rd/base64/base64.cpp:57-82 | The loop gives the whole bytes of the digits; an illegal character refuses the text |
| Base64.ByteTaken | CoSocket/3rd/base64/base64.cpp:39-46 | What overflows is never a bit that still waits |
| Base64.DigitTaken | CoSocket/3rd/base64/base64.cpp:75-79 | Likewise when decoding |
| Base64.EndAssertionExact | CoSocket/3rd/base64/base64.cpp:52-52 | The assertion at the end of encoding holds exactly when there was something to encode |

## Left out

- HttpExecute.PushParser.Execute: buffers of 2^32 - 81920 bytes or more are not modelled, because there the 32-bit header counter can wrap within one addition.
- HttpSession.ExecuteAll: the same limit on each buffer.
- HttpParsers.HttpParser.Parse: the same limit on each buffer.
- HttpReceiving.ParseAll: the same limit on each buffer; so for the methods built on it and on `HttpSession.ExecuteAll`.
- HttpRoundTrip.RequestRoundTrip: the byte machine has no header limit; `HttpReceiving.Exchange` states the round trip with it.
- HttpRoundTrip.EveryCutRoundTrip: likewise; `HttpReceiving.ReceiveRequest` states it with the limit.
- HttpResponses.ResponseRoundTrip: likewise; `HttpReceiving.ReceiveResponse` states it with the limit.
- HttpFraming.ChunkedMessage: likewise; `HttpChunkLimits.ReceiveChunked` states it with the limit.
- HttpFraming.LengthMessage: likewise; `HttpChunkLimits.ReceiveLength` states it with the limit.
- HttpRecogniser.MethodSound: about the recogniser as a function of the word; `HttpRecogniser.BytesSeen` is about the machine.
- HttpRecogniser.MethodExact: likewise; `HttpRecogniser.MethodsExactly` is about the machine.
- HttpUrls.Url.ParseUrl: buffers above 65535 bytes, whose offsets do not fit 16 bits, and a grammar of the URLs that are accepted; the buffer is taken to be terminated, as `strtoul` needs.
- CoSockets.CoSocket.RunNewCoFunc: the number of turns is limited from outside, because coroutines can feed the list forever; order and completeness are claimed, termination is not.
- CoSockets.CoSocket.RunWaitResumeCo: the same limit.
- CoSockets.CoSocket.RunOnce: the same limit.
- CoSockets.CoSocket.AddEventAndYield: a fault of the kernel, after which the process aborts.
- CoSockets.CoSocket.RunCoroutine: a coroutine's calls that break the rule of one waiter for each direction are left out of its script; what such a call does is stated in `SchedulerRuns.DoubledWaitLoses`.
- WebSocketParsers.WebSocketParser.Parse: the cache stays below 2^63 bytes; a little-endian machine is assumed for the byte order of lengths.
- WebSocketRoundTrip.MessageRoundTrip: frame sizes above 65535, for which `WebSocketRoundTrip.FrameExact` shows that no such frame comes through.
- WebSocketEncoders.WebSocketEncoder.Encode: an encoder that is given a second payload, whose offset is not set back.
- Callbacks of the HTTP parser that return an error, pause, or ask to skip the body; lenient and non-strict modes; error strings and version functions.
- Destruction of schedulers, stacks and contexts of coroutines, and the lifetime of the function object a coroutine is started with.
- A descriptor that is closed while it is watched.
- `GetNeareastTimeGap` and the accuracy of timeouts in real time.
- The growth of the event array in `Epoller::Poll`, and the order in which the kernel reports events.
- `HttpDispatch`, `HttpClient`, `TcpServer`, `TcpClient`, `TcpConnector`, `Timer`, logging and the examples, which only pass data on.
- `UrlEncode`, and the meaning of lists of tokens in the Connection header beyond single words.
- Folded header lines in the round trips.
