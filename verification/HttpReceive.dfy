/** Whole messages received by the two classes, buffer after buffer, the header limit included. */
module HttpReceiving {
  import opened Options
  import opened HttpTypes
  import opened HttpMachine
  import opened HttpRun
  import opened HttpInvariant
  import opened HttpBlocks
  import opened HttpSplit
  import opened HttpFraming
  import opened HttpExecute
  import opened HttpSession
  import opened HttpCuts
  import opened HttpLimits
  import opened HttpRecogniser
  import opened HttpRequests
  import opened OrderedMap
  import opened HttpEncoders
  import opened HttpHeads
  import opened HttpPieces
  import opened HttpParsers
  import opened HttpStored
  import opened HttpRoundTrip
  import opened HttpResponses

  // ---- The header section of a printed message ---------------------------------------------------

  /** In a body no header bytes are counted. */
  lemma BodyUncounted(r: Run, data: string, i: nat)
    requires AtBody(r, |data|) && i < |data|
    ensures !ParsingHeader(RunBytes(r, data[..i]).parser.state)
  {
    if i == 0 {
      assert data[..i] == "";
    } else {
      BodySteps(r, data[..i]);
    }
  }

  lemma PrintedHead(head: string, body: string, bufs: seq<string>)
    requires Flatten(bufs) == head + body && HeadEnds(Fresh(), head)
    requires body != "" ==> AtBody(RunBytes(Fresh(), head), |body|)
    requires IsIdle(RunBytes(Fresh(), head + body).parser.state)
    ensures OneHead(InitialParser(Both), bufs, |head|)
  {
    hide RunBytes, AtBody, InitialParser, Fresh, Begin, ParsingHeader;
    var p, n := InitialParser(Both), |head|;
    var text := head + body;
    FreshStart();
    FreshRun();
    assert text[..n - 1] == head[..n - 1];
    forall x: nat | n <= x < |text|
      ensures !ParsingHeader(Whole(p, 0, bufs, x).parser.state)
    {
      assert text[..x] == head + body[..x - n];
      RunBytesAppend(Fresh(), head, body[..x - n]);
      BodyUncounted(RunBytes(Fresh(), head), body, x - n);
    }
    assert text[..|text|] == text;
    HeadStates();
  }

  lemma HeadStates()
    ensures ParsingHeader(HeadersAlmostDone)
  {
  }

  /** A printed message is refused for its size exactly when its start line and headers, and the
      over-count of the calls before their end, exceed the limit together. */
  lemma MessageFits(head: string, body: string, bufs: seq<string>)
    requires IsCut(bufs, head + body) && HeadEnds(Fresh(), head) && QuietFrom(Fresh(), head + body)
    requires body != "" ==> AtBody(RunBytes(Fresh(), head), |body|)
    requires IsIdle(RunBytes(Fresh(), head + body).parser.state)
    requires Feed(InitialParser(Both), 0, bufs).parser.errno.Ok?
    ensures ExceedsSomewhere(InitialParser(Both), 0, bufs, 0) <==> |head| + OverCount(bufs, |head|) > MAX_HEADER_SIZE
    ensures OverCount(bufs, |head|) <= Holder(bufs, |head|)
  {
    hide *;
    PrintedStream(head, body, bufs);
    FitsExactly(InitialParser(Both), bufs, |head|);
    OverCountIs(bufs, |head|);
  }

  lemma PrintedStream(head: string, body: string, bufs: seq<string>)
    requires IsCut(bufs, head + body) && HeadEnds(Fresh(), head) && QuietFrom(Fresh(), head + body)
    requires body != "" ==> AtBody(RunBytes(Fresh(), head), |body|)
    requires IsIdle(RunBytes(Fresh(), head + body).parser.state)
    ensures var p := InitialParser(Both);
      && Inv(p) && CountOk(p, 0) && NonEmpty(bufs) && Quiet(p, 0, Flatten(bufs)) && 0 < |head| <= |Flatten(bufs)|
      && OneHead(p, bufs, |head|)
  {
    hide *;
    CutIs(bufs, head + body);
    HeadNotEmpty(Fresh(), head);
    FreshRun();
    QuietFromQuiet(InitialParser(Both), 0, head + body);
    PrintedHead(head, body, bufs);
  }

  lemma OverCountIs(bufs: seq<string>, n: nat)
    requires 0 < n <= |Flatten(bufs)|
    ensures OverCount(bufs, n) == AheadAll(InitialParser(Both), 0, bufs[..Holder(bufs, n)], 0)
  {
    hide AheadAll, Holder, Flatten;
  }

  lemma CutIs(bufs: seq<string>, data: string)
    requires IsCut(bufs, data)
    ensures NonEmpty(bufs) && Flatten(bufs) == data
  {
  }

  lemma HeadNotEmpty(r: Run, head: string)
    requires HeadEnds(r, head)
    ensures head != ""
  {
  }

  /** What the calls before the end of the header section count too much: one byte for each buffer
      that ends in a name or a value it did not begin with the last byte. */
  function OverCount(bufs: seq<string>, n: nat): nat
    requires 0 < n <= |Flatten(bufs)|
  {
    AheadAll(InitialParser(Both), 0, bufs[..Holder(bufs, n)], 0)
  }

  // ---- The wrapper ------------------------------------------------------------------------------------

  /** Feeds the buffers in turn to the wrapper, as long as it reports no error. */
  method ParseAll(parser: HttpParser, bufs: seq<string>, ghost count: nat) returns (ok: bool)
    requires parser.http.Valid() && parser.http.errno.Ok? && count <= parser.http.nread
    requires forall i | 0 <= i < |bufs| :: 0 < |bufs[i]| < TWO32 - MAX_HEADER_SIZE
    modifies parser, parser.http
    ensures parser.http.Valid() && (ok <==> parser.http.errno.Ok?)
    ensures !parser.http.errno.HeaderOverflow? ==>
      var f := Feed(old(parser.http.View()), count, bufs);
      && parser.http.errno == f.parser.errno && parser.View() == ApplyAll(old(parser.View()), f.events)
      && (ok ==> parser.http.View() == f.parser)
    ensures parser.http.errno.HeaderOverflow? ==>
      ExceedsSomewhere(old(parser.http.View()), count, bufs, old(parser.http.nread) - count)
    ensures ok ==> !ExceedsSomewhere(old(parser.http.View()), count, bufs, old(parser.http.nread) - count)
  {
    hide Call, Exceeds, AheadAfter, Apply;
    ghost var p0, r0, ahead := parser.http.View(), parser.View(), parser.http.nread - count;
    assert bufs[..|bufs|] == bufs;
    ok := true;
    var i := 0;
    ApplyNothing(r0);
    while i < |bufs|
      invariant 0 <= i <= |bufs| && parser.http.Valid() && parser.http.errno.Ok? && ok
      invariant var f := Feed(p0, count, bufs[..i]);
        && f.parser == parser.http.View() && parser.View() == ApplyAll(r0, f.events)
        && parser.http.nread == f.count + AheadAll(p0, count, bufs[..i], ahead)
      invariant forall k: nat | k < i :: !ExceedsIn(p0, count, bufs, k, ahead)
    {
      ghost var f := Feed(p0, count, bufs[..i]);
      assert bufs[..i + 1][..i] == bufs[..i];
      ok := parser.Parse(bufs[i], f.count);
      ApplyAllAppend(r0, f.events, Call(f.parser, f.count, bufs[i]).events);
      if !ok {
        if parser.http.errno.HeaderOverflow? {
          assert ExceedsIn(p0, count, bufs, i, ahead);
        } else {
          FeedStopped(p0, count, bufs, i + 1);
        }
        return;
      }
      i := i + 1;
    }
  }

  /** A parser that has read nothing. */
  ghost predicate IsNew(parser: HttpParser)
    reads parser, parser.http
  {
    && parser.http.Valid() && parser.http.View() == InitialParser(Both) && parser.http.nread == 0
    && parser.View() == NothingReceived(parser.status)
  }

  function RequestHead(c: Content): (head: string)
    ensures head != ""
  {
    RequestLine(c) + HeaderSection(c)
  }

  function ResponseHead(c: Content): (head: string)
    ensures head != ""
  {
    StatusLine(c) + HeaderSection(c)
  }

  /** A printed request, in any buffers: it is taken exactly when its header section and the
      over-count fit the limit, certainly when the section and the number of calls before its end
      do.  Then it is complete, and gives back what was printed; the headers exactly when each has
      a value and no buffer ends strictly inside one.  Otherwise the error is the header limit. */
  method ReceiveRequest(parser: HttpParser, bufs: seq<string>, ghost c: Content, ghost m: Method) returns (ok: bool)
    requires IsNew(parser) && IsRequest(c, m) && IsCut(bufs, RequestText(c)) && Sizes(bufs)
    modifies parser, parser.http
    ensures |RequestHead(c)| <= |Flatten(bufs)|
    ensures ok <==> |RequestHead(c)| + OverCount(bufs, |RequestHead(c)|) <= MAX_HEADER_SIZE
    ensures |RequestHead(c)| + Holder(bufs, |RequestHead(c)|) <= MAX_HEADER_SIZE ==> ok
    ensures !ok ==> parser.http.errno.HeaderOverflow?
    ensures ok ==> GivesBack(parser.View(), c)
    ensures ok ==>
      var cut := CutInside(AllHeaders(c), |RequestLine(c)|, Ends(bufs));
      && (!cut ==> parser.headers == HeaderMap(WithValues(c)))
      && (Distinct(c.headers) ==> (parser.headers == HeaderMap(c) <==> AllValued(c.headers) && !cut))
  {
    hide ApplyAll, Feed, IsRequest, RequestLine, HeaderSection, HeadEnds, AtBody, ExceedsSomewhere, OverCount, Holder, Quiet, IsIdle,
      InitialParser, CutInside, HeaderMap, GivesBack, QuietFrom, RunBytes, Ends, Kept, AllHeaders, Notices;
    EveryCutRoundTrip(c, m, parser.status, bufs);
    RequestRun(c, m);
    RequestQuiet(c, m);
    MessageFits(RequestHead(c), c.body, bufs);
    FreshRun();
    InvOk(InitialParser(Both));
    ok := ParseAll(parser, bufs, 0);
  }

  /** Likewise a printed response. */
  method ReceiveResponse(parser: HttpParser, bufs: seq<string>, ghost c: Content) returns (ok: bool)
    requires IsNew(parser) && IsResponse(c) && IsCut(bufs, ResponseText(c)) && Sizes(bufs)
    modifies parser, parser.http
    ensures |ResponseHead(c)| <= |Flatten(bufs)|
    ensures ok <==> |ResponseHead(c)| + OverCount(bufs, |ResponseHead(c)|) <= MAX_HEADER_SIZE
    ensures |ResponseHead(c)| + Holder(bufs, |ResponseHead(c)|) <= MAX_HEADER_SIZE ==> ok
    ensures !ok ==> parser.http.errno.HeaderOverflow?
    ensures ok ==> GivesBackResponse(parser.View(), c)
    ensures ok ==>
      var cut := CutInside(AllHeaders(c), |StatusLine(c)|, Ends(bufs));
      && (!cut ==> parser.headers == HeaderMap(WithValues(c)))
      && (Distinct(c.headers) ==> (parser.headers == HeaderMap(c) <==> AllValued(c.headers) && !cut))
  {
    hide ApplyAll, Feed, IsResponse, StatusLine, HeaderSection, HeadEnds, AtBody, ExceedsSomewhere, OverCount, Holder, Quiet, IsIdle,
      InitialParser, CutInside, HeaderMap, GivesBackResponse, QuietFrom, RunBytes, Ends, Kept, AllHeaders, Notices;
    ResponseRoundTrip(c, parser.status, bufs);
    ResponseRun(c);
    ResponseQuiet(c);
    MessageFits(ResponseHead(c), c.body, bufs);
    FreshRun();
    InvOk(InitialParser(Both));
    ok := ParseAll(parser, bufs, 0);
  }

  /** The round trip of the two classes in one buffer: it succeeds exactly when the header section
      fits the limit. */
  method Exchange(encoder: HttpEncoder, parser: HttpParser, ghost m: Method) returns (ok: bool)
    requires encoder.Valid() && IsRequest(encoder.View(), m) && IsNew(parser)
    requires |RequestText(encoder.View())| < TWO32 - MAX_HEADER_SIZE
    modifies parser, parser.http
    ensures ok <==> |RequestHead(encoder.View())| <= MAX_HEADER_SIZE
    ensures ok ==> GivesBack(parser.View(), encoder.View()) && parser.headers == HeaderMap(WithValues(encoder.View()))
    ensures ok && AllValued(encoder.headers) ==> parser.headers == HeaderMap(encoder.View())
  {
    hide IsRequest, RequestText, RequestHead, GivesBack, HeaderMap, CutInside, Kept, HeaderSection, RequestLine, InitialParser, Holder,
      OverCount;
    ghost var c := encoder.View();
    var text := encoder.GetRequestString();
    RequestNotEmpty(c);
    OneBufferCut(text, AllHeaders(c), |RequestLine(c)|);
    OneHolder(text, |RequestHead(c)|) by { HeadInside(c); }
    if AllValued(encoder.headers) {
      KeptAll(encoder.headers);
    }
    ok := ReceiveRequest(parser, [text], c, m);
  }

  lemma HeadInside(c: Content)
    ensures 0 < |RequestHead(c)| <= |RequestText(c)|
  {
    hide RequestLine, HeaderSection;
  }

  lemma OneHolder(text: string, n: nat)
    requires 0 < n <= |text|
    ensures Flatten([text]) == text && Holder([text], n) == 0 && OverCount([text], n) == 0
  {
    assert [text][..0] == [];
    assert Flatten([text][..0]) == "";
    assert "" + text == text;
  }
}
