/** Framed bodies received by the real parser in any buffers, the limit on size lines included. */
module HttpChunkLimits {
  import opened Options
  import opened HttpTypes
  import opened HttpMachine
  import opened HttpRun
  import opened HttpInvariant
  import opened HttpBlocks
  import opened HttpSplit
  import opened HttpFraming
  import opened HttpExecute
  import opened HttpSession
  import opened HttpLimits

  function Max(a: nat, b: nat): nat { if a < b then b else a }

  /** The longest size line of some chunks, line end included. */
  function LongestLine(chunks: seq<Chunk>): nat {
    if chunks == [] then 0 else Max(LongestLine(chunks[..|chunks| - 1]), |chunks[|chunks| - 1].size| + 2)
  }

  /** And of the whole body. */
  function Longest(chunks: seq<Chunk>, zero: string): nat { Max(LongestLine(chunks), |zero| + 2) }

  // ---- What counts in a chunked body --------------------------------------------------------------

  /** A byte of the stream that counts from zero and is byte `lim` of its line at most. */
  predicate Small(r: Run, lim: nat) {
    && r.reset && !r.parser.state.HeaderField? && !r.parser.state.HeaderValue?
    && (ParsingHeader(r.parser.state) ==> r.headerBytes + 1 <= lim)
  }

  ghost predicate AllSmall(r: Run, data: string, lim: nat) {
    forall x: nat | x < |data| :: Small(RunBytes(r, data[..x]), lim)
  }

  lemma AllSmallAppend(r: Run, a: string, b: string, lim: nat)
    requires AllSmall(r, a, lim) && AllSmall(RunBytes(r, a), b, lim)
    ensures AllSmall(r, a + b, lim)
  {
    hide RunBytes, Small;
    forall x: nat | x < |a + b|
      ensures Small(RunBytes(r, (a + b)[..x]), lim)
    {
      if x < |a| {
        assert (a + b)[..x] == a[..x];
      } else {
        assert (a + b)[..x] == a + b[..x - |a|];
        RunBytesAppend(r, a, b[..x - |a|]);
      }
    }
  }

  lemma AllSmallMore(r: Run, data: string, lim: nat, more: nat)
    requires AllSmall(r, data, lim) && lim <= more
    ensures AllSmall(r, data, more)
  {
    hide RunBytes;
    assert forall x: nat | x < |data| :: Small(RunBytes(r, data[..x]), lim);
  }

  lemma TwoSmall(r: Run, a: char, b: char, lim: nat)
    requires Small(r, lim) && Small(Step(r, a), lim)
    ensures AllSmall(r, [a, b], lim)
  {
    hide Step, Small;
    RunBytesNone(r);
    RunBytesOne(r, a);
    assert [a, b][..0] == "" && [a, b][..1] == [a];
  }

  lemma {:induction false} HexPrefix(hex: string, x: nat)
    requires IsHex(hex) && 0 < x <= |hex|
    ensures IsHex(hex[..x]) && HexValue(hex[..x]) <= HexValue(hex)
    decreases |hex|
  {
    hide Unhex;
    if x == |hex| {
      assert hex[..x] == hex;
    } else {
      var n := |hex| - 1;
      assert IsHex(hex[..n]) by { assert forall i | 0 <= i < n :: hex[..n][i] == hex[i]; }
      HexPrefix(hex[..n], x);
      assert hex[..n][..x] == hex[..x];
      assert Unhex(hex[n]) >= 0 by { UnhexRange(hex[n]); }
    }
  }

  lemma UnhexRange(ch: char)
    ensures Unhex(ch) == -1 || 0 <= Unhex(ch) <= 15
  {
  }

  /** A size line counts its bytes. */
  lemma SizeLineSmall(r: Run, hex: string)
    requires AtChunk(r) && r.reset && IsHex(hex) && HexValue(hex) <= MAX_CHUNK
    ensures AllSmall(r, hex + "\r\n", |hex| + 2)
    ensures var last := RunBytes(r, hex + "\r"); ParsingHeader(last.parser.state) && last.headerBytes + 1 == |hex| + 2
  {
    hide RunBytes, IsHex, HexValue, Step;
    forall x: nat | x < |hex|
      ensures Small(RunBytes(r, hex[..x]), |hex| + 2)
    {
      if x == 0 {
        assert hex[..x] == "";
        RunBytesNone(r);
      } else {
        HexPrefix(hex, x);
        ChunkSizeExact(r, hex[..x]);
      }
    }
    ChunkSizeExact(r, hex);
    var r1 := RunBytes(r, hex);
    SizeCr(r1);
    TwoSmall(r1, CR, LF, |hex| + 2);
    AllSmallAppend(r, hex, "\r\n", |hex| + 2);
    RunBytesOne(r1, CR);
    RunBytesAppend(r, hex, "\r");
  }

  lemma DataSmall(r: Run, data: string, lim: nat)
    requires r.control.Advance? && !r.skipping && r.parser.state.ChunkData? && r.reset && r.open.None? && |data| == r.parser.contentLength
    ensures AllSmall(r, data, lim)
  {
    forall x: nat | x < |data|
      ensures Small(RunBytes(r, data[..x]), lim)
    {
      if x == 0 {
        assert data[..x] == "";
      } else {
        BodySteps(r, data[..x]);
      }
    }
  }

  lemma DataEndSmall(r: Run, lim: nat)
    requires r.control.Advance? && r.parser.state.ChunkDataAlmostDone? && r.reset
    ensures AllSmall(r, "\r\n", lim)
  {
    TwoSmall(r, CR, LF, lim);
  }

  lemma ChunkSmall(r: Run, c: Chunk)
    requires AtChunk(r) && r.reset && ChunkOk(c)
    ensures AllSmall(r, ChunkText(c), |c.size| + 2)
  {
    hide RunBytes, IsHex, HexValue, AllSmall;
    var lim := |c.size| + 2;
    SizeLineSmall(r, c.size);
    ChunkSizeExact(r, c.size);
    var r1 := RunBytes(r, c.size);
    SizeLineEnd(r1);
    RunBytesAppend(r, c.size, "\r\n");
    var r2 := RunBytes(r, c.size + "\r\n");
    DataSmall(r2, c.data, lim);
    WholeChunkSteps(r2, c.data);
    var r3 := RunBytes(r2, c.data);
    DataEndSmall(r3, lim);
    AllSmallAppend(r, c.size + "\r\n", c.data, lim);
    RunBytesAppend(r, c.size + "\r\n", c.data);
    AllSmallAppend(r, c.size + "\r\n" + c.data, "\r\n", lim);
  }

  lemma {:induction false} ChunksSmall(r: Run, chunks: seq<Chunk>)
    requires AtChunk(r) && r.reset && forall i | 0 <= i < |chunks| :: ChunkOk(chunks[i])
    ensures AllSmall(r, ChunkTexts(chunks), LongestLine(chunks))
    ensures AtChunk(RunBytes(r, ChunkTexts(chunks))) && RunBytes(r, ChunkTexts(chunks)).reset
  {
    hide RunBytes, ChunkText, ChunkOk, AllSmall;
    ChunksSteps(r, chunks);
    HeaderBytesBound(r, ChunkTexts(chunks));
    if chunks == [] {
      NothingSmall(r);
    } else {
      var n := |chunks| - 1;
      var before, c := chunks[..n], chunks[n];
      ChunksSmall(r, before);
      var s := RunBytes(r, ChunkTexts(before));
      ChunkSmall(s, c);
      AllSmallMore(r, ChunkTexts(before), LongestLine(before), LongestLine(chunks));
      AllSmallMore(s, ChunkText(c), |c.size| + 2, LongestLine(chunks));
      AllSmallAppend(r, ChunkTexts(before), ChunkText(c), LongestLine(chunks));
    }
  }

  lemma NothingSmall(r: Run)
    ensures AllSmall(r, "", 0)
  {
  }

  /** The closing chunk and its empty trailer. */
  lemma ZeroSmall(r: Run, zero: string)
    requires AtChunk(r) && r.reset && IsHex(zero) && HexValue(zero) == 0
    ensures AllSmall(r, zero + "\r\n\r" + [LF], |zero| + 2)
  {
    hide RunBytes, IsHex, HexValue, AllSmall, Step;
    SizeLineSmall(r, zero);
    ChunkSizeExact(r, zero);
    HexSome(zero);
    var r1 := RunBytes(r, zero);
    SizeLineEnd(r1);
    RunBytesAppend(r, zero, "\r\n");
    var r2 := RunBytes(r, zero + "\r\n");
    TrailerStart(r2);
    TwoSmall(r2, CR, LF, |zero| + 2);
    AllSmallAppend(r, zero + "\r\n", "\r\n", |zero| + 2);
    assert zero + "\r\n\r" + [LF] == zero + "\r\n" + "\r\n";
  }

  lemma HexSome(hex: string)
    requires IsHex(hex)
    ensures hex != ""
  {
  }

  lemma BodySmall(r: Run, chunks: seq<Chunk>, zero: string)
    requires AtChunk(r) && r.reset && (forall i | 0 <= i < |chunks| :: ChunkOk(chunks[i])) && IsHex(zero) && HexValue(zero) == 0
    ensures AllSmall(r, ChunkedText(chunks, zero), Longest(chunks, zero))
  {
    hide RunBytes, IsHex, HexValue, AllSmall, ChunkTexts, LongestLine, ChunkOk, AtChunk;
    var lim := Longest(chunks, zero);
    var texts, end := ChunkTexts(chunks), zero + "\r\n\r" + [LF];
    ChunksSmall(r, chunks);
    ZeroSmall(RunBytes(r, texts), zero);
    AllSmallMore(r, texts, LongestLine(chunks), lim);
    AllSmallMore(RunBytes(r, texts), end, |zero| + 2, lim);
    AllSmallAppend(r, texts, end, lim);
    assert ChunkedText(chunks, zero) == texts + end;
  }

  /** The last byte of the longest line. */
  predicate IsPeak(r: Run, data: string, x: nat, lim: nat) {
    x < |data| && var s := RunBytes(r, data[..x]); ParsingHeader(s.parser.state) && s.headerBytes + 1 == lim
  }

  lemma PeakOf(r: Run, before: string, hex: string, after: string)
    requires AtChunk(RunBytes(r, before)) && RunBytes(r, before).reset && IsHex(hex) && HexValue(hex) <= MAX_CHUNK
    ensures IsPeak(r, before + (hex + "\r\n" + after), |before| + |hex| + 1, |hex| + 2)
  {
    hide RunBytes, IsHex, HexValue, AtChunk;
    SizeLineSmall(RunBytes(r, before), hex);
    RunBytesAppend(r, before, hex + "\r");
    var data := before + (hex + "\r\n" + after);
    assert data[..|before| + |hex| + 1] == before + (hex + "\r");
  }

  lemma {:induction false} LongestPeak(r: Run, chunks: seq<Chunk>, after: string) returns (x: nat)
    requires AtChunk(r) && r.reset && (forall i | 0 <= i < |chunks| :: ChunkOk(chunks[i])) && chunks != []
    ensures IsPeak(r, ChunkTexts(chunks) + after, x, LongestLine(chunks))
  {
    hide *;
    var n := |chunks| - 1;
    var before, c := chunks[..n], chunks[n];
    LastChunk(chunks);
    ChunksSmall(r, before);
    if |c.size| + 2 >= LongestLine(before) {
      x := |ChunkTexts(before)| + |c.size| + 1;
      PeakOf(r, ChunkTexts(before), c.size, c.data + "\r\n" + after);
      LastText(ChunkTexts(before), c, after);
    } else {
      x := LongestPeak(r, before, ChunkText(c) + after);
      assert ChunkTexts(before) + (ChunkText(c) + after) == ChunkTexts(before) + ChunkText(c) + after;
    }
  }

  lemma LastChunk(chunks: seq<Chunk>)
    requires chunks != [] && forall i | 0 <= i < |chunks| :: ChunkOk(chunks[i])
    ensures var n := |chunks| - 1; var before, c := chunks[..n], chunks[n];
      && (forall i | 0 <= i < n :: ChunkOk(before[i])) && IsHex(c.size) && HexValue(c.size) <= MAX_CHUNK
      && ChunkTexts(chunks) == ChunkTexts(before) + ChunkText(c)
      && LongestLine(chunks) == (if |c.size| + 2 >= LongestLine(before) then |c.size| + 2 else LongestLine(before))
      && (before == [] ==> LongestLine(before) == 0)
  {
    hide IsHex, HexValue;
    assert ChunkOk(chunks[|chunks| - 1]);
  }

  lemma LastText(before: string, c: Chunk, after: string)
    ensures before + (c.size + "\r\n" + (c.data + "\r\n" + after)) == before + ChunkText(c) + after
  {
    var a := c.size + "\r\n";
    assert a + (c.data + "\r\n" + after) == ChunkText(c) + after;
  }

  lemma BodyPeak(r: Run, chunks: seq<Chunk>, zero: string) returns (x: nat)
    requires AtChunk(r) && r.reset && (forall i | 0 <= i < |chunks| :: ChunkOk(chunks[i])) && IsHex(zero) && HexValue(zero) == 0
    ensures IsPeak(r, ChunkedText(chunks, zero), x, Longest(chunks, zero))
  {
    hide RunBytes, IsHex, HexValue, AtChunk, IsPeak, ChunkTexts, LongestLine;
    var texts, end := ChunkTexts(chunks), zero + "\r\n\r" + [LF];
    assert ChunkedText(chunks, zero) == texts + end;
    if LongestLine(chunks) > |zero| + 2 {
      NoLineNone(chunks);
      x := LongestPeak(r, chunks, end);
    } else {
      ChunksSmall(r, chunks);
      x := |texts| + |zero| + 1;
      PeakOf(r, texts, zero, "\r\n");
      assert texts + (zero + "\r\n" + "\r\n") == texts + end;
    }
  }

  lemma NoLineNone(chunks: seq<Chunk>)
    ensures chunks == [] ==> LongestLine(chunks) == 0
  {
  }

  // ---- The streams ------------------------------------------------------------------------------------

  /** What stands behind the last byte of the headers: small bytes only, and a peak. */
  lemma StreamExactly(p: Parser, count: nat, text: string, bufs: seq<string>, ahead: nat, lim: nat, peak: nat)
    requires Inv(p) && CountOk(p, count) && p.state.HeadersAlmostDone? && IsCut(bufs, [LF] + text)
    requires QuietFrom(Begin(p, count), [LF] + text) && Feed(p, count, bufs).parser.errno.Ok?
    requires var end := RunBytes(Begin(p, count), [LF] + text);
      !end.control.Fail? && end.reset && !end.parser.state.HeaderField? && !end.parser.state.HeaderValue?
    requires AllSmall(RunBytes(Begin(p, count), [LF]), text, lim)
    requires lim > MAX_HEADER_SIZE ==> IsPeak(RunBytes(Begin(p, count), [LF]), text, peak, lim)
    ensures ExceedsSomewhere(p, count, bufs, ahead) <==> count + ahead >= MAX_HEADER_SIZE || lim > MAX_HEADER_SIZE
  {
    hide RunBytes, Inv, CountOk, QuietFrom, Feed, Begin, ExceedsSomewhere, Quiet, Flatten;
    var start, all := Begin(p, count), [LF] + text;
    QuietFromQuiet(p, count, all);
    CutFlat(bufs, all);
    forall x: nat | 1 <= x <= |all|
      ensures x < |all| ==> Whole(p, count, bufs, x) == RunBytes(RunBytes(start, [LF]), text[..x - 1])
      ensures x == |all| ==> Whole(p, count, bufs, x) == RunBytes(start, all)
    {
      assert all[..x] == [LF] + text[..x - 1];
      RunBytesAppend(start, [LF], text[..x - 1]);
      assert x == |all| ==> all[..x] == all;
    }
    SmallStream(p, count, bufs, text, lim);
    LateExactly(p, count, bufs, ahead);
    if lim > MAX_HEADER_SIZE {
      assert Peak(p, count, bufs, peak + 1);
    }
  }

  lemma CutFlat(bufs: seq<string>, data: string)
    requires IsCut(bufs, data)
    ensures bufs != [] && NonEmpty(bufs) && Flatten(bufs) == data
  {
  }

  lemma SmallStream(p: Parser, count: nat, bufs: seq<string>, text: string, lim: nat)
    requires Flatten(bufs) == [LF] + text
    requires forall x: nat | 1 <= x < |text| + 1 :: Whole(p, count, bufs, x) == RunBytes(RunBytes(Begin(p, count), [LF]), text[..x - 1])
    requires var end := Whole(p, count, bufs, |text| + 1); end.reset && !end.parser.state.HeaderField? && !end.parser.state.HeaderValue?
    requires AllSmall(RunBytes(Begin(p, count), [LF]), text, lim)
    ensures ResetFirst(p, count, bufs)
    ensures lim <= MAX_HEADER_SIZE ==> forall x: nat | 1 <= x < |Flatten(bufs)| :: !Peak(p, count, bufs, x)
  {
    hide RunBytes, Begin, Flatten, Whole;
    forall x: nat | 1 <= x < |text| + 1
      ensures Small(Whole(p, count, bufs, x), lim)
    {
      assert Small(RunBytes(RunBytes(Begin(p, count), [LF]), text[..x - 1]), lim);
    }
  }

  // ---- The two framings -------------------------------------------------------------------------------

  lemma AfterHeaders(p: Parser, count: nat)
    requires AtHeadersEnd(Begin(p, count)) && HasBody(p)
    ensures var r := RunBytes(Begin(p, count), [LF]);
      r == BodyToCome(Begin(p, count), if p.flags.chunked then ChunkSizeStart else BodyIdentity)
      && r.reset && r.open.None? && !r.skipping && r.control.Advance? && r.parser.errno.Ok? && r.headerBytes == 0
    ensures QuietFrom(Begin(p, count), [LF])
  {
    hide Step;
    RunBytesOne(Begin(p, count), LF);
    HeadersEnd(Begin(p, count));
    QuietLast(Begin(p, count), LF);
  }

  lemma ChunkedSome(chunks: seq<Chunk>, zero: string)
    ensures ChunkedText(chunks, zero) != ""
  {
    hide ChunkTexts;
  }

  lemma IdleIsNoHeader(p: Parser)
    ensures !NewMessage(p).HeaderField? && !NewMessage(p).HeaderValue?
  {
  }

  /** A chunked message, however it is cut, is refused for its size exactly when the counter has
      reached the limit before it or a size line is longer than the limit. */
  lemma ChunkedFits(p: Parser, count: nat, chunks: seq<Chunk>, zero: string, bufs: seq<string>, ahead: nat)
    requires Inv(p) && AtHeadersEnd(Begin(p, count)) && p.flags.chunked
    requires (forall i | 0 <= i < |chunks| :: ChunkOk(chunks[i])) && IsHex(zero) && HexValue(zero) == 0
    requires IsCut(bufs, [LF] + ChunkedText(chunks, zero)) && Feed(p, count, bufs).parser.errno.Ok?
    ensures ExceedsSomewhere(p, count, bufs, ahead) <==> count + ahead >= MAX_HEADER_SIZE || Longest(chunks, zero) > MAX_HEADER_SIZE
  {
    hide RunBytes, Feed, Inv, ChunkOk, IsHex, HexValue, QuietFrom, IsCut, ChunkedText, Step, NewMessage, AllSmall, IsPeak, Longest,
      ExceedsSomewhere;
    var text, start := ChunkedText(chunks, zero), Begin(p, count);
    AfterHeaders(p, count);
    var r := RunBytes(start, [LF]);
    ChunkedBody(r, chunks, zero);
    assert text != "" by { ChunkedSome(chunks, zero); }
    var last := RunBytes(r, text[..|text| - 1]);
    IdleIsNoHeader(last.parser);
    HeaderBytesBound(r, text);
    RunBytesAppend(start, [LF], text);
    QuietFromAppend(start, [LF], text);
    BodySmall(r, chunks, zero);
    var x := BodyPeak(r, chunks, zero);
    StreamExactly(p, count, text, bufs, ahead, Longest(chunks, zero), x);
  }

  /** A message of known length: exactly when the counter has reached the limit before it. */
  lemma LengthFits(p: Parser, count: nat, data: string, bufs: seq<string>, ahead: nat)
    requires Inv(p) && AtHeadersEnd(Begin(p, count)) && !p.flags.chunked && 0 < |data| == p.contentLength != ABSENT
    requires IsCut(bufs, [LF] + data) && Feed(p, count, bufs).parser.errno.Ok?
    ensures ExceedsSomewhere(p, count, bufs, ahead) <==> count + ahead >= MAX_HEADER_SIZE
  {
    hide RunBytes, Feed, Inv, QuietFrom, IsCut, Step, NewMessage, AllSmall, ExceedsSomewhere;
    var start := Begin(p, count);
    AfterHeaders(p, count);
    var r := RunBytes(start, [LF]);
    LengthBody(r, data);
    IdleIsNoHeader(r.parser.(contentLength := 0));
    HeaderBytesBound(r, data);
    RunBytesAppend(start, [LF], data);
    QuietFromAppend(start, [LF], data);
    LengthSmall(r, data);
    StreamExactly(p, count, data, bufs, ahead, 0, 0);
  }

  lemma LengthSmall(r: Run, data: string)
    requires r.control.Advance? && !r.skipping && r.parser.state.BodyIdentity? && r.reset && r.open.None?
    requires |data| == r.parser.contentLength
    ensures AllSmall(r, data, 0)
  {
    forall x: nat | x < |data|
      ensures Small(RunBytes(r, data[..x]), 0)
    {
      if x == 0 {
        assert data[..x] == "";
      } else {
        BodySteps(r, data[..x]);
      }
    }
  }

  /** The real parser at the end of the headers of a chunked message, in any buffers: it takes the
      body exactly when its counter is below the limit and no size line is longer than that.  Then
      it delivers the chunks' data in order, announces and closes each chunk, and completes the
      message once.  Otherwise the error is the header limit. */
  method ReceiveChunked(parser: PushParser, bufs: seq<string>, ghost count: nat, ghost chunks: seq<Chunk>, ghost zero: string)
    returns (consumed: nat, events: seq<Event>)
    requires parser.Valid() && parser.errno.Ok? && count <= parser.nread
    requires AtHeadersEnd(Begin(parser.View(), count)) && parser.flags.chunked
    requires (forall i | 0 <= i < |chunks| :: ChunkOk(chunks[i])) && IsHex(zero) && HexValue(zero) == 0
    requires IsCut(bufs, [LF] + ChunkedText(chunks, zero)) && Sizes(bufs)
    modifies parser
    ensures parser.errno == if old(parser.nread) < MAX_HEADER_SIZE && Longest(chunks, zero) <= MAX_HEADER_SIZE then Ok else HeaderOverflow
    ensures parser.errno.Ok? ==>
      && consumed == 1 + |ChunkedText(chunks, zero)| && Joined(events, Body) == Payload(chunks)
      && Notices(events) == [HeadersComplete] + ChunkNotices(chunks)
                            + [ChunkHeader(0), ChunkComplete, MessageComplete(old(parser.verb), old(parser.statusCode))]
  {
    hide RunBytes, Feed, Inv, AtHeadersEnd, ChunkOk, IsHex, HexValue, ChunkedText, Longest, ExceedsSomewhere, AheadAll, CallsSince,
      Flatten, Notices, Joined, ChunkNotices, Payload, StateOk;
    ghost var p, ahead := parser.View(), parser.nread - count;
    ChunkedMessage(p, count, chunks, zero, bufs);
    ChunkedFits(p, count, chunks, zero, bufs, ahead);
    consumed, events := ExecuteAll(parser, bufs, count);
  }

  /** Likewise a message of known length. */
  method ReceiveLength(parser: PushParser, bufs: seq<string>, ghost count: nat, ghost data: string)
    returns (consumed: nat, events: seq<Event>)
    requires parser.Valid() && parser.errno.Ok? && count <= parser.nread
    requires AtHeadersEnd(Begin(parser.View(), count)) && !parser.flags.chunked && 0 < |data| == parser.contentLength != ABSENT
    requires IsCut(bufs, [LF] + data) && Sizes(bufs)
    modifies parser
    ensures parser.errno == if old(parser.nread) < MAX_HEADER_SIZE then Ok else HeaderOverflow
    ensures parser.errno.Ok? ==>
      && consumed == 1 + |data| && Joined(events, Body) == data
      && Notices(events) == [HeadersComplete, MessageComplete(old(parser.verb), old(parser.statusCode))]
  {
    hide RunBytes, Feed, Inv, AtHeadersEnd, ExceedsSomewhere, AheadAll, CallsSince, Flatten, Notices, Joined, StateOk;
    ghost var p, ahead := parser.View(), parser.nread - count;
    LengthMessage(p, count, data, bufs);
    LengthFits(p, count, data, bufs, ahead);
    consumed, events := ExecuteAll(parser, bufs, count);
  }
}
