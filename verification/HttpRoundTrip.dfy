/** What the encoder prints, the parser gives back. */
module HttpRoundTrip {
  import opened Options
  import opened HttpTypes
  import opened HttpMachine
  import opened HttpRun
  import opened HttpInvariant
  import opened HttpBlocks
  import opened HttpSplit
  import opened HttpFraming
  import opened HttpLength
  import opened HttpRecogniser
  import opened HttpExecute
  import opened HttpRequests
  import opened OrderedMap
  import opened HttpEncoders
  import opened HttpHeads
  import opened HttpCuts
  import opened HttpPieces
  import opened HttpParsers
  import opened HttpStored

  // ---- What can be printed and read back ------------------------------------------------------

  /** Bytes of a URL that decoding leaves alone. */
  predicate IsRaw(s: string) { forall i | 0 <= i < |s| :: IsQueryChar(s[i]) && s[i] != '%' && s[i] != '+' }

  predicate IsParameter(p: Entry) { p.key != "" && IsRaw(p.key) && IsRaw(p.value) && '=' !in p.key && '&' !in p.value }

  predicate Parameters(params: seq<Entry>) { forall i | 0 <= i < |params| :: IsParameter(params[i]) }

  predicate IsRequest(c: Content, m: Method) {
    && c.verb == MethodString(m) && m != CONNECT
    && c.url != "" && c.url[0] == '/' && IsRaw(c.url) && '?' !in c.url
    && Parameters(c.parameters)
    && PlainHeaders(c)
    && |c.body| <= MAX_DECIMAL
  }

  // ---- Parameters -------------------------------------------------------------------------------

  /** The text of the parameters from the `i`th on. */
  function Rest(params: seq<Entry>, i: nat): string
    requires i <= |params|
    decreases |params| - i
  {
    if i == |params| then ""
    else params[i].key + "=" + params[i].value + (if i + 1 < |params| then "&" + Rest(params, i + 1) else "")
  }

  function Mark(params: seq<Entry>, i: nat): string {
    if i == |params| then "" else if i == 0 then "?" else "&"
  }

  lemma TextSnoc(params: seq<Entry>, i: nat)
    requires i < |params|
    ensures ParametersText(params[..i + 1]) ==
      ParametersText(params[..i]) + Mark(params, i) + params[i].key + "=" + params[i].value
  {
    assert params[..i + 1][..i] == params[..i];
  }

  lemma TextNone(params: seq<Entry>)
    ensures ParametersText(params) == ParametersText(params[..|params|]) + Mark(params, |params|) + Rest(params, |params|)
  {
    assert params[..|params|] == params;
  }

  lemma {:induction false} ParametersTextRest(params: seq<Entry>, i: nat)
    requires i <= |params|
    ensures ParametersText(params) == ParametersText(params[..i]) + Mark(params, i) + Rest(params, i)
    decreases |params| - i
  {
    hide ParametersText, Mark, Rest;
    if i == |params| {
      TextNone(params);
    } else {
      ParametersTextRest(params, i + 1);
      TextSnoc(params, i);
      RestUnfold(params, i);
      RestGrouped(ParametersText(params[..i]), Mark(params, i), params[i], Mark(params, i + 1), Rest(params, i + 1));
    }
  }

  lemma RestUnfold(params: seq<Entry>, i: nat)
    requires i < |params|
    ensures Rest(params, i) == params[i].key + "=" + params[i].value + (Mark(params, i + 1) + Rest(params, i + 1))
  {
  }

  lemma RestGrouped(t: string, mark: string, p: Entry, next: string, rest: string)
    ensures t + mark + p.key + "=" + p.value + next + rest == t + mark + (p.key + "=" + p.value + (next + rest))
  {
    var x := p.key + "=" + p.value;
    assert t + mark + p.key + "=" + p.value == t + mark + x;
    assert x + (next + rest) == x + next + rest;
  }

  lemma RawAppend(a: string, b: string)
    requires IsRaw(a) && IsRaw(b)
    ensures IsRaw(a + b)
  {
  }

  lemma RawMarks()
    ensures IsRaw("") && IsRaw("?") && IsRaw("&") && IsRaw("=")
  {
  }

  lemma {:induction false} ParametersRaw(params: seq<Entry>)
    requires Parameters(params)
    ensures IsRaw(ParametersText(params))
  {
    hide IsRaw;
    RawMarks();
    if params != [] {
      var n := |params| - 1;
      var t, sep, p := ParametersText(params[..n]), if n == 0 then "?" else "&", params[n];
      assert IsParameter(p);
      assert forall i | 0 <= i < n :: IsParameter(params[i]);
      ParametersRaw(params[..n]);
      RawAppend(t, sep);
      RawAppend(t + sep, p.key);
      RawAppend(t + sep + p.key, "=");
      RawAppend(t + sep + p.key + "=", p.value);
    }
  }

  /** Reading the parameters from where the `i`th begins, behind `before`. */
  lemma {:induction false} ParametersRead(before: string, params: seq<Entry>, i: nat, got: map<string, string>)
    requires Parameters(params) && i < |params|
    ensures ParametersFrom(before + Rest(params, i), |before|, got) == got + MapOf(params[i..])
    decreases |params| - i
  {
    hide GetStringBefore, ParametersFrom, MapOf, IsParameter, Parameters, Placed;
    var p := params[i];
    assert IsParameter(p) by { TheParameter(params, i); }
    MapFrom(params, i, got);
    RestPlaced(before, params, i);
    if i + 1 == |params| {
      ParameterRead(before, p, "", got);
    } else {
      var rest := Rest(params, i + 1);
      ParameterRead(before, p, "&" + rest, got);
      Regrouped(before, p, rest);
      ParametersRead(before + (p.key + "=" + p.value + "&"), params, i + 1, got[p.key := p.value]);
    }
  }

  lemma RestPlaced(before: string, params: seq<Entry>, i: nat)
    requires i < |params|
    ensures before + Rest(params, i) ==
      Placed(before, params[i], if i + 1 < |params| then "&" + Rest(params, i + 1) else "")
  {
  }

  lemma MapFrom(params: seq<Entry>, i: nat, got: map<string, string>)
    requires i < |params|
    ensures got + MapOf(params[i..]) ==
      if i + 1 == |params| then got[params[i].key := params[i].value]
      else got[params[i].key := params[i].value] + MapOf(params[i + 1..])
  {
    hide MapOf;
    assert params[i..] == [params[i]] + params[i + 1..];
    MapOfSplit(params[i], params[i + 1..]);
    if i + 1 == |params| {
      assert params[i + 1..] == [];
      MapOfNone();
    }
  }

  lemma Regrouped(before: string, p: Entry, rest: string)
    ensures Placed(before, p, "&" + rest) == before + (p.key + "=" + p.value + "&") + rest
    ensures |before + (p.key + "=" + p.value + "&")| == |before| + |p.key| + 1 + |p.value| + 1
  {
    var t := p.key + "=" + p.value;
    assert t + ("&" + rest) == t + "&" + rest;
  }

  lemma TheParameter(params: seq<Entry>, i: nat)
    requires Parameters(params) && i < |params|
    ensures IsParameter(params[i])
  {
  }

  /** A parameter in its place. */
  function Placed(before: string, p: Entry, more: string): string { before + (p.key + "=" + p.value + more) }

  /** One parameter is read, up to the next. */
  lemma ParameterRead(before: string, p: Entry, more: string, got: map<string, string>)
    requires IsParameter(p) && (more != "" ==> more[0] == '&')
    ensures
      ParametersFrom(Placed(before, p, more), |before|, got) ==
      if more == "" then got[p.key := p.value]
      else ParametersFrom(Placed(before, p, more), |before| + |p.key| + 1 + |p.value| + 1, got[p.key := p.value])
  {
    hide GetStringBefore, ParametersFrom, IsParameter, Placed;
    var s := Placed(before, p, more);
    PlacedLength(before, p, more);
    KeyRead(before, p, more);
    ValueRead(before, p, more);
    KeyNotEmpty(p);
    StepTo(s, |before|, got, p);
  }

  /** The step that reads a given parameter. */
  lemma StepTo(s: string, offset: nat, got: map<string, string>, p: Entry)
    requires p.key != "" && offset + |p.key| + 1 + |p.value| <= |s|
    requires GetStringBefore('=', s, offset) == p.key && GetStringBefore('&', s, offset + |p.key| + 1) == p.value
    ensures var next := offset + |p.key| + 1 + |p.value|;
      ParametersFrom(s, offset, got) ==
      if next == |s| then got[p.key := p.value] else ParametersFrom(s, next + 1, got[p.key := p.value])
  {
    hide GetStringBefore, ParametersFrom;
    var next := offset + |p.key| + 1;
    ParametersFromStep(s, offset, got);
    if next >= |s| {
      ParametersFromEnd(s, next, got[p.key := p.value]);
    } else if next + |p.value| >= |s| {
      ParametersFromEnd(s, next + |p.value| + 1, got[p.key := p.value]);
    }
  }

  lemma PlacedLength(before: string, p: Entry, more: string)
    ensures |Placed(before, p, more)| == |before| + |p.key| + 1 + |p.value| + |more|
  {
  }

  lemma KeyNotEmpty(p: Entry)
    requires IsParameter(p)
    ensures p.key != ""
  {
  }

  lemma Piece(a: string, k: string, c: string)
    ensures (a + k + c)[|a|..|a| + |k|] == k
    ensures c != "" ==> (a + k + c)[|a| + |k|] == c[0]
  {
  }

  lemma BeforePiece(s: string, a: string, k: string, c: string, flag: char)
    requires s == a + k + c && flag !in k && (c != "" ==> c[0] == flag)
    ensures |a| <= |s| && GetStringBefore(flag, s, |a|) == k
  {
    hide GetStringBefore;
    Piece(a, k, c);
    assert |s| == |a| + |k| + |c|;
    BeforeIs(flag, s, |a|, k);
  }

  /** A key ends at the equals sign. */
  lemma KeyRead(before: string, p: Entry, more: string)
    requires IsParameter(p)
    ensures |before| <= |Placed(before, p, more)| && GetStringBefore('=', Placed(before, p, more), |before|) == p.key
  {
    hide GetStringBefore, IsRaw;
    var tail := "=" + p.value + more;
    KeyGrouped(before, p.key, tail);
    assert p.key + "=" + p.value + more == p.key + tail;
    BeforePiece(Placed(before, p, more), before, p.key, tail, '=');
  }

  lemma KeyGrouped(before: string, key: string, tail: string)
    ensures before + (key + tail) == before + key + tail
  {
  }

  /** A value ends at the ampersand or the end. */
  lemma ValueRead(before: string, p: Entry, more: string)
    requires IsParameter(p) && (more != "" ==> more[0] == '&')
    ensures var next := |before| + |p.key| + 1;
      next <= |Placed(before, p, more)| && GetStringBefore('&', Placed(before, p, more), next) == p.value
  {
    hide GetStringBefore, IsRaw;
    var head := p.key + "=";
    ValueGrouped(before, head, p.value, more);
    BeforePiece(Placed(before, p, more), before + head, p.value, more, '&');
  }

  lemma ValueGrouped(before: string, head: string, value: string, more: string)
    ensures before + (head + value + more) == before + head + value + more
  {
  }

  /** The URL and the parameters come back from their printed form. */
  lemma UrlRead(c: Content, m: Method)
    requires IsRequest(c, m)
    ensures var u := c.url + ParametersText(c.parameters);
      && IsUrlText(u) && Decoded(u) == u && GetStringBefore('?', u, 0) == c.url
      && ParametersFrom(u, |c.url| + 1, map[]) == MapOf(c.parameters)
  {
    hide GetStringBefore, ParametersFrom, MapOf, Decoded, IsRaw, PlainHeaders, MethodString, ParametersText, Rest, IsParameter,
      Parameters, IsUrlText;
    var params := c.parameters;
    var t := ParametersText(params);
    var u := c.url + t;
    ParametersRaw(params);
    RawAppend(c.url, t);
    RawIsUrl(u);
    DecodedSame(u);
    QuestionMark(params);
    if params == [] {
      assert u == c.url;
      BeforeIs('?', u, 0, c.url);
      ParametersFromEnd(u, |c.url| + 1, map[]);
      MapOfNone();
    } else {
      var rest := "?" + Rest(params, 0);
      assert u == "" + c.url + rest;
      BeforePiece(u, "", c.url, rest, '?');
      assert u == c.url + "?" + Rest(params, 0);
      ParametersRead(c.url + "?", params, 0, map[]);
      assert params[0..] == params;
    }
  }

  lemma QuestionMark(params: seq<Entry>)
    ensures ParametersText(params) == if params == [] then "" else "?" + Rest(params, 0)
  {
    hide Rest, ParametersText;
    NoText(params);
    if params != [] {
      ParametersTextRest(params, 0);
      assert "" + "?" + Rest(params, 0) == "?" + Rest(params, 0);
    }
  }

  lemma NoText(params: seq<Entry>)
    ensures ParametersText(params[..0]) == "" && (params == [] ==> ParametersText(params) == "")
  {
    assert params[..0] == [];
  }

  lemma RawIsUrl(u: string)
    requires IsRaw(u) && u != "" && u[0] == '/'
    ensures IsUrlText(u) && '+' !in u && '%' !in u
  {
  }

  // ---- The run ------------------------------------------------------------------------------------

  function RequestEvents(c: Content, m: Method): seq<Event> {
    [MessageBegin, Data(Url, c.url + ParametersText(c.parameters))] + MessageEvents(c, m, 0)
  }

  function Fresh(): Run { Begin(InitialParser(Both), 0) }

  lemma FreshStart()
    ensures AtStart(Fresh()) && Fresh().events == [] && Fresh().consumed == 0 && Fresh().headerBytes == 0
    ensures Fresh().parser == InitialParser(Both) && Fresh().parser.statusCode == 0 && Fresh().parser.errno.Ok?
  {
  }

  lemma HeadBehind(r: Run, line: string, head: string)
    requires HeadEnds(RunBytes(r, line), head) && RunBytes(r, line).headerBytes == r.headerBytes + |line|
    ensures HeadEnds(r, line + head)
  {
    hide RunBytes;
    RunBytesAppend(r, line, head[..|head| - 1]);
    assert (line + head)[..|line + head| - 1] == line + head[..|head| - 1];
  }

  /** The printed request is read to its end, where it completes. */
  lemma RequestRun(c: Content, m: Method)
    requires IsRequest(c, m)
    ensures var head, text := RequestLine(c) + HeaderSection(c), RequestText(c);
      var r1, r := RunBytes(Fresh(), head), RunBytes(Fresh(), text);
      && text == head + c.body && r1.consumed == |head|
      && (c.body != "" ==> AtBody(r1, |c.body|)) && HeadEnds(Fresh(), head) && IsIdle(r.parser.state)
      && r.control.Advance? && r.open.None? && r.parser.errno.Ok? && r.consumed == |text|
      && r.events == RequestEvents(c, m)
  {
    hide RunBytes, HeaderSection, MessageEvents, AtBody, PlainHeaders, MethodString, InitialParser, Fresh, AtStart, IsUrlText,
      ParametersText;
    var line, head := RequestLine(c), HeaderSection(c);
    FreshStart();
    UrlRead(c, m);
    RequestLineSteps(Fresh(), m, c.url + ParametersText(c.parameters));
    var r0 := RunBytes(Fresh(), line);
    MessageSteps(r0, m, c);
    RunBytesAppend(Fresh(), line, head);
    HeadBehind(Fresh(), line, head);
    RunBytesAppend(Fresh(), line, head + c.body);
    assert line + (head + c.body) == line + head + c.body;
    assert [] + [MessageBegin, Data(Url, c.url + ParametersText(c.parameters))] + MessageEvents(c, m, 0) == RequestEvents(c, m);
  }

  // ---- What the callbacks make of it -----------------------------------------------------------------

  /** What does not depend on where data callbacks are cut: all but the headers. */
  datatype Essence = Essence(
    url: string, urlAndParams: string, status: int, verb: string, parameters: map<string, string>, body: string, complete: bool)

  function Core(r: Received): Essence {
    Essence(r.url, r.urlAndParams, r.status, r.verb, r.parameters, r.body, r.complete)
  }

  lemma CoreHeader(r: Received, e: Event)
    requires e.Data? && (e.kind == Field || e.kind == Value)
    ensures Core(Apply(r, e)) == Core(r)
  {
  }

  lemma CoreFinished(r: Received, s: Received, m: Method, statusCode: int)
    requires Core(r) == Core(s)
    ensures Core(Finished(r, m, statusCode)) == Core(Finished(s, m, statusCode))
  {
    hide Decoded, GetStringBefore, ParametersFrom, MethodString;
  }

  lemma CoreApply(r: Received, s: Received, e: Event)
    requires Core(r) == Core(s)
    ensures Core(Apply(r, e)) == Core(Apply(s, e))
  {
    hide Core, Apply;
    if e.Data? && (e.kind == Field || e.kind == Value) {
      CoreHeader(r, e);
      CoreHeader(s, e);
    } else if e.MessageComplete? {
      CoreComplete(r, s, e.verb, e.statusCode);
    } else {
      CoreOther(r, s, e);
    }
  }

  lemma CoreComplete(r: Received, s: Received, verb: Method, statusCode: int)
    requires Core(r) == Core(s)
    ensures Core(Apply(r, MessageComplete(verb, statusCode))) == Core(Apply(s, MessageComplete(verb, statusCode)))
  {
    hide Core, Finished;
    CoreFinished(r, s, verb, statusCode);
  }

  lemma CoreOther(r: Received, s: Received, e: Event)
    requires Core(r) == Core(s) && !e.MessageComplete? && !(e.Data? && (e.kind == Field || e.kind == Value))
    ensures Core(Apply(r, e)) == Core(Apply(s, e))
  {
    hide Finished, StoreHeader, Core;
    if e.Data? && e.kind == Url {
      CoreUrl(r, s, e.bytes);
    } else if e.Data? && e.kind == Body {
      CoreBody(r, s, e.bytes);
    }
  }

  lemma CoreUrl(r: Received, s: Received, bytes: string)
    requires Core(r) == Core(s)
    ensures Core(r.(urlAndParams := r.urlAndParams + bytes)) == Core(s.(urlAndParams := s.urlAndParams + bytes))
  {
  }

  lemma CoreBody(r: Received, s: Received, bytes: string)
    requires Core(r) == Core(s)
    ensures Core(r.(body := r.body + bytes)) == Core(s.(body := s.body + bytes))
  {
  }

  lemma CoreJoin(r: Received, kind: DataKind, x: string, y: string)
    ensures Core(Apply(Apply(r, Data(kind, x)), Data(kind, y))) == Core(Apply(r, Data(kind, x + y)))
  {
    assert r.urlAndParams + x + y == r.urlAndParams + (x + y);
    assert r.body + x + y == r.body + (x + y);
    assert x == "" ==> x + y == y;
    assert y == "" ==> x + y == x;
  }

  lemma {:induction false} CoalesceCore(r: Received, events: seq<Event>)
    ensures Core(ApplyAll(r, Coalesce(events))) == Core(ApplyAll(r, events))
  {
    hide Apply, Core, Push;
    if events != [] {
      var n := |events| - 1;
      var log, e := Coalesce(events[..n]), events[n];
      CoalesceCore(r, events[..n]);
      PushCore(r, log, e);
      CoreApply(ApplyAll(r, log), ApplyAll(r, events[..n]), e);
    }
  }

  lemma PushCore(r: Received, log: seq<Event>, e: Event)
    ensures Core(ApplyAll(r, Push(log, e))) == Core(Apply(ApplyAll(r, log), e))
  {
    hide Apply, Core;
    if log != [] && e.Data? && log[|log| - 1].Data? && log[|log| - 1].kind == e.kind {
      var n := |log| - 1;
      var joined := Data(e.kind, log[n].bytes + e.bytes);
      assert (log[..n] + [joined])[..n] == log[..n];
      CoreJoin(ApplyAll(r, log[..n]), e.kind, log[n].bytes, e.bytes);
    } else {
      assert (log + [e])[..|log|] == log;
    }
  }

  lemma ApplyOne(r: Received, e: Event)
    ensures ApplyAll(r, [e]) == Apply(r, e)
  {
    assert [e][..0] == [];
  }

  /** What has been received when a printed request has been read. */
  predicate GivesBack(got: Received, c: Content) {
    && got.complete && got.verb == c.verb && got.url == c.url && got.parameters == MapOf(c.parameters) && got.body == c.body
    && got.status == 0
  }

  lemma CoreGivesBack(r: Received, s: Received, c: Content)
    requires Core(r) == Core(s) && GivesBack(r, c)
    ensures GivesBack(s, c)
  {
    hide MapOf;
  }

  /** Headers change nothing else. */
  lemma {:induction false} HeaderEventsCore(r: Received, headers: seq<Entry>)
    ensures Core(ApplyAll(r, HeaderEvents(headers))) == Core(r)
  {
    hide Apply, Core;
    if headers != [] {
      var n := |headers| - 1;
      var before, h := HeaderEvents(headers[..n]), headers[n];
      HeaderEventsCore(r, headers[..n]);
      ApplySnoc(r, before, Data(Field, h.key));
      ApplySnoc(r, before + [Data(Field, h.key)], Data(Value, h.value));
      assert before + [Data(Field, h.key)] + [Data(Value, h.value)] == before + [Data(Field, h.key), Data(Value, h.value)];
      CoreHeader(ApplyAll(r, before), Data(Field, h.key));
      CoreHeader(Apply(ApplyAll(r, before), Data(Field, h.key)), Data(Value, h.value));
    } else {
      ApplyNothing(r);
    }
  }

  /** The body and the end of a message. */
  function EndEvents(c: Content, m: Method, sc: int): seq<Event> {
    [HeadersComplete] + (if c.body == "" then [] else [Data(Body, c.body)]) + [MessageComplete(m, sc)]
  }

  lemma EndApplied(r: Received, c: Content, m: Method, sc: int)
    ensures Core(ApplyAll(r, EndEvents(c, m, sc))) == Core(Finished(r.(body := r.body + c.body), m, sc))
  {
    hide ApplyAll, Finished;
    var body := if c.body == "" then [] else [Data(Body, c.body)];
    ApplyAllAppend(r, [HeadersComplete] + body, [MessageComplete(m, sc)]);
    ApplyAllAppend(r, [HeadersComplete], body);
    ApplyOne(r, HeadersComplete);
    ApplyOne(r, Data(Body, c.body));
    ApplyNothing(r);
    assert r.body + "" == r.body;
    ApplyOne(r.(body := r.body + c.body), MessageComplete(m, sc));
  }

  /** A message behind its start line. */
  lemma MessageApplied(r: Received, c: Content, m: Method, sc: int)
    ensures Core(ApplyAll(r, MessageEvents(c, m, sc))) == Core(Finished(r.(body := r.body + c.body), m, sc))
  {
    hide ApplyAll, Finished, HeaderEvents, AllHeaders;
    var es := HeaderEvents(AllHeaders(c));
    assert MessageEvents(c, m, sc) == es + EndEvents(c, m, sc);
    ApplyAllAppend(r, es, EndEvents(c, m, sc));
    HeaderEventsCore(r, AllHeaders(c));
    var r1 := ApplyAll(r, es);
    EndApplied(r1, c, m, sc);
    CoreFinished(r1.(body := r1.body + c.body), r.(body := r.body + c.body), m, sc);
  }

  lemma RequestApplied(c: Content, m: Method, status: int)
    requires IsRequest(c, m)
    ensures GivesBack(ApplyAll(NothingReceived(status), RequestEvents(c, m)), c)
  {
    hide ApplyAll, MessageEvents, MapOf, Decoded, GetStringBefore, ParametersFrom, MethodString, ParametersText, IsUrlText,
      Parameters, IsRaw, PlainHeaders;
    var r0 := NothingReceived(status);
    var u := c.url + ParametersText(c.parameters);
    UrlRead(c, m);
    ApplyAllAppend(r0, [MessageBegin, Data(Url, u)], MessageEvents(c, m, 0));
    assert [MessageBegin, Data(Url, u)] == [MessageBegin] + [Data(Url, u)];
    ApplyAllAppend(r0, [MessageBegin], [Data(Url, u)]);
    ApplyOne(r0, MessageBegin);
    ApplyOne(r0, Data(Url, u));
    assert "" + u == u && "" + c.body == c.body;
    MessageApplied(r0.(urlAndParams := u), c, m, 0);
  }

  /** The headers that are printed, as a map. */
  function HeaderMap(c: Content): map<string, string> {
    map["Content-Length" := Decimal(|c.body|), "Connection" := ConnectionValue(c.closeConnection)] + MapOf(c.headers)
  }

  lemma AllHeadersMap(c: Content)
    ensures MapOf(AllHeaders(c)) == HeaderMap(c)
  {
    hide MapOf, Decimal;
    var a := Entry("Content-Length", Decimal(|c.body|));
    var b := Entry("Connection", ConnectionValue(c.closeConnection));
    MapOfAppend([a, b], c.headers);
    assert [a, b] == [a] + [b];
    MapOfSplit(a, [b]);
    MapOfOne(b);
    assert "Content-Length"[1] != "Connection"[1] || "Content-Length"[3] != "Connection"[3];
  }

  /** The same without the headers that have no value. */
  function WithValues(c: Content): Content { c.(headers := Kept(c.headers)) }

  lemma KeptHeadersMap(c: Content)
    ensures MapOf(Kept(AllHeaders(c))) == HeaderMap(WithValues(c))
  {
    hide MapOf, Decimal, Kept, HeaderMap;
    var two := [AllHeaders(c)[0], AllHeaders(c)[1]];
    KeptAppend(two, c.headers);
    KeptAll(two);
    AllHeadersMap(WithValues(c));
  }

  lemma {:induction false} HeaderEventsNoNotices(headers: seq<Entry>)
    ensures Notices(HeaderEvents(headers)) == []
  {
    if headers != [] {
      var n := |headers| - 1;
      var pair := [Data(Field, headers[n].key), Data(Value, headers[n].value)];
      HeaderEventsNoNotices(headers[..n]);
      JoinedAppend(HeaderEvents(headers[..n]), pair, Body);
      assert pair == [pair[0]] + [pair[1]];
      JoinedAppend([pair[0]], [pair[1]], Body);
      JoinedOne(pair[0], Body);
      JoinedOne(pair[1], Body);
    }
  }

  /** A message has one end of its headers and one end. */
  lemma MessageNotices(c: Content, m: Method, sc: int)
    ensures Notices(MessageEvents(c, m, sc)) == [HeadersComplete, MessageComplete(m, sc)]
  {
    hide Notices, HeaderEvents, Joined, AllHeaders;
    var es := HeaderEvents(AllHeaders(c));
    var body := if c.body == "" then [] else [Data(Body, c.body)];
    HeaderEventsNoNotices(AllHeaders(c));
    JoinedOne(HeadersComplete, Body);
    JoinedOne(Data(Body, c.body), Body);
    JoinedOne(MessageComplete(m, sc), Body);
    NoNotices();
    assert MessageEvents(c, m, sc) == es + EndEvents(c, m, sc);
    JoinedAppend(es, EndEvents(c, m, sc), Body);
    JoinedAppend([HeadersComplete] + body, [MessageComplete(m, sc)], Body);
    JoinedAppend([HeadersComplete], body, Body);
  }

  lemma RequestNotices(c: Content, m: Method)
    ensures Notices(RequestEvents(c, m)) == [MessageBegin, HeadersComplete, MessageComplete(m, 0)]
  {
    hide Notices, MessageEvents, ParametersText;
    var u := Data(Url, c.url + ParametersText(c.parameters));
    JoinedOne(MessageBegin, Body);
    JoinedOne(u, Body);
    assert [MessageBegin, u] == [MessageBegin] + [u];
    JoinedAppend([MessageBegin], [u], Body);
    JoinedAppend([MessageBegin, u], MessageEvents(c, m, 0), Body);
    MessageNotices(c, m, 0);
  }

  lemma NoNotices()
    ensures Notices([]) == []
  {
  }

  // ---- Every cut ---------------------------------------------------------------------------------------

  lemma {:induction false} ParametersTextChars(params: seq<Entry>)
    requires Parameters(params)
    ensures AllHeaderChars(ParametersText(params))
  {
    hide IsRaw;
    ParametersRaw(params);
    RawIsText(ParametersText(params));
  }

  lemma RawIsText(s: string)
    requires IsRaw(s)
    ensures AllHeaderChars(s)
  {
  }

  lemma TextJoin(a: string, b: string)
    requires AllHeaderChars(a) && AllHeaderChars(b)
    ensures AllHeaderChars(a + b)
  {
    hide IsHeaderChar;
  }

  lemma MethodIsText(m: Method)
    ensures AllHeaderChars(MethodString(m))
  {
    hide MethodString;
  }

  lemma NameIsText(name: string)
    requires IsTokens(name)
    ensures AllHeaderChars(name)
  {
    forall i | 0 <= i < |name|
      ensures IsHeaderChar(name[i])
    {
      assert Token(name[i]) != '\0';
    }
  }

  lemma ValueIsText(value: string)
    requires IsValueText(value)
    ensures AllHeaderChars(value)
  {
  }

  lemma MarksAreText()
    ensures AllHeaderChars(": ") && AllHeaderChars("\r\n") && AllHeaderChars(" ") && AllHeaderChars(" HTTP/1.1\r\n") && AllHeaderChars("")
  {
  }

  lemma LineIsText(h: Entry)
    requires IsTokens(h.key) && IsValueText(h.value)
    ensures AllHeaderChars(HeaderLine(h))
  {
    hide AllHeaderChars;
    NameIsText(h.key);
    ValueIsText(h.value);
    MarksAreText();
    TextJoin(h.key, ": ");
    TextJoin(h.key + ": ", h.value);
    TextJoin(h.key + ": " + h.value, "\r\n");
  }

  lemma {:induction false} LinesAreText(headers: seq<Entry>)
    requires forall i | 0 <= i < |headers| :: IsPlain(headers[i])
    ensures AllHeaderChars(HeadersText(headers))
  {
    hide AllHeaderChars, HeaderLine, NamesLength, LowerName, IsTokens, IsValueText;
    MarksAreText();
    if headers != [] {
      var n := |headers| - 1;
      assert forall i | 0 <= i < n :: IsPlain(headers[i]);
      LinesAreText(headers[..n]);
      assert IsPlain(headers[n]);
      PlainIsText(headers[n]);
      LineIsText(headers[n]);
      TextJoin(HeadersText(headers[..n]), HeaderLine(headers[n]));
    }
  }

  lemma PlainIsText(h: Entry)
    requires IsPlain(h)
    ensures IsTokens(h.key) && IsValueText(h.value)
  {
  }

  lemma ConnectionValueText(close: bool)
    ensures IsValueText(ConnectionValue(close))
  {
  }

  lemma SectionIsText(c: Content)
    requires PlainHeaders(c)
    ensures AllHeaderChars(HeaderSection(c))
  {
    hide AllHeaderChars, HeaderLine, IsTokens, IsValueText, Decimal, NamesLength, LowerName, HeadersText, IsPlain;
    LengthName();
    ConnectionName();
    DecimalExact(|c.body|);
    DigitsAreText(Decimal(|c.body|));
    ConnectionValueText(c.closeConnection);
    LineIsText(Entry("Content-Length", Decimal(|c.body|)));
    LineIsText(Entry("Connection", ConnectionValue(c.closeConnection)));
    LinesAreText(c.headers);
    MarksAreText();
    TextJoin(LengthLine(c), ConnectionLine(c));
    TextJoin(LengthLine(c) + ConnectionLine(c), HeadersText(c.headers));
    TextJoin(LengthLine(c) + ConnectionLine(c) + HeadersText(c.headers), "\r\n");
  }

  lemma RequestLineIsText(c: Content, m: Method)
    requires IsRequest(c, m)
    ensures AllHeaderChars(RequestLine(c))
  {
    hide AllHeaderChars, IsRaw, MethodString, PlainHeaders, ParametersText, IsParameter;
    MethodIsText(m);
    RawIsText(c.url);
    ParametersTextChars(c.parameters);
    MarksAreText();
    var u := c.url + ParametersText(c.parameters);
    TextJoin(c.url, ParametersText(c.parameters));
    TextJoin(c.verb, " ");
    TextJoin(c.verb + " ", u);
    TextJoin(c.verb + " " + u, " HTTP/1.1\r\n");
  }

  /** A printed request can be cut anywhere. */
  lemma RequestQuiet(c: Content, m: Method)
    requires IsRequest(c, m)
    ensures QuietFrom(Fresh(), RequestText(c))
  {
    hide RunBytes, RequestLine, HeaderSection, AllHeaderChars, QuietFrom, Fresh, MethodString, Parameters, IsRaw, RequestEvents;
    var head := RequestLine(c) + HeaderSection(c);
    RequestRun(c, m);
    FreshStart();
    RequestLineIsText(c, m);
    SectionIsText(c);
    TextJoin(RequestLine(c), HeaderSection(c));
    QuietText(Fresh(), head);
    if c.body == "" {
      assert head + c.body == head;
    } else {
      var r1 := RunBytes(Fresh(), head);
      QuietBlock(r1, c.body);
      QuietFromAppend(Fresh(), head, c.body);
    }
  }

  // ---- The headers --------------------------------------------------------------------------------------

  /** What a printed message leaves at its end: the names and values of its headers. */
  lemma MessageParts(line: seq<Event>, c: Content, m: Method, sc: int)
    requires SameParts(line, [])
    ensures SameParts(line + MessageEvents(c, m, sc), HeaderEvents(AllHeaders(c)))
  {
    hide Joined, HeaderEvents, AllHeaders;
    KindParts(line, c, m, sc, Field);
    KindParts(line, c, m, sc, Value);
  }

  lemma KindParts(line: seq<Event>, c: Content, m: Method, sc: int, kind: DataKind)
    requires Joined(line, kind) == Joined([], kind) && (kind == Field || kind == Value)
    ensures Joined(line + MessageEvents(c, m, sc), kind) == Joined(HeaderEvents(AllHeaders(c)), kind)
  {
    hide *;
    var es := HeaderEvents(AllHeaders(c));
    MessageIsHeaders(c, m, sc);
    JoinedAppend(line, MessageEvents(c, m, sc), kind);
    JoinedAppend(es, EndEvents(c, m, sc), kind);
    EndParts(c, m, sc, kind);
    JoinedNone(kind);
    assert "" + (Joined(es, kind) + "") == Joined(es, kind);
  }

  lemma MessageIsHeaders(c: Content, m: Method, sc: int)
    ensures MessageEvents(c, m, sc) == HeaderEvents(AllHeaders(c)) + EndEvents(c, m, sc)
  {
    hide HeaderEvents, AllHeaders;
  }

  lemma EndParts(c: Content, m: Method, sc: int, kind: DataKind)
    requires kind == Field || kind == Value
    ensures Joined(EndEvents(c, m, sc), kind) == ""
  {
    hide Joined;
    var body := if c.body == "" then [] else [Data(Body, c.body)];
    JoinedAppend([HeadersComplete] + body, [MessageComplete(m, sc)], kind);
    JoinedAppend([HeadersComplete], body, kind);
    JoinedOne(HeadersComplete, kind);
    JoinedOne(Data(Body, c.body), kind);
    JoinedOne(MessageComplete(m, sc), kind);
    JoinedNone(kind);
  }

  /** A whole message behind its start line, as it stands in the stream. */
  function Message(line: string, c: Content): string { line + (HeadersText(AllHeaders(c)) + ("\r\n" + c.body)) }

  lemma MessageIs(line: string, c: Content)
    ensures Message(line, c) == line + HeaderSection(c) + c.body
  {
    hide HeadersText, AllHeaders, LengthLine, ConnectionLine;
    AllLines(c);
    var lines := HeadersText(AllHeaders(c));
    Grouped(line, lines, c.body);
  }

  lemma Grouped(line: string, lines: string, body: string)
    ensures line + (lines + ("\r\n" + body)) == line + (lines + "\r\n") + body
  {
  }

  /** However a message is cut: where no buffer ends strictly inside a name or a value, all headers
      that have a value are stored, each under its name; and all the headers that were printed come
      back exactly when, besides, all of them have one. */
  lemma MessageHeaders(line: string, m: Method, c: Content, status: int, bufs: seq<string>)
    requires |c.body| <= MAX_DECIMAL && PlainHeaders(c) && IsCut(bufs, Message(line, c))
    requires QuietFrom(Fresh(), Message(line, c))
    requires AtHeaders(RunBytes(Fresh(), line), m) && SameParts(RunBytes(Fresh(), line).events, [])
    requires var end := RunBytes(Fresh(), Message(line, c));
      end.control.Advance? && end.open.None? && SameParts(end.events, HeaderEvents(AllHeaders(c)))
    ensures var got := ApplyAll(NothingReceived(status), Feed(InitialParser(Both), 0, bufs).events).headers;
      var cut := CutInside(AllHeaders(c), |line|, Ends(bufs));
      && (!cut ==> got == HeaderMap(WithValues(c)))
      && (Distinct(c.headers) ==> (got == HeaderMap(c) <==> AllValued(c.headers) && !cut))
  {
    hide RunBytes, CutRun, QuietFrom, ApplyAll, LinesPieces, HeaderPart, AtLine, AllHeaders, PlainHeaders, HeadersText, SameParts,
      HeaderEvents, HeaderMap, CutInside, InitialParser, FilingOf, Inv, Ends, Kept;
    FreshStart();
    FreshRun();
    MessagePieces(Fresh(), line, m, c, "\r\n" + c.body, Ends(bufs));
    QuietFromQuiet(InitialParser(Both), 0, Message(line, c));
    FeedIsCutRun(InitialParser(Both), 0, bufs);
    var s := CutRun(Fresh(), 0, Message(line, c), Ends(bufs));
    assert s.events + [] == s.events;
    var r0 := NothingReceived(status);
    FilingParts(r0, s.events);
    FilingHeaders(ApplyAll(r0, s.events), ApplyAll(r0, LinesPieces(AllHeaders(c), |line|, Ends(bufs))));
    HeadersDistinct(c);
    if !CutInside(AllHeaders(c), |line|, Ends(bufs)) {
      WholeStored(r0, AllHeaders(c), |line|, Ends(bufs));
      KeptHeadersMap(c);
      NoneAdded(MapOf(Kept(AllHeaders(c))));
    }
    if Distinct(c.headers) {
      StoredExactly(r0, AllHeaders(c), |line|, Ends(bufs));
      AllHeadersMap(c);
    }
  }

  lemma NoneAdded(m: map<string, string>)
    ensures map[] + m == m
  {
  }

  lemma FreshRun()
    ensures RunOk(Fresh()) && Fresh() == Begin(InitialParser(Both), 0) && Inv(InitialParser(Both)) && CountOk(InitialParser(Both), 0)
    ensures Fresh().control.Advance? && Fresh().open.None? && Fresh().events == []
  {
    BeginOk(InitialParser(Both), 0);
  }

  lemma FilingHeaders(r: Received, s: Received)
    requires FilingOf(r) == FilingOf(s)
    ensures r.headers == s.headers
  {
  }

  /** The two headers that are always printed have names of their own, and values. */
  lemma HeadersDistinct(c: Content)
    requires PlainHeaders(c)
    ensures AllNamed(AllHeaders(c)) && (Distinct(c.headers) ==> Distinct(AllHeaders(c)))
    ensures AllValued(AllHeaders(c)) <==> AllValued(c.headers)
  {
    hide Decimal, IsTokens, IsClean, NamesLength, LowerName;
    LengthName();
    ConnectionName();
    var hs := AllHeaders(c);
    forall i | 2 <= i < |hs|
      ensures hs[i].key != "" && hs[i].key != "Content-Length" && hs[i].key != "Connection"
    {
      assert hs[i] == c.headers[i - 2] && IsPlain(c.headers[i - 2]);
    }
    assert hs[0].key != hs[1].key by { assert hs[0].key[2] != hs[1].key[2] || hs[0].key[3] != hs[1].key[3]; }
    if AllValued(hs) {
      forall i | 0 <= i < |c.headers|
        ensures c.headers[i].value != ""
      {
        assert hs[i + 2] == c.headers[i];
      }
    }
  }

  lemma RequestMessage(c: Content, m: Method)
    requires IsRequest(c, m)
    ensures var line := RequestLine(c);
      && RequestText(c) == Message(line, c) && QuietFrom(Fresh(), Message(line, c))
      && AtHeaders(RunBytes(Fresh(), line), m) && SameParts(RunBytes(Fresh(), line).events, [])
      && var end := RunBytes(Fresh(), Message(line, c));
         end.control.Advance? && end.open.None? && SameParts(end.events, HeaderEvents(AllHeaders(c)))
  {
    hide RunBytes, QuietFrom, HeaderSection, MessageEvents, PlainHeaders, MethodString, InitialParser, Fresh, AtStart, IsUrlText,
      ParametersText, SameParts, Message, HeaderEvents;
    var u := c.url + ParametersText(c.parameters);
    MessageIs(RequestLine(c), c);
    FreshStart();
    UrlRead(c, m);
    RequestLineSteps(Fresh(), m, u);
    RequestRun(c, m);
    RequestQuiet(c, m);
    assert [] + [MessageBegin, Data(Url, u)] == [MessageBegin, Data(Url, u)];
    LineParts([MessageBegin, Data(Url, u)]);
    MessageParts([MessageBegin, Data(Url, u)], c, m, 0);
  }

  /** Two callbacks that say nothing of a header. */
  lemma LineParts(es: seq<Event>)
    requires |es| == 2 && forall e | e in es :: e.Data? ==> e.kind != Field && e.kind != Value
    ensures SameParts(es, [])
  {
    assert es[..1][..0] == [] && es[1] in es && es[0] in es;
  }

  // ---- Every cut ---------------------------------------------------------------------------------------

  /** However a printed request is cut into buffers, the request completes, once, and gives back its
      method, URL, parameters and body.  Its headers, too, come back exactly when each has a value
      and no buffer ends strictly inside the name or the value of one. */
  lemma EveryCutRoundTrip(c: Content, m: Method, status: int, bufs: seq<string>)
    requires IsRequest(c, m) && IsCut(bufs, RequestText(c))
    ensures var f := Feed(InitialParser(Both), 0, bufs);
      var got := ApplyAll(NothingReceived(status), f.events);
      var cut := CutInside(AllHeaders(c), |RequestLine(c)|, Ends(bufs));
      && f.parser.errno.Ok? && f.consumed == |RequestText(c)|
      && Notices(f.events) == [MessageBegin, HeadersComplete, MessageComplete(m, 0)]
      && GivesBack(got, c)
      && (!cut ==> got.headers == HeaderMap(WithValues(c)))
      && (Distinct(c.headers) ==> (got.headers == HeaderMap(c) <==> AllValued(c.headers) && !cut))
  {
    hide RunBytes, Feed, Inv, IsRequest, RequestText, RequestLine, RequestEvents, QuietFrom, IsCut, ApplyAll, Notices, Coalesce,
      MapOf, GivesBack, AtHeaders, SameParts, CutInside, HeaderMap, Ends, Kept, AllHeaders;
    var p := InitialParser(Both);
    var f := Feed(p, 0, bufs);
    var r0 := NothingReceived(status);
    var es := RequestEvents(c, m);
    RequestRun(c, m);
    RequestNotEmpty(c);
    RequestQuiet(c, m);
    QuietFromQuiet(p, 0, RequestText(c));
    SplitInvariance(p, 0, RequestText(c), bufs);
    FeedOneBuffer(p, 0, RequestText(c));
    assert [] + (es + []) == es;
    CoalesceKeeps(f.events, Body);
    CoalesceKeeps(es, Body);
    RequestNotices(c, m);
    CoalesceCore(r0, f.events);
    CoalesceCore(r0, es);
    RequestApplied(c, m, status);
    CoreGivesBack(ApplyAll(r0, es), ApplyAll(r0, f.events), c);
    RequestMessage(c, m);
    IsRequestPlain(c, m);
    MessageHeaders(RequestLine(c), m, c, status, bufs);
  }

  lemma IsRequestPlain(c: Content, m: Method)
    requires IsRequest(c, m)
    ensures |c.body| <= MAX_DECIMAL && PlainHeaders(c)
  {
  }

  lemma RequestNotEmpty(c: Content)
    ensures RequestText(c) != "" && InitialParser(Both).errno.Ok? && Fresh() == Begin(InitialParser(Both), 0)
  {
    hide HeaderSection;
    assert RequestLine(c) != "";
  }

  /** The round trip: a printed request, read by a new parser in one buffer, completes, and method,
      URL, parameters and body are those that were printed.  The headers are those that were
      added with a value, with Content-Length and Connection: one without a value is lost. */
  lemma RequestRoundTrip(c: Content, m: Method, status: int)
    requires IsRequest(c, m)
    ensures var call := Call(InitialParser(Both), 0, RequestText(c));
      var got := ApplyAll(NothingReceived(status), call.events);
      && call.parser.errno.Ok? && call.consumed == |RequestText(c)|
      && Notices(call.events) == [MessageBegin, HeadersComplete, MessageComplete(m, 0)]
      && GivesBack(got, c) && got.headers == HeaderMap(WithValues(c))
  {
    hide Call, ApplyAll, RequestText, IsRequest, GivesBack, Notices, InitialParser, HeaderMap, CutInside, Kept, Feed;
    RequestNotEmpty(c);
    OneBufferCut(RequestText(c), AllHeaders(c), |RequestLine(c)|);
    EveryCutRoundTrip(c, m, status, [RequestText(c)]);
    FeedOneBuffer(InitialParser(Both), 0, RequestText(c));
    NothingBefore(Call(InitialParser(Both), 0, RequestText(c)).events);
  }

  lemma NothingBefore(es: seq<Event>)
    ensures [] + es == es
  {
  }

  lemma OneBufferCut(data: string, headers: seq<Entry>, off: nat)
    requires data != ""
    ensures IsCut([data], data) && !CutInside(headers, off, Ends([data]))
  {
    assert [data][..0] == [];
    assert Flatten([data][..0]) == "";
    assert "" + data == data;
  }
}
