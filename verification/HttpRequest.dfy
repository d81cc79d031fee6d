/** What the byte machine does with the parts of a printed message: the request line, one header
    line after another, the empty line and the body. */
module HttpRequests {
  import opened Options
  import opened HttpTypes
  import opened HttpMachine
  import opened HttpRun
  import opened HttpInvariant
  import opened HttpBlocks
  import opened HttpSplit
  import opened HttpFraming
  import opened HttpLength
  import opened HttpRecogniser

  // ---- The request line ---------------------------------------------------------------------

  predicate IsQueryChar(c: char) { IsUrlChar(c) || c == '?' }

  /** A URL that starts with a slash and has no fragment. */
  predicate IsUrlText(u: string) { u != "" && u[0] == '/' && forall i | 0 <= i < |u| :: IsQueryChar(u[i]) }

  predicate IsPathState(s: State) { s.ReqPath? || s.ReqQueryStringStart? || s.ReqQueryString? }

  lemma UrlFirst(r: Run)
    requires r.control.Advance? && r.parser.state.ReqSpacesBeforeUrl? && r.parser.verb != CONNECT && r.open.None? && !r.skipping
    ensures Step(r, '/') ==
      r.(parser := r.parser.(state := ReqPath), open := Some(Datum(Url, "/")), headerBytes := r.headerBytes + 1,
         consumed := r.consumed + 1)
  {
    assert "" + ['/'] == "/";
  }

  lemma UrlTransition(p: Parser, ch: char)
    requires IsPathState(p.state) && IsQueryChar(ch)
    ensures var s := ParseUrlChar(p.state, ch); IsPathState(s) && TransUrl(p, ch) == Stay(p.(state := s))
  {
  }

  lemma UrlByte(r: Run, ch: char)
    requires r.control.Advance? && IsPathState(r.parser.state) && IsQueryChar(ch) && IsOpen(r.open, Url)
    ensures var q := r.parser.(state := Step(r, ch).parser.state);
      IsPathState(q.state) && Step(r, ch) == Moved(r, q, false, ch)
  {
    hide TransUrl, ParseUrlChar, IsQueryChar, Step;
    UrlTransition(r.parser, ch);
    MovedStep(r, ch, r.parser.(state := ParseUrlChar(r.parser.state, ch)), false);
  }

  lemma {:induction false} UrlSteps(r: Run, u: string)
    requires r.control.Advance? && r.parser.state.ReqSpacesBeforeUrl? && r.parser.verb != CONNECT && r.open.None? && !r.skipping
    requires IsUrlText(u)
    ensures var r' := RunBytes(r, u);
      && IsPathState(r'.parser.state)
      && r' == r.(parser := r.parser.(state := r'.parser.state), open := Some(Datum(Url, u)),
                  headerBytes := r.headerBytes + |u|, consumed := r.consumed + |u|)
  {
    hide Step, IsQueryChar;
    var n := |u| - 1;
    if n == 0 {
      assert u == "/";
      RunBytesOne(r, '/');
      UrlFirst(r);
    } else {
      UrlSteps(r, u[..n]);
      UrlByte(RunBytes(r, u[..n]), u[n]);
      assert u[..n] + [u[n]] == u;
    }
  }

  lemma UrlEnd(r: Run, u: string)
    requires r.control.Advance? && IsPathState(r.parser.state) && r.open == Some(Datum(Url, u)) && !r.skipping
    ensures Step(r, ' ') ==
      r.(parser := r.parser.(state := ReqHttpStart), open := None, headerBytes := r.headerBytes + 1,
         events := r.events + [Data(Url, u)], consumed := r.consumed + 1)
  {
  }

  /** The states that the fixed text "HTTP/1.1" and its line end go through. */
  function VersionStates(): seq<State> {
    [ReqHttpStart, ReqHttpH, ReqHttpHT, ReqHttpHTT, ReqHttpHTTP, ReqFirstHttpMajor, ReqHttpMajor, ReqFirstHttpMinor,
     ReqHttpMinor, ReqLineAlmostDone, HeaderFieldStart]
  }

  const VERSION := "HTTP/1.1\r\n"

  function VersionRead(p: Parser, k: nat): Parser
    requires k <= |VERSION|
  {
    p.(state := VersionStates()[k], httpMajor := if k > 5 then 1 else p.httpMajor,
       httpMinor := if k > 7 then 1 else p.httpMinor)
  }

  lemma VersionTransition(p: Parser, k: nat)
    requires k < |VERSION|
    ensures TransRequestVersion(VersionRead(p, k), VERSION[k]) == Stay(VersionRead(p, k + 1))
  {
  }

  lemma VersionState(p: Parser, k: nat)
    requires k < |VERSION|
    ensures IsRequestVersionState(VersionRead(p, k).state) && ParsingHeader(VersionRead(p, k).state)
  {
  }

  lemma VersionByte(r: Run, p: Parser, k: nat)
    requires r.control.Advance? && k < |VERSION| && r.parser == VersionRead(p, k) && r.open.None?
    ensures Step(r, VERSION[k]) == Moved(r, VersionRead(p, k + 1), false, VERSION[k])
    ensures ParsingHeader(r.parser.state)
  {
    hide VersionRead, TransRequestVersion, VersionStates, Step;
    VersionTransition(p, k);
    VersionState(p, k);
    MovedStep(r, VERSION[k], VersionRead(p, k + 1), false);
  }

  lemma {:induction false} VersionSteps(r: Run, k: nat)
    requires r.control.Advance? && r.parser.state.ReqHttpStart? && r.open.None? && !r.skipping && k <= |VERSION|
    ensures RunBytes(r, VERSION[..k]) ==
      r.(parser := VersionRead(r.parser, k), headerBytes := r.headerBytes + k, consumed := r.consumed + k)
  {
    hide Step, VersionStates, VersionRead;
    if k == 0 {
      RunBytesNone(r);
      VersionReadNone(r.parser);
    } else {
      VersionSteps(r, k - 1);
      assert VERSION[..k][..k - 1] == VERSION[..k - 1];
      VersionByte(RunBytes(r, VERSION[..k - 1]), r.parser, k - 1);
    }
  }

  lemma VersionReadNone(p: Parser)
    requires p.state.ReqHttpStart?
    ensures VersionRead(p, 0) == p
  {
  }

  lemma SpaceAfterMethod(r: Run)
    requires r.control.Advance? && r.parser.state.ReqMethod? && r.parser.index == |MethodString(r.parser.verb)|
    requires r.open.None? && !r.skipping
    ensures Step(r, ' ') == Moved(r, r.parser.(index := r.parser.index + 1, state := ReqSpacesBeforeUrl), false, ' ')
  {
    hide MethodString;
  }

  /** The parser behind a request line. */
  predicate LineRead(p: Parser, q: Parser, m: Method) {
    && q.state.HeaderFieldStart? && q.verb == m && q.flags == NO_FLAGS && q.contentLength == ABSENT
    && q.errno == p.errno && q.statusCode == p.statusCode && q.httpMajor == 1 && q.httpMinor == 1
  }

  lemma RequestLineSteps(r: Run, m: Method, u: string)
    requires AtStart(r) && m != CONNECT && IsUrlText(u)
    ensures var line := MethodString(m) + " " + u + " HTTP/1.1\r\n";
      var r' := RunBytes(r, line);
      && LineRead(r.parser, r'.parser, m)
      && r' == r.(parser := r'.parser, headerBytes := r.headerBytes + |line|, events := r.events + [MessageBegin, Data(Url, u)],
                  consumed := r.consumed + |line|)
  {
    hide Step, MethodString, RunBytes, VersionStates;
    var s := MethodString(m);
    MethodSteps(r, m);
    var r1 := RunBytes(r, s);
    SpaceAfterMethod(r1);
    RunBytesOne(r1, ' ');
    var r2 := RunBytes(r1, " ");
    UrlSteps(r2, u);
    var r3 := RunBytes(r2, u);
    UrlEnd(r3, u);
    RunBytesOne(r3, ' ');
    var r4 := RunBytes(r3, " ");
    VersionSteps(r4, |VERSION|);
    assert VERSION[..|VERSION|] == VERSION;
    RunBytesAppend(r, s, " ");
    RunBytesAppend(r, s + " ", u);
    RunBytesAppend(r, s + " " + u, " ");
    RunBytesAppend(r, s + " " + u + " ", VERSION);
    assert s + " " + u + " " + VERSION == s + " " + u + " HTTP/1.1\r\n";
    assert r.events + [MessageBegin] + [Data(Url, u)] == r.events + [MessageBegin, Data(Url, u)];
    LineReadIs(r.parser, r4.parser, m, |s|);
  }

  lemma LineReadIs(p: Parser, q: Parser, m: Method, n: nat)
    requires q == MethodRead(p, m, n).(index := n + 1, state := ReqHttpStart)
    ensures LineRead(p, VersionRead(q, |VERSION|), m)
  {
  }

  // ---- Header lines ---------------------------------------------------------------------------

  /** The run at the start of a line; the last header may still wait to be finished. */
  predicate AtLine(r: Run) {
    && r.control.Advance? && r.open.None? && !r.skipping && r.parser.errno.Ok?
    && (r.parser.state.HeaderFieldStart? || r.parser.state.HeaderValueLws? || r.parser.state.HeaderValueDiscardLws?)
  }

  /** The last header finished; only now is an empty value delivered. */
  function Lined(r: Run): Run {
    if r.parser.state.HeaderValueLws? then r.(parser := FinishHeader(r.parser).(state := HeaderFieldStart))
    else if r.parser.state.HeaderValueDiscardLws? then
      r.(parser := FinishHeader(r.parser).(state := HeaderFieldStart), events := r.events + [Data(Value, "")])
    else r
  }

  /** A line that is not folded finishes the header before it. */
  lemma NextLine(r: Run, ch: char)
    requires AtLine(r) && ch != ' ' && ch != '\t'
    ensures Step(r, ch) == Step(Lined(r), ch)
  {
    if r.parser.state.HeaderFieldStart? {
    } else {
      hide FinishHeader, Settle, Transition, Settled;
      SettleUnfold(Count(r), ch);
      LineTransition(r.parser, ch);
      LineSettled(r, ch);
    }
  }

  lemma LineSettled(r: Run, ch: char)
    requires AtLine(r) && !r.parser.state.HeaderFieldStart?
    requires Transition(r.parser, false, ch) ==
      Outcome(FinishHeader(r.parser).(state := HeaderFieldStart), false,
              if r.parser.state.HeaderValueLws? then Nothing else MarkThenFlush(Value), Reexecute)
    ensures Settled(Count(r), ch) == Count(Lined(r))
  {
    hide FinishHeader, Transition;
    assert r.events + [] == r.events;
  }

  lemma LineTransition(p: Parser, ch: char)
    requires ch != ' ' && ch != '\t' && (p.state.HeaderValueLws? || p.state.HeaderValueDiscardLws?)
    ensures Transition(p, false, ch) ==
      Outcome(FinishHeader(p).(state := HeaderFieldStart), false,
              if p.state.HeaderValueLws? then Nothing else MarkThenFlush(Value), Reexecute)
  {
    hide FinishHeader, TransName, TransValueStart;
  }

  lemma NextLineBytes(r: Run, text: string)
    requires AtLine(r) && text != "" && text[0] != ' ' && text[0] != '\t'
    ensures RunBytes(r, text) == RunBytes(Lined(r), text)
  {
    hide RunBytes, Step, AtLine, Lined;
    RunBytesCons(r, text);
    RunBytesCons(Lined(r), text);
    NextLine(r, text[0]);
  }

  lemma ColonStep(r: Run, name: string)
    requires r.control.Advance? && r.parser.state.HeaderField? && r.open == Some(Datum(Field, name)) && !r.skipping
    ensures Step(r, ':') ==
      r.(parser := r.parser.(state := HeaderValueDiscardWs), open := None, headerBytes := r.headerBytes + 1,
         events := r.events + [Data(Field, name)], consumed := r.consumed + 1)
  {
    hide NameByte;
  }

  lemma BlankStep(r: Run)
    requires r.control.Advance? && r.parser.state.HeaderValueDiscardWs? && r.open.None? && !r.skipping
    ensures Step(r, ' ') == Moved(r, r.parser, false, ' ')
  {
    hide TransValueStart;
  }

  /** The run behind a name, its colon and a blank. */
  function Named(r: Run, name: string): Run
    requires name != ""
  {
    r.(parser := AfterName(r.parser, name).(state := HeaderValueDiscardWs), headerBytes := r.headerBytes + |name| + 2,
       events := r.events + [Data(Field, name)], consumed := r.consumed + |name| + 2)
  }

  lemma NameColon(r: Run, name: string)
    requires AtLine(r) && r.parser.state.HeaderFieldStart? && name != "" && IsTokens(name) && AfterName(r.parser, name).errno.Ok?
    ensures RunBytes(r, name + ": ") == Named(r, name)
  {
    hide RunBytes, Step, AfterName, IsTokens;
    AfterNameState(r.parser, name);
    NameSteps(r, name);
    var r1 := RunBytes(r, name);
    ColonStep(r1, name);
    RunBytesOne(r1, ':');
    BlankStep(Step(r1, ':'));
    TwoBytes(r1, ':', ' ');
    RunBytesAppend(r, name, ": ");
  }

  lemma AfterNameState(p: Parser, name: string)
    requires name != "" && IsTokens(name) && p.errno.Ok? && AfterName(p, name).errno.Ok?
    ensures AfterName(p, name).state.HeaderField?
  {
    hide AfterName, Recognised, NamesLength;
    NameExact(p, name);
  }

  lemma ValueEndSteps(r: Run, value: string)
    requires r.control.Advance? && r.parser.state.HeaderValue? && r.open == Some(Datum(Value, value))
    ensures RunBytes(r, "\r\n") ==
      r.(parser := r.parser.(state := HeaderValueLws), open := None, skipping := false, headerBytes := r.headerBytes + 2,
         events := r.events + [Data(Value, value)], consumed := r.consumed + 2)
  {
    hide Step;
    TwoBytes(r, CR, LF);
    ValueCr(r, value);
    ValueLf(Step(r, CR));
  }

  lemma ValueCr(r: Run, value: string)
    requires r.control.Advance? && r.parser.state.HeaderValue? && r.open == Some(Datum(Value, value))
    ensures Step(r, CR) ==
      r.(parser := r.parser.(state := HeaderAlmostDone), open := None, skipping := false, headerBytes := r.headerBytes + 1,
         events := r.events + [Data(Value, value)], consumed := r.consumed + 1)
  {
    hide ValueByte;
  }

  lemma ValueLf(r: Run)
    requires r.control.Advance? && r.parser.state.HeaderAlmostDone? && r.open.None? && !r.skipping
    ensures Step(r, LF) == Moved(r, r.parser.(state := HeaderValueLws), false, LF)
  {
    hide TransValueStart;
  }

  // ---- The value of a connection header ----------------------------------------------------------

  /** The two words and the recogniser states they lead through. */
  function ConnWord(close: bool): string { if close then CLOSE else KEEP_ALIVE }

  function ConnState(close: bool, k: nat): HeaderState {
    if close then (if k < |CLOSE| then MatchingClose else ConnClose)
    else if k < |KEEP_ALIVE| then MatchingKeepAlive else ConnKeepAlive
  }

  predicate Spells(value: string, close: bool) {
    && |value| == |ConnWord(close)| && IsValueText(value)
    && forall i | 0 <= i < |value| :: Lower(value[i]) == ConnWord(close)[i]
  }

  function ConnRead(p: Parser, close: bool, k: nat): Parser
    requires k > 0
  {
    p.(state := HeaderValue, index := k - 1, headerState := ConnState(close, k))
  }

  lemma ConnFirstTransition(p: Parser, close: bool, ch: char)
    requires p.headerState.Connection? && Lower(ch) == ConnWord(close)[0]
    ensures TransValueStart(p, ch) == Outcome(ConnRead(p, close, 1), false, Mark(Value), Advance)
  {
    hide Lower;
  }

  lemma ConnFirst(r: Run, close: bool, ch: char)
    requires r.control.Advance? && r.parser.state.HeaderValueDiscardWs? && r.parser.headerState.Connection?
    requires r.open.None? && !r.skipping && Lower(ch) == ConnWord(close)[0] && ch != CR && ch != LF
    ensures Step(r, ch) ==
      r.(parser := ConnRead(r.parser, close, 1), open := Some(Datum(Value, [ch])), headerBytes := r.headerBytes + 1,
         consumed := r.consumed + 1)
  {
    hide Lower, TransValueStart, ConnRead;
    LowerBlank();
    ConnFirstTransition(r.parser, close, ch);
    assert "" + [ch] == [ch];
  }

  lemma LowerBlank()
    ensures Lower(' ') == ' ' && Lower('\t') == ')'
  {
  }

  lemma ConnByte(p: Parser, close: bool, k: nat, ch: char)
    requires 0 < k < |ConnWord(close)| && p.index == k - 1 && p.headerState == ConnState(close, k)
    requires Lower(ch) == ConnWord(close)[k]
    ensures ValueByte(p, ch) == p.(index := k, headerState := ConnState(close, k + 1))
  {
    hide Lower;
  }

  lemma {:induction false} ConnSteps(r: Run, close: bool, value: string, k: nat)
    requires r.control.Advance? && r.parser.state.HeaderValueDiscardWs? && r.parser.headerState.Connection?
    requires r.open.None? && !r.skipping && Spells(value, close) && 0 < k <= |value|
    ensures RunBytes(r, value[..k]) ==
      r.(parser := ConnRead(r.parser, close, k), open := Some(Datum(Value, value[..k])), headerBytes := r.headerBytes + k,
         consumed := r.consumed + k)
  {
    hide *;
    SpellsAt(value, close, k - 1);
    if k == 1 {
      assert value[..k] == [value[0]];
      RunBytesOne(r, value[0]);
      ConnFirst(r, close, value[0]);
    } else {
      ConnSteps(r, close, value, k - 1);
      assert value[..k] == value[..k - 1] + [value[k - 1]];
      RunBytesSnoc(r, value, k - 1);
      ConnNext(r, RunBytes(r, value[..k - 1]), close, value[..k - 1], value[k - 1]);
    }
  }

  lemma SpellsAt(value: string, close: bool, k: nat)
    requires Spells(value, close) && k < |value|
    ensures |value| == |ConnWord(close)| && Lower(value[k]) == ConnWord(close)[k]
    ensures value[k] != CR && value[k] != LF && IsHeaderChar(value[k])
  {
    hide Lower, IsHeaderChar;
  }

  lemma ConnNext(r: Run, r0: Run, close: bool, before: string, ch: char)
    requires r.control.Advance? && 0 < |before| < |ConnWord(close)| && Lower(ch) == ConnWord(close)[|before|]
    requires ch != CR && ch != LF && IsHeaderChar(ch)
    requires r0 == r.(parser := ConnRead(r.parser, close, |before|), open := Some(Datum(Value, before)),
                      headerBytes := r.headerBytes + |before|, consumed := r.consumed + |before|) && !r.skipping
    ensures Step(r0, ch) ==
      r.(parser := ConnRead(r.parser, close, |before| + 1), open := Some(Datum(Value, before + [ch])),
         headerBytes := r.headerBytes + |before| + 1, consumed := r.consumed + |before| + 1)
  {
    hide Step, Lower, IsHeaderChar, ConnState, ValueByte;
    ValueStep(r0, ch);
    ConnByte(r0.parser, close, |before|, ch);
    ConnNotGeneral(close, |before|);
  }

  lemma ConnNotGeneral(close: bool, k: nat)
    ensures !ConnState(close, k).General?
  {
  }

  // ---- The value of a header without meaning ------------------------------------------------------

  predicate IsSpecial(hs: HeaderState) {
    hs.Upgrade? || hs.TransferEncoding? || hs.ContentLength? || hs.Connection? || hs.MatchingTokenStart?
  }

  /** A value that is kept as it is: it does not begin with a blank and has no control bytes. */
  predicate IsClean(value: string) { value != "" && value[0] != ' ' && value[0] != '\t' && IsValueText(value) }

  lemma PlainFirst(r: Run, ch: char)
    requires r.control.Advance? && r.parser.state.HeaderValueDiscardWs? && !IsSpecial(r.parser.headerState)
    requires r.open.None? && !r.skipping && ch != ' ' && ch != '\t' && ch != CR && ch != LF
    ensures Step(r, ch) ==
      r.(parser := r.parser.(state := HeaderValue, index := 0, headerState := General), open := Some(Datum(Value, [ch])),
         headerBytes := r.headerBytes + 1, consumed := r.consumed + 1)
  {
    hide Lower;
    assert "" + [ch] == [ch];
  }

  lemma PlainValue(r: Run, value: string)
    requires r.control.Advance? && r.parser.state.HeaderValueDiscardWs? && !IsSpecial(r.parser.headerState)
    requires r.open.None? && !r.skipping && IsClean(value)
    ensures var r' := RunBytes(r, value);
      r' == r.(parser := r.parser.(state := HeaderValue, index := 0, headerState := General),
               open := Some(Datum(Value, value)), headerBytes := r.headerBytes + |value|, consumed := r.consumed + |value|,
               skipping := r'.skipping)
  {
    hide RunBytes, Step, IsHeaderChar;
    var rest := value[1..];
    assert value == [value[0]] + rest;
    RunBytesOne(r, value[0]);
    PlainFirst(r, value[0]);
    RunBytesAppend(r, [value[0]], rest);
    var r1 := RunBytes(r, [value[0]]);
    if rest == "" {
      RunBytesNone(r1);
      assert [value[0]] == value;
    } else {
      NoLineEndInside(value);
      assert IsHeaderChar(rest[0]) by { assert rest[0] == value[1]; }
      SkipSteps(r1, rest);
      assert [value[0]] + rest == value;
    }
  }

  lemma NoLineEndInside(value: string)
    requires IsValueText(value) && value != ""
    ensures NoLineEnd(value[1..])
  {
    assert forall i | 0 <= i < |value[1..]| :: value[1..][i] == value[i + 1];
  }
}
