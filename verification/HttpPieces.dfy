/** In what pieces the header names and values of a printed message are delivered when the message
    is cut into buffers. */
module HttpPieces {
  import opened Options
  import opened HttpTypes
  import opened HttpMachine
  import opened HttpRun
  import opened HttpInvariant
  import opened HttpBlocks
  import opened HttpSplit
  import opened HttpFraming
  import opened HttpLength
  import opened HttpRecogniser
  import opened HttpRequests
  import opened OrderedMap
  import opened HttpEncoders
  import opened HttpHeads
  import opened HttpCuts

  // ---- The callbacks that matter to headers ---------------------------------------------------

  predicate IsPart(e: Event) { e.Data? && (e.kind == Field || e.kind == Value) && e.bytes != "" }

  /** The names and values that are delivered, without the empty ones. */
  function HeaderPart(events: seq<Event>): seq<Event> {
    if events == [] then []
    else HeaderPart(events[..|events| - 1]) + (if IsPart(events[|events| - 1]) then [events[|events| - 1]] else [])
  }

  lemma {:induction false} HeaderPartAppend(a: seq<Event>, b: seq<Event>)
    ensures HeaderPart(a + b) == HeaderPart(a) + HeaderPart(b)
    decreases |b|
  {
    if b == [] {
      assert a + b == a;
    } else {
      var b0 := b[..|b| - 1];
      assert (a + b)[..|a + b| - 1] == a + b0;
      HeaderPartAppend(a, b0);
    }
  }

  lemma HeaderPartSnoc(events: seq<Event>, e: Event)
    ensures HeaderPart(events + [e]) == if IsPart(e) then HeaderPart(events) + [e] else HeaderPart(events)
  {
    assert (events + [e])[..|events|] == events;
  }

  /** Where no byte of a name or a value is delivered there are no parts. */
  lemma {:induction false} NoParts(events: seq<Event>)
    requires Joined(events, Field) == "" && Joined(events, Value) == ""
    ensures HeaderPart(events) == []
  {
    if events != [] {
      NoParts(events[..|events| - 1]);
    }
  }

  // ---- Pieces ---------------------------------------------------------------------------------------

  /** The pieces of `text`, which begins at offset `off` of the stream. */
  function Pieces(kind: DataKind, text: string, off: nat, cuts: set<nat>): (ps: seq<Event>)
    ensures text != "" ==> ps != [] && ps[|ps| - 1].Data? && ps[|ps| - 1].kind == kind
  {
    if text == "" then []
    else
      var n := |text| - 1;
      var ps := Pieces(kind, text[..n], off, cuts);
      if n > 0 && off + n !in cuts then ps[..|ps| - 1] + [Data(kind, ps[|ps| - 1].bytes + [text[n]])]
      else ps + [Data(kind, [text[n]])]
  }

  function HeaderPieces(h: Entry, off: nat, cuts: set<nat>): seq<Event> {
    Pieces(Field, h.key, off, cuts) + Pieces(Value, h.value, off + |h.key| + 2, cuts)
  }

  function LinesPieces(headers: seq<Entry>, off: nat, cuts: set<nat>): seq<Event> {
    if headers == [] then []
    else
      var n := |headers| - 1;
      LinesPieces(headers[..n], off, cuts) + HeaderPieces(headers[n], off + |HeadersText(headers[..n])|, cuts)
  }

  /** A run that is collecting a piece: what it has delivered, and that piece, make `parts`. */
  predicate Collecting(r: Run, kind: DataKind, parts: seq<Event>) {
    && r.control.Advance? && IsOpen(r.open, kind) && r.open.value.bytes != ""
    && HeaderPart(r.events) + [Data(kind, r.open.value.bytes)] == parts
  }

  /** One byte more of the piece, or the first of the next. */
  lemma CollectByte(r: Run, cut: bool, s: Run, kind: DataKind, base: seq<Event>, text: string, off: nat, cuts: set<nat>)
    requires (kind == Field || kind == Value) && |text| > 1 && (cut <==> off + |text| - 1 in cuts)
    requires Collecting(r, kind, base + Pieces(kind, text[..|text| - 1], off, cuts))
    requires OpenAtStart(r.parser.state) == Some(Datum(kind, ""))
    requires var r1 := if cut then Cut(r) else r;
      s.control.Advance? && s.open == Extend(r1.open, text[|text| - 1]) && s.events == r1.events
    ensures Collecting(s, kind, base + Pieces(kind, text, off, cuts))
  {
    hide OpenAtStart, HeaderPart, Pieces;
    var n := |text| - 1;
    var y, ps := r.open.value.bytes, Pieces(kind, text[..n], off, cuts);
    PiecesNext(kind, text, off, cuts);
    if cut {
      HeaderPartSnoc(r.events, Data(kind, y));
      assert "" + [text[n]] == [text[n]];
      OneMore(base, ps, Data(kind, [text[n]]));
    } else {
      LastReplaced(HeaderPart(r.events), Data(kind, y), base, ps, Data(kind, y + [text[n]]));
    }
  }

  lemma PiecesNext(kind: DataKind, text: string, off: nat, cuts: set<nat>)
    requires |text| > 1
    ensures var n := |text| - 1;
      var ps := Pieces(kind, text[..n], off, cuts);
      && ps != [] && ps[|ps| - 1].Data? && ps[|ps| - 1].kind == kind
      && Pieces(kind, text, off, cuts) ==
         if off + n in cuts then ps + [Data(kind, [text[n]])]
         else ps[..|ps| - 1] + [Data(kind, ps[|ps| - 1].bytes + [text[n]])]
  {
  }

  lemma OneMore(a: seq<Event>, b: seq<Event>, e: Event)
    ensures a + (b + [e]) == a + b + [e]
  {
  }

  /** Two ways of writing a log, and its last entry replaced in both. */
  lemma LastReplaced(log: seq<Event>, e: Event, base: seq<Event>, ps: seq<Event>, e': Event)
    requires ps != [] && log + [e] == base + ps
    ensures ps[|ps| - 1] == e && log + [e'] == base + (ps[..|ps| - 1] + [e'])
  {
    assert (log + [e])[|log|] == (base + ps)[|log|];
    assert (log + [e])[..|log|] == log;
    assert (base + ps)[..|log|] == base + ps[..|ps| - 1];
  }

  /** The end of the datum: what has not been delivered at the cut is delivered now. */
  lemma CollectEnd(r: Run, cut: bool, s: Run, kind: DataKind, parts: seq<Event>)
    requires (kind == Field || kind == Value) && Collecting(r, kind, parts)
    requires OpenAtStart(r.parser.state) == Some(Datum(kind, ""))
    requires var r1 := if cut then Cut(r) else r; r1.open.Some? && s.events == r1.events + [Data(kind, r1.open.value.bytes)]
    ensures HeaderPart(s.events) == parts
  {
    hide OpenAtStart, HeaderPart;
    HeaderPartSnoc(r.events, Data(kind, r.open.value.bytes));
    HeaderPartSnoc(r.events + [Data(kind, r.open.value.bytes)], Data(kind, ""));
  }

  /** Where nothing is open a cut delivers nothing. */
  lemma CutNothing(r: Run)
    requires r.control.Advance? && r.open.None? && OpenAtStart(r.parser.state).None?
    ensures Cut(r) == r.(skipping := false)
  {
    assert r.events + [] == r.events;
  }

  // ---- The datum a byte belongs to ------------------------------------------------------------------

  lemma {:induction false} SettleOpenBefore(r: Run, ch: char)
    requires r.control.Advance?
    ensures var s := Settle(r, ch);
      s.control.Advance? && s.open.Some? ==>
        || s.open.value.bytes == [ch]
        || (r.open.Some? && r.open.value.kind == s.open.value.kind && s.open.value.bytes == r.open.value.bytes + [ch])
    decreases Rank(r.parser.state)
  {
    hide Transition;
    var o := Transition(r.parser, r.skipping, ch);
    assert "" + [ch] == [ch];
    if o.control.Reexecute? {
      SettleOpenBefore(Settled(r, ch), ch);
    }
  }

  /** What has been collected so far was collected before its last byte, too. */
  lemma OpenBefore(r: Run, data: string, kind: DataKind)
    requires |data| > 1 && RunBytes(r, data).control.Advance? && RunBytes(r, data).open == Some(Datum(kind, data))
    ensures var n := |data| - 1;
      RunBytes(r, data[..n]).control.Advance? && RunBytes(r, data[..n]).open == Some(Datum(kind, data[..n]))
  {
    hide Settle;
    var n := |data| - 1;
    var s := RunBytes(r, data[..n]);
    SettleOpenBefore(Count(s), data[n]);
    assert s.open.Some? && s.open.value.bytes + [data[n]] == data;
    assert (s.open.value.bytes + [data[n]])[..n] == s.open.value.bytes;
  }

  lemma QuietPiece(r: Run, a: string, b: string)
    requires QuietFrom(r, a + b)
    ensures QuietFrom(r, a) && QuietFrom(RunBytes(r, a), b)
  {
    hide RunBytes, IsHeaderChar;
    forall i: nat | i < |a|
      ensures var s := RunBytes(r, a[..i]); !s.control.Exit? && (s.control.Advance? && s.skipping ==> IsHeaderChar(a[i]))
    {
      assert (a + b)[..i] == a[..i] && (a + b)[i] == a[i];
    }
    forall i: nat | i < |b|
      ensures var s := RunBytes(RunBytes(r, a), b[..i]); !s.control.Exit? && (s.control.Advance? && s.skipping ==> IsHeaderChar(b[i]))
    {
      assert (a + b)[..|a| + i] == a + b[..i] && (a + b)[|a| + i] == b[i];
      RunBytesAppend(r, a, b[..i]);
    }
  }

  /** The cut run stands where the whole one does. */
  predicate Follows(r1: Run, r2: Run) { Equiv(r1, [], 0, r2) && RunOk(r1) && RunOk(r2) }

  lemma FollowsAlong(r1: Run, r2: Run, off: nat, data: string, cuts: set<nat>)
    requires Follows(r1, r2) && QuietFrom(r1, data)
    ensures Follows(RunBytes(r1, data), CutRun(r2, off, data, cuts))
  {
    hide RunBytes, CutRun, IsHeaderChar, Equiv, RunOk;
    CutRunEquiv(r1, r2, off, data, cuts);
  }

  lemma FollowsSame(r1: Run, r2: Run)
    requires Follows(r1, r2) && r1.control.Advance?
    ensures r2.control.Advance? && r2.parser == r1.parser && (r2.skipping ==> r1.skipping) && (r1.open.None? ==> r2.open.None?)
    ensures r1.parser.errno.Ok? && OpenOk(r1.parser.state, r1.open) && OpenOk(r1.parser.state, r2.open)
    ensures r1.open.None? ==> Coalesce(r1.events) == Coalesce(r2.events)
    ensures r2.skipping ==> r2.parser.state.HeaderValue?
  {
    hide Inv, OpenOk, Coalesce;
    assert [] + r2.events == r2.events;
  }

  /** A state in which something is being collected. */
  lemma OpenStates(s: State, open: Option<Datum>)
    requires OpenOk(s, open)
    ensures IsOpen(open, Field) ==> s.HeaderField? && OpenAtStart(s) == Some(Datum(Field, ""))
    ensures IsOpen(open, Value) ==> s.HeaderValue? && OpenAtStart(s) == Some(Datum(Value, ""))
    ensures open.None? ==> OpenAtStart(s).None?
  {
  }

  // ---- A name -----------------------------------------------------------------------------------------

  /** The first byte of a name. */
  lemma FirstPiece(r: Run, cut: bool, ch: char)
    requires AtLine(r) && Token(ch) != '\0'
    ensures var s := Step(if cut then Cut(r) else r, ch); Collecting(s, Field, HeaderPart(r.events) + [Data(Field, [ch])])
  {
    hide Step, HeaderPart, Token, FinishHeader, Cut;
    CutNothing(r);
    var r1 := if cut then Cut(r) else r;
    assert r1 == r;
    assert ch != ' ' && ch != '\t' by { TokenNoBlank(ch); }
    NextLine(r, ch);
    LinedSame(r);
    FirstNameByte(Lined(r), ch);
    HeaderPartSnoc(r.events, Data(Value, ""));
  }

  lemma TokenNoBlank(ch: char)
    requires Token(ch) != '\0'
    ensures ch != ' ' && ch != '\t'
  {
  }

  /** A name is delivered in its pieces, the last of which is still being collected. */
  lemma {:induction false} NamePieces(r1: Run, r2: Run, off: nat, name: string, cuts: set<nat>)
    requires Follows(r1, r2) && AtLine(r1) && name != "" && IsTokens(name) && QuietFrom(r1, name)
    requires RunBytes(r1, name).control.Advance? && RunBytes(r1, name).open == Some(Datum(Field, name))
    ensures Collecting(CutRun(r2, off, name, cuts), Field, HeaderPart(r2.events) + Pieces(Field, name, off, cuts))
  {
    hide RunBytes, Step, HeaderPart, Follows, Token, Cut, QuietFrom, CutRun, OpenOk;
    var n := |name| - 1;
    var before, ch := name[..n], name[n];
    FollowsSame(r1, r2);
    if n == 0 {
      assert name == [ch];
      CutRunOne(r2, off, ch, cuts);
      FirstPiece(r2, off in cuts, ch);
      PiecesOne(Field, ch, off, cuts);
    } else {
      assert name == before + [ch];
      QuietPiece(r1, before, [ch]);
      OpenBefore(r1, name, Field);
      NamePieces(r1, r2, off, before, cuts);
      FollowsAlong(r1, r2, off, before, cuts);
      var s1, s2 := RunBytes(r1, before), CutRun(r2, off, before, cuts);
      FollowsSame(s1, s2);
      OpenStates(s1.parser.state, s1.open);
      assert name[..n + 1] == name;
      RunBytesSnoc(r1, name, n);
      CutRunSnoc(r2, off, name, n, cuts);
      NameByteStep(s1, ch);
      var cut := off + n in cuts;
      var s3 := if cut then Cut(s2) else s2;
      CutSame(s2);
      NameByteStep(s3, ch);
      CollectByte(s2, cut, Step(s3, ch), Field, HeaderPart(r2.events), name, off, cuts);
    }
  }

  lemma CutSame(r: Run)
    requires r.control.Advance?
    ensures Cut(r).control.Advance? && Cut(r).parser == r.parser && !Cut(r).skipping && Cut(r).open == OpenAtStart(r.parser.state)
  {
  }

  lemma NameByteStep(r: Run, ch: char)
    requires r.control.Advance? && r.parser.state.HeaderField? && Token(ch) != '\0'
    ensures var q := NameByte(r.parser, Token(ch)); Step(r, ch).control.Advance? <==> q.errno == r.parser.errno
    ensures Step(r, ch).control.Advance? ==> Step(r, ch).open == Extend(r.open, ch) && Step(r, ch).events == r.events
  {
    hide Step, Token, NameByte;
    NameStep(r, ch);
  }

  lemma PiecesOne(kind: DataKind, ch: char, off: nat, cuts: set<nat>)
    ensures Pieces(kind, [ch], off, cuts) == [Data(kind, [ch])]
  {
    assert [ch][..0] == "";
    assert Pieces(kind, [ch][..0], off, cuts) == [];
  }

  // ---- A value ----------------------------------------------------------------------------------------

  lemma ValueFirstStep(r: Run, ch: char)
    requires r.control.Advance? && r.parser.state.HeaderValueDiscardWs? && r.open.None?
    requires ch != ' ' && ch != '\t' && ch != CR && ch != LF && Step(r, ch).control.Advance?
    ensures Step(r, ch).events == r.events && Step(r, ch).open == Some(Datum(Value, [ch]))
  {
    hide Lower;
    assert "" + [ch] == [ch] && r.events + [] == r.events;
  }

  lemma SameControl(r1: Run, r2: Run, ch: char)
    requires r1.control.Advance? && r2.control.Advance? && r1.parser == r2.parser && r1.skipping == r2.skipping
    ensures Step(r1, ch).control == Step(r2, ch).control
  {
    hide Settle;
    SettleControl(Count(r1), Count(r2), ch);
  }

  lemma {:induction false} SettleControl(r1: Run, r2: Run, ch: char)
    requires r1.control.Advance? && r2.control.Advance? && r1.parser == r2.parser && r1.skipping == r2.skipping
    ensures Settle(r1, ch).control == Settle(r2, ch).control
    decreases Rank(r1.parser.state)
  {
    hide Transition;
    if Transition(r1.parser, r1.skipping, ch).control.Reexecute? {
      SettleControl(Settled(r1, ch), Settled(r2, ch), ch);
    }
  }

  lemma ValueByteStep(r: Run, ch: char)
    requires r.control.Advance? && r.parser.state.HeaderValue? && ch != CR && ch != LF && IsHeaderChar(ch)
    ensures Step(r, ch).control.Advance? <==> ValueByte(r.parser, ch).errno == r.parser.errno
    ensures Step(r, ch).control.Advance? ==> Step(r, ch).open == Extend(r.open, ch) && Step(r, ch).events == r.events
  {
    hide Step, ValueByte, IsHeaderChar;
    ValueStep(r, ch);
  }

  lemma {:induction false} ValuePieces(r1: Run, r2: Run, off: nat, value: string, cuts: set<nat>)
    requires Follows(r1, r2) && r1.control.Advance? && r1.parser.state.HeaderValueDiscardWs? && r1.open.None? && !r1.skipping
    requires IsClean(value) && QuietFrom(r1, value)
    requires RunBytes(r1, value).control.Advance? && RunBytes(r1, value).open == Some(Datum(Value, value))
    ensures Collecting(CutRun(r2, off, value, cuts), Value, HeaderPart(r2.events) + Pieces(Value, value, off, cuts))
  {
    hide RunBytes, Step, HeaderPart, Follows, Cut, QuietFrom, CutRun, OpenOk, IsHeaderChar, OpenAtStart;
    var n := |value| - 1;
    var before, ch := value[..n], value[n];
    FollowsSame(r1, r2);
    if n == 0 {
      assert value == [ch];
      CutRunOne(r2, off, ch, cuts);
      RunBytesOne(r1, ch);
      OpenStates(r1.parser.state, r1.open);
      CutNothing(r2);
      var r3 := if off in cuts then Cut(r2) else r2;
      SameControl(r1, r3, ch);
      ValueFirstStep(r3, ch);
      PiecesOne(Value, ch, off, cuts);
    } else {
      assert value == before + [ch];
      QuietPiece(r1, before, [ch]);
      OpenBefore(r1, value, Value);
      CleanBefore(value);
      ValuePieces(r1, r2, off, before, cuts);
      FollowsAlong(r1, r2, off, before, cuts);
      var s1, s2 := RunBytes(r1, before), CutRun(r2, off, before, cuts);
      FollowsSame(s1, s2);
      OpenStates(s1.parser.state, s1.open);
      assert value[..n + 1] == value;
      RunBytesSnoc(r1, value, n);
      CutRunSnoc(r2, off, value, n, cuts);
      ValueByteStep(s1, ch);
      var cut := off + n in cuts;
      var s3 := if cut then Cut(s2) else s2;
      CutSame(s2);
      ValueByteStep(s3, ch);
      CollectByte(s2, cut, Step(s3, ch), Value, HeaderPart(r2.events), value, off, cuts);
    }
  }

  lemma CleanBefore(value: string)
    requires IsClean(value) && |value| > 1
    ensures IsClean(value[..|value| - 1])
  {
    hide IsHeaderChar;
  }

  // ---- A line -----------------------------------------------------------------------------------------

  /** The colon behind a name and the blank. */
  lemma ColonPieces(r: Run, off: nat, cuts: set<nat>, parts: seq<Event>)
    requires Collecting(r, Field, parts) && r.parser.state.HeaderField? && !r.skipping
    ensures var s := CutRun(r, off, ": ", cuts); s.control.Advance? && HeaderPart(s.events) == parts
  {
    hide Step, HeaderPart, Cut, OpenAtStart;
    TwoCut(r, off, ':', ' ', cuts);
    var r1 := if off in cuts then Cut(r) else r;
    CutSame(r);
    OpenInName(r.parser.state);
    ColonStep(r1, r1.open.value.bytes);
    CollectEnd(r, off in cuts, Step(r1, ':'), Field, parts);
    var s := Step(r1, ':');
    CutNothing(s) by { OpenInName(s.parser.state); }
    BlankStep(if off + 1 in cuts then Cut(s) else s);
  }

  lemma OpenInName(s: State)
    ensures s.HeaderField? ==> OpenAtStart(s) == Some(Datum(Field, ""))
    ensures s.HeaderValue? ==> OpenAtStart(s) == Some(Datum(Value, ""))
    ensures s.HeaderValueDiscardWs? || s.HeaderValueDiscardWsAlmostDone? || s.HeaderAlmostDone? ==> OpenAtStart(s).None?
  {
  }

  lemma TwoCut(r: Run, off: nat, a: char, b: char, cuts: set<nat>)
    ensures var s := Step(if off in cuts then Cut(r) else r, a);
      CutRun(r, off, [a, b], cuts) == Step(if off + 1 in cuts then Cut(s) else s, b)
  {
    hide Step, Cut;
    assert [a, b] == [a] + [b];
    CutRunAppend(r, off, [a], [b], cuts);
    CutRunOne(r, off, a, cuts);
    CutRunOne(Step(if off in cuts then Cut(r) else r, a), off + 1, b, cuts);
  }

  /** The line end behind a value. */
  lemma ValueEndPieces(r: Run, off: nat, cuts: set<nat>, parts: seq<Event>)
    requires Collecting(r, Value, parts) && r.parser.state.HeaderValue?
    ensures HeaderPart(CutRun(r, off, "\r\n", cuts).events) == parts
  {
    hide Step, HeaderPart, Cut, OpenAtStart;
    TwoCut(r, off, CR, LF, cuts);
    var r1 := if off in cuts then Cut(r) else r;
    CutSame(r);
    OpenInName(r.parser.state);
    ValueCr(r1, r1.open.value.bytes);
    CollectEnd(r, off in cuts, Step(r1, CR), Value, parts);
    var s := Step(r1, CR);
    CutNothing(s) by { OpenInName(s.parser.state); }
    ValueLf(if off + 1 in cuts then Cut(s) else s);
  }

  /** The line end where there is no value. */
  lemma EmptyValuePieces(r: Run, off: nat, cuts: set<nat>)
    requires r.control.Advance? && r.parser.state.HeaderValueDiscardWs? && r.open.None? && !r.skipping
    ensures CutRun(r, off, "\r\n", cuts).events == r.events
  {
    hide Step, Cut, OpenAtStart;
    TwoCut(r, off, CR, LF, cuts);
    CutNothing(r) by { OpenInName(r.parser.state); }
    EmptyValueCr(r);
    var s := Step(r, CR);
    CutNothing(s) by { OpenInName(s.parser.state); }
    EmptyValueLf(s);
  }

  lemma NamedPieces(r1: Run, r2: Run, off: nat, h: Entry, cuts: set<nat>)
    requires Follows(r1, r2) && AtLine(r1) && LineShape(r1, h) && QuietFrom(r1, h.key + ": ")
    ensures HeaderPart(CutRun(r2, off, h.key + ": ", cuts).events) == HeaderPart(r2.events) + Pieces(Field, h.key, off, cuts)
  {
    hide *;
    NameShape(r1, h);
    QuietPiece(r1, h.key, ": ");
    NamePieces(r1, r2, off, h.key, cuts);
    var a, s := RunBytes(r1, h.key), CutRun(r2, off, h.key, cuts);
    FollowsAlong(r1, r2, off, h.key, cuts);
    FollowsSame(a, s);
    OpenStates(a.parser.state, a.open);
    NoSkip(a, s);
    ColonPieces(s, off + |h.key|, cuts, HeaderPart(r2.events) + Pieces(Field, h.key, off, cuts));
    CutRunAppend(r2, off, h.key, ": ", cuts);
  }

  lemma NameShape(r: Run, h: Entry)
    requires LineShape(r, h)
    ensures h.key != "" && IsTokens(h.key)
    ensures var a := RunBytes(r, h.key); a.control.Advance? && a.open == Some(Datum(Field, h.key)) && IsOpen(a.open, Field)
  {
    hide RunBytes, IsTokens, IsClean;
  }

  lemma NoSkip(a: Run, s: Run)
    requires s.parser == a.parser && a.parser.state.HeaderField? && (s.skipping ==> s.parser.state.HeaderValue?)
    ensures s.parser.state.HeaderField? && !s.skipping
  {
  }

  lemma ValueShape(r: Run, h: Entry)
    requires LineShape(r, h)
    ensures var b := RunBytes(r, h.key + ": ");
      && b.control.Advance? && b.parser.state.HeaderValueDiscardWs? && b.open.None? && !b.skipping
      && (h.value != "" ==>
            && IsClean(h.value)
            && RunBytes(b, h.value).control.Advance? && RunBytes(b, h.value).open == Some(Datum(Value, h.value))
            && IsOpen(RunBytes(b, h.value).open, Value))
  {
    hide RunBytes, IsTokens, IsClean;
    RunBytesAppend(r, h.key + ": ", h.value);
  }

  /** What a value and its line end add. */
  lemma ValueLinePieces(r1: Run, r2: Run, off: nat, value: string, cuts: set<nat>)
    requires Follows(r1, r2) && r1.control.Advance? && r1.parser.state.HeaderValueDiscardWs? && r1.open.None? && !r1.skipping
    requires QuietFrom(r1, value)
    requires value != "" ==>
      && IsClean(value) && RunBytes(r1, value).control.Advance? && RunBytes(r1, value).open == Some(Datum(Value, value))
      && IsOpen(RunBytes(r1, value).open, Value)
    ensures HeaderPart(CutRun(r2, off, value + "\r\n", cuts).events) == HeaderPart(r2.events) + Pieces(Value, value, off, cuts)
  {
    hide *;
    FollowsSame(r1, r2);
    CutRunAppend(r2, off, value, "\r\n", cuts);
    if value == "" {
      CutRunEmpty(r2, off, cuts);
      EmptyValuePieces(r2, off, cuts);
      NoPiecesAdded(r2.events, off, cuts);
    } else {
      ValuePieces(r1, r2, off, value, cuts);
      var c, s := RunBytes(r1, value), CutRun(r2, off, value, cuts);
      FollowsAlong(r1, r2, off, value, cuts);
      FollowsSame(c, s);
      OpenStates(c.parser.state, c.open);
      ValueEndPieces(s, off + |value|, cuts, HeaderPart(r2.events) + Pieces(Value, value, off, cuts));
    }
  }

  lemma NoPiecesAdded(events: seq<Event>, off: nat, cuts: set<nat>)
    ensures HeaderPart(events) + Pieces(Value, "", off, cuts) == HeaderPart(events)
  {
    hide HeaderPart;
  }

  /** A line is delivered in its pieces. */
  lemma LinePieces(r1: Run, r2: Run, off: nat, h: Entry, cuts: set<nat>)
    requires Follows(r1, r2) && AtLine(r1) && LineShape(r1, h) && QuietFrom(r1, HeaderLine(h))
    ensures HeaderPart(CutRun(r2, off, HeaderLine(h), cuts).events) == HeaderPart(r2.events) + HeaderPieces(h, off, cuts)
  {
    hide RunBytes, HeaderPart, Follows, QuietFrom, CutRun, LineShape, AtLine, Pieces;
    var named := h.key + ": ";
    assert HeaderLine(h) == named + (h.value + "\r\n");
    QuietPiece(r1, named, h.value + "\r\n");
    NamedPieces(r1, r2, off, h, cuts);
    FollowsAlong(r1, r2, off, named, cuts);
    ValueShape(r1, h);
    QuietPiece(RunBytes(r1, named), h.value, "\r\n");
    ValueLinePieces(RunBytes(r1, named), CutRun(r2, off, named, cuts), off + |named|, h.value, cuts);
    CutRunAppend(r2, off, named, h.value + "\r\n", cuts);
    PartsGrouped(HeaderPart(r2.events), Pieces(Field, h.key, off, cuts), Pieces(Value, h.value, off + |named|, cuts));
  }

  lemma PartsGrouped(a: seq<Event>, b: seq<Event>, c: seq<Event>)
    ensures a + b + c == a + (b + c)
  {
  }

  // ---- The header section --------------------------------------------------------------------------------

  /** The run behind a start line. */
  predicate AtHeaders(r: Run, m: Method) {
    AtLine(r) && r.parser.state.HeaderFieldStart? && r.parser.flags == NO_FLAGS && r.parser.verb == m
  }

  /** All the lines are delivered in their pieces. */
  lemma {:induction false} LinesCut(r1: Run, r2: Run, off: nat, m: Method, c: Content, k: nat, cuts: set<nat>)
    requires Follows(r1, r2) && AtHeaders(r1, m) && |c.body| <= MAX_DECIMAL && PlainHeaders(c) && k <= |AllHeaders(c)|
    requires QuietFrom(r1, HeadersText(AllHeaders(c)[..k]))
    ensures var hs := AllHeaders(c)[..k];
      && Follows(RunBytes(r1, HeadersText(hs)), CutRun(r2, off, HeadersText(hs), cuts))
      && HeaderPart(CutRun(r2, off, HeadersText(hs), cuts).events) == HeaderPart(r2.events) + LinesPieces(hs, off, cuts)
  {
    hide RunBytes, HeaderPart, Follows, QuietFrom, CutRun, HeaderLine, AtLine, LineShape, HeaderPieces, PlainHeaders, AllHeaders;
    var hs := AllHeaders(c)[..k];
    if k == 0 {
      NoLines(r1, r2, off, cuts);
      assert HeaderPart(r2.events) + [] == HeaderPart(r2.events);
    } else {
      var before, h := hs[..k - 1], hs[k - 1];
      assert before == AllHeaders(c)[..k - 1];
      QuietPiece(r1, HeadersText(before), HeaderLine(h));
      LinesCut(r1, r2, off, m, c, k - 1, cuts);
      LineAt(r1, m, c, k - 1);
      RunBytesAppend(r1, HeadersText(before), HeaderLine(h));
      CutRunAppend(r2, off, HeadersText(before), HeaderLine(h), cuts);
      var s1, s2 := RunBytes(r1, HeadersText(before)), CutRun(r2, off, HeadersText(before), cuts);
      LinePieces(s1, s2, off + |HeadersText(before)|, h, cuts);
      FollowsAlong(s1, s2, off + |HeadersText(before)|, HeaderLine(h), cuts);
      var a, b, d := HeaderPart(r2.events), LinesPieces(before, off, cuts), HeaderPieces(h, off + |HeadersText(before)|, cuts);
      assert a + (b + d) == a + b + d;
    }
  }

  lemma NoLines(r1: Run, r2: Run, off: nat, cuts: set<nat>)
    ensures RunBytes(r1, HeadersText([])) == r1 && CutRun(r2, off, HeadersText([]), cuts) == r2
    ensures LinesPieces([], off, cuts) == []
  {
  }

  // ---- The whole message -----------------------------------------------------------------------------------

  lemma {:induction false} CutRunLog(r: Run, off: nat, data: string, cuts: set<nat>)
    ensures r.events <= CutRun(r, off, data, cuts).events
  {
    hide Settle;
    if data != "" {
      var n := |data| - 1;
      CutRunLog(r, off, data[..n], cuts);
      var s := CutRun(r, off, data[..n], cuts);
      var s1 := if off + n in cuts then Cut(s) else s;
      assert s.events <= s1.events;
      if s1.control.Advance? {
        SettleLog(Count(s1), data[n]);
      }
    }
  }

  lemma {:induction false} SettleLog(r: Run, ch: char)
    requires r.control.Advance?
    ensures r.events <= Settle(r, ch).events
    decreases Rank(r.parser.state)
  {
    hide Transition, EventsOf;
    if Transition(r.parser, r.skipping, ch).control.Reexecute? {
      SettleLog(Settled(r, ch), ch);
    }
  }

  /** The bytes of names and values that a log delivers. */
  predicate SameParts(a: seq<Event>, b: seq<Event>) { Joined(a, Field) == Joined(b, Field) && Joined(a, Value) == Joined(b, Value) }

  lemma CoalesceParts(a: seq<Event>, b: seq<Event>)
    requires Coalesce(a) == Coalesce(b)
    ensures SameParts(a, b)
  {
    hide Joined, Coalesce;
    CoalesceKeeps(a, Field);
    CoalesceKeeps(a, Value);
    CoalesceKeeps(b, Field);
    CoalesceKeeps(b, Value);
  }

  /** What is delivered behind a point of the log, when no byte of a name or a value is. */
  lemma TailParts(before: seq<Event>, all: seq<Event>)
    requires before <= all && SameParts(before, all)
    ensures HeaderPart(all) == HeaderPart(before)
  {
    hide Joined, HeaderPart;
    var tail := all[|before|..];
    assert all == before + tail;
    JoinedAppend(before, tail, Field);
    JoinedAppend(before, tail, Value);
    NoParts(tail);
    HeaderPartAppend(before, tail);
  }

  /** However a message is cut, the names and values that are delivered are the pieces of its
      lines. */
  lemma MessagePieces(start: Run, line: string, m: Method, c: Content, rest: string, cuts: set<nat>)
    requires RunOk(start) && start.control.Advance? && start.events == [] && start.open.None?
    requires |c.body| <= MAX_DECIMAL && PlainHeaders(c)
    requires QuietFrom(start, line + (HeadersText(AllHeaders(c)) + rest))
    requires AtHeaders(RunBytes(start, line), m) && SameParts(RunBytes(start, line).events, [])
    requires var end := RunBytes(start, line + (HeadersText(AllHeaders(c)) + rest));
      end.control.Advance? && end.open.None? && SameParts(end.events, HeaderEvents(AllHeaders(c)))
    ensures var s := CutRun(start, 0, line + (HeadersText(AllHeaders(c)) + rest), cuts);
      s.open.None? && HeaderPart(s.events) == LinesPieces(AllHeaders(c), |line|, cuts)
  {
    hide RunBytes, HeaderPart, Follows, QuietFrom, CutRun, Coalesce, Joined, AtLine, PlainHeaders, HeadersText, HeaderEvents,
      LinesPieces, AllHeaders;
    var hs := AllHeaders(c);
    var lines := HeadersText(hs);
    QuietPiece(start, line, lines + rest);
    var r1, r2 := RunBytes(start, line), CutRun(start, 0, line, cuts);
    QuietPiece(r1, lines, rest);
    StartFollows(start);
    FollowsAlong(start, start, 0, line, cuts);
    LineIsClear(r1);
    FollowsSame(r1, r2);
    CoalesceParts(r1.events, r2.events);
    TailParts([], r2.events);
    assert hs[..|hs|] == hs;
    LinesCut(r1, r2, |line|, m, c, |hs|, cuts);
    RunBytesAppend(start, line, lines + rest);
    RunBytesAppend(r1, lines, rest);
    CutRunAppend(start, 0, line, lines + rest, cuts);
    CutRunAppend(r2, |line|, lines, rest, cuts);
    var s1, s2 := RunBytes(r1, lines), CutRun(r2, |line|, lines, cuts);
    LinesEnd(r1, m, c);
    LineIsClear(s1);
    FollowsSame(s1, s2);
    CoalesceParts(s1.events, s2.events);
    var e1, e2 := RunBytes(s1, rest), CutRun(s2, |line| + |lines|, rest, cuts);
    FollowsAlong(s1, s2, |line| + |lines|, rest, cuts);
    FollowsSame(e1, e2);
    CoalesceParts(e1.events, e2.events);
    CutRunLog(s2, |line| + |lines|, rest, cuts);
    PartsJoin(r1.events, s1.events, HeaderEvents(hs));
    TailParts(s2.events, e2.events);
    NoneBefore(LinesPieces(hs, |line|, cuts));
  }

  lemma NoneBefore(parts: seq<Event>)
    ensures HeaderPart([]) + parts == parts
  {
  }

  lemma StartFollows(r: Run)
    requires RunOk(r) && r.control.Advance? && r.open.None?
    ensures Follows(r, r)
  {
    SameEquiv(r);
  }

  lemma LineIsClear(r: Run)
    requires AtLine(r)
    ensures r.control.Advance? && r.open.None?
  {
  }

  /** The lines read: their names and values are what has been delivered. */
  lemma LinesEnd(r: Run, m: Method, c: Content)
    requires AtHeaders(r, m) && |c.body| <= MAX_DECIMAL && PlainHeaders(c)
    ensures var s := RunBytes(r, HeadersText(AllHeaders(c)));
      && AtLine(s) && (s.events == r.events + HeaderEvents(AllHeaders(c)) || s.events + [Data(Value, "")] == r.events + HeaderEvents(AllHeaders(c)))
  {
    hide RunBytes, HeaderEvents, HeadersText, PlainHeaders, FinishHeader;
    HeaderLinesSteps(r, m, c);
    AllLines(c);
    LinedSame(RunBytes(r, HeadersText(AllHeaders(c))));
  }

  lemma AllLines(c: Content)
    ensures HeadersText(AllHeaders(c)) == LengthLine(c) + ConnectionLine(c) + HeadersText(c.headers)
  {
    hide HeaderLine, Decimal;
    var hs := AllHeaders(c);
    if c.headers == [] {
      LinesOf(c, 1);
      assert hs[..|hs| - 1] == hs[..1];
      assert LengthLine(c) + ConnectionLine(c) + "" == LengthLine(c) + ConnectionLine(c);
    } else {
      var n := |c.headers| - 1;
      LinesOf(c, n + 2);
      assert hs[..|hs| - 1] == hs[..n + 2];
      TextGrouped(LengthLine(c) + ConnectionLine(c), HeadersText(c.headers[..n]), HeaderLine(c.headers[n]));
    }
  }

  lemma TextGrouped(a: string, b: string, c: string)
    ensures a + b + c == a + (b + c)
  {
  }

  /** An empty value more or less is no part. */
  lemma PartsJoin(a: seq<Event>, s: seq<Event>, es: seq<Event>)
    requires SameParts(a, []) && (s == a + es || s + [Data(Value, "")] == a + es)
    ensures SameParts(s, es)
  {
    hide Joined;
    KindJoin(a, s, es, Field);
    KindJoin(a, s, es, Value);
  }

  lemma KindJoin(a: seq<Event>, s: seq<Event>, es: seq<Event>, kind: DataKind)
    requires Joined(a, kind) == Joined([], kind) && (s == a + es || s + [Data(Value, "")] == a + es)
    ensures Joined(s, kind) == Joined(es, kind)
  {
    hide Joined;
    JoinedAppend(a, es, kind);
    JoinedAppend(s, [Data(Value, "")], kind);
    JoinedOne(Data(Value, ""), kind);
    JoinedNone(kind);
    assert Joined(s, kind) + "" == Joined(s, kind) && "" + Joined(es, kind) == Joined(es, kind);
  }
}
