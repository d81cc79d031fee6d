/** What many single-byte steps amount to where the buffer loop takes them at once: a jump over
    body bytes, and the search for the end of a header value whose meaning does not matter. */
module HttpBlocks {
  import opened Options
  import opened HttpTypes
  import opened HttpMachine
  import opened HttpRun

  lemma RunBytesSnoc(r: Run, data: string, p: nat)
    requires p < |data|
    ensures RunBytes(r, data[..p + 1]) == Step(RunBytes(r, data[..p]), data[p])
  {
    hide Step;
    assert data[..p + 1][..p] == data[..p];
  }

  lemma SettleUnfold(r: Run, ch: char)
    requires r.control.Advance?
    ensures
      var o := Transition(r.parser, r.skipping, ch);
      var r1 := Settled(r, ch);
      Settle(r, ch) ==
      if o.control.Advance? then r1.(open := Extend(r1.open, ch), consumed := r.consumed + 1)
      else if o.control.Reexecute? then Settle(r1, ch)
      else if o.control.Exit? then r1.(consumed := r.consumed + 1)
      else r1
  {
    hide Transition;
  }

  /** A run after its parser has moved on by one byte and nothing else happened. */
  function Moved(r: Run, q: Parser, skipping: bool, ch: char): Run {
    r.(parser := q, headerBytes := if ParsingHeader(r.parser.state) then r.headerBytes + 1 else r.headerBytes,
       open := Extend(r.open, ch), skipping := skipping, consumed := r.consumed + 1)
  }

  /** A run whose parser failed on the byte. */
  function Failed(r: Run, q: Parser): Run {
    r.(parser := q, headerBytes := if ParsingHeader(r.parser.state) then r.headerBytes + 1 else r.headerBytes,
       skipping := false, control := Fail)
  }

  /** A pass that only moves the parser on. */
  lemma MovedStep(r: Run, ch: char, q: Parser, skipping: bool)
    requires r.control.Advance? && Transition(r.parser, r.skipping, ch) == Outcome(q, skipping, Nothing, Advance)
    requires !ResetsCount(r.parser.state)
    ensures Step(r, ch) == Moved(r, q, skipping, ch)
  {
    hide Transition;
  }

  lemma NameStep(r: Run, ch: char)
    requires r.control.Advance? && r.parser.state.HeaderField? && Token(ch) != '\0'
    ensures var q := NameByte(r.parser, Token(ch));
      Step(r, ch) == if q.errno != r.parser.errno then Failed(r, q) else Moved(r, q, false, ch)
  {
    hide NameByte, Token;
  }

  lemma ValueStep(r: Run, ch: char)
    requires r.control.Advance? && r.parser.state.HeaderValue? && ch != CR && ch != LF
    requires r.skipping || IsHeaderChar(ch)
    ensures var q := ValueByte(r.parser, ch);
      Step(r, ch) ==
      if q.errno != r.parser.errno then Failed(r, q)
      else Moved(r, q, r.parser.headerState.General?, ch)
  {
    hide ValueByte;
  }

  lemma BodyStep(r: Run, ch: char)
    requires r.control.Advance?
    requires r.parser.state.BodyIdentity? || r.parser.state.ChunkData?
    requires r.parser.contentLength > 1
    ensures Step(r, ch) ==
      Moved(r.(open := MarkOpen(r.open, Body)), r.parser.(contentLength := r.parser.contentLength - 1), false, ch)
  {
  }

  lemma EofStep(r: Run, ch: char)
    requires r.control.Advance? && r.parser.state.BodyIdentityEof?
    ensures Step(r, ch) == Moved(r.(open := MarkOpen(r.open, Body)), r.parser, false, ch)
  {
  }

  lemma LastChunkByteStep(r: Run, ch: char)
    requires r.control.Advance? && r.parser.state.ChunkData? && r.parser.contentLength == 1
    ensures Step(r, ch) ==
      Moved(r.(open := MarkOpen(r.open, Body)), r.parser.(contentLength := 0, state := ChunkDataAlmostDone), false, ch)
  {
  }

  function ExtendBy(open: Option<Datum>, block: string): Option<Datum> {
    if open.Some? then Some(Datum(open.value.kind, open.value.bytes + block)) else None
  }

  lemma ExtendByOne(open: Option<Datum>, block: string)
    requires block != ""
    ensures ExtendBy(open, "") == open
    ensures Extend(ExtendBy(open, block[..|block| - 1]), block[|block| - 1]) == ExtendBy(open, block)
  {
    if open.Some? {
      var n := |block| - 1;
      assert open.value.bytes + "" == open.value.bytes;
      assert open.value.bytes + block[..n] + [block[n]] == open.value.bytes + block;
    }
  }

  /** `p += to_read - 1` stands for `to_read` single-byte steps, as long as a byte is left over. */
  lemma {:induction false} BodySteps(r: Run, block: string)
    requires r.control.Advance? && !r.skipping
    requires r.parser.state.BodyIdentity? || r.parser.state.ChunkData?
    requires 0 < |block| < r.parser.contentLength
    requires IsOpen(r.open, Body) || r.open.None?
    ensures RunBytes(r, block) ==
      r.(parser := r.parser.(contentLength := r.parser.contentLength - |block|),
         open := ExtendBy(MarkOpen(r.open, Body), block), consumed := r.consumed + |block|)
    decreases |block|
  {
    hide Step;
    var n := |block| - 1;
    ExtendByOne(MarkOpen(r.open, Body), block);
    if n > 0 {
      BodySteps(r, block[..n]);
    } else {
      assert block[..n] == "";
    }
    BodyStep(RunBytes(r, block[..n]), block[n]);
  }

  /** A chunk's data to its last byte. */
  lemma WholeChunkSteps(r: Run, block: string)
    requires r.control.Advance? && !r.skipping && r.parser.state.ChunkData?
    requires 0 < |block| == r.parser.contentLength
    requires IsOpen(r.open, Body) || r.open.None?
    ensures RunBytes(r, block) ==
      r.(parser := r.parser.(contentLength := 0, state := ChunkDataAlmostDone),
         open := ExtendBy(MarkOpen(r.open, Body), block), consumed := r.consumed + |block|)
  {
    hide Step;
    var n := |block| - 1;
    ExtendByOne(MarkOpen(r.open, Body), block);
    if n > 0 {
      BodySteps(r, block[..n]);
    } else {
      assert block[..n] == "";
    }
    LastChunkByteStep(RunBytes(r, block[..n]), block[n]);
  }

  lemma {:induction false} EofSteps(r: Run, block: string)
    requires r.control.Advance? && !r.skipping && r.parser.state.BodyIdentityEof? && block != ""
    requires IsOpen(r.open, Body) || r.open.None?
    ensures RunBytes(r, block) ==
      r.(open := ExtendBy(MarkOpen(r.open, Body), block), consumed := r.consumed + |block|)
    decreases |block|
  {
    hide Step;
    var n := |block| - 1;
    ExtendByOne(MarkOpen(r.open, Body), block);
    if n > 0 {
      EofSteps(r, block[..n]);
    } else {
      assert block[..n] == "";
    }
    EofStep(RunBytes(r, block[..n]), block[n]);
  }

  predicate NoLineEnd(s: string) { CR !in s && LF !in s }

  /** The search for the line end stands for as many steps as it passes bytes.  Only the first
      byte is looked at. */
  lemma {:induction false} SkipSteps(r: Run, block: string)
    requires r.control.Advance? && r.parser.state.HeaderValue? && r.parser.headerState.General? && r.open.Some?
    requires block != "" && NoLineEnd(block) && IsHeaderChar(block[0])
    ensures RunBytes(r, block) ==
      r.(open := ExtendBy(r.open, block), skipping := true, headerBytes := r.headerBytes + |block|,
         consumed := r.consumed + |block|)
    decreases |block|
  {
    hide Step, IsHeaderChar;
    var n := |block| - 1;
    ExtendByOne(r.open, block);
    if n > 0 {
      SkipSteps(r, block[..n]);
    } else {
      assert block[..n] == "";
    }
    ValueStep(RunBytes(r, block[..n]), block[n]);
  }

  // ---- The header count ------------------------------------------------------------------

  /** A byte counts once at most, and a reset is not forgotten. */
  lemma {:induction false} HeaderBytesBound(r: Run, data: string)
    ensures RunBytes(r, data).headerBytes <= r.headerBytes + |data|
    ensures r.reset ==> RunBytes(r, data).reset
  {
    hide Step;
    if data != "" {
      var n := |data| - 1;
      HeaderBytesBound(r, data[..n]);
      StepHeaderBytes(RunBytes(r, data[..n]), data[n]);
    }
  }

  lemma StepHeaderBytes(r: Run, ch: char)
    ensures Step(r, ch).headerBytes <= r.headerBytes + 1
    ensures r.reset ==> Step(r, ch).reset
  {
    hide Settle;
    if r.control.Advance? {
      SettleHeaderBytes(Count(r), ch);
    }
  }

  lemma {:induction false} SettleHeaderBytes(r: Run, ch: char)
    requires r.control.Advance?
    ensures Settle(r, ch).headerBytes <= r.headerBytes
    ensures r.reset ==> Settle(r, ch).reset
    decreases Rank(r.parser.state)
  {
    hide Transition;
    var o := Transition(r.parser, r.skipping, ch);
    if o.control.Reexecute? {
      SettleHeaderBytes(Settled(r, ch), ch);
    }
  }
}
