/** The Content-Length field: which values are accepted, and as what number. */
module HttpLength {
  import opened Options
  import opened HttpTypes
  import opened HttpMachine
  import opened HttpRun
  import opened HttpInvariant
  import opened HttpBlocks

  /** Digits, with spaces after the first that do not count. */
  predicate IsLength(s: string) {
    s != "" && IsNum(s[0]) && forall i | 0 <= i < |s| :: IsNum(s[i]) || s[i] == ' '
  }

  /** The number the digits make, spaces left out. */
  function DecimalValue(s: string): nat {
    if s == "" then 0
    else
      var v, c := DecimalValue(s[..|s| - 1]), s[|s| - 1];
      if IsNum(c) then v * 10 + Digit(c) else v
  }

  /** Where a value begins, after the colon of a content-length header. */
  predicate AtLength(r: Run) {
    && r.control.Advance? && r.parser.state.HeaderValueDiscardWs? && r.parser.headerState.ContentLength?
    && r.open.None? && !r.skipping && r.parser.errno.Ok?
  }

  /** The run that has read a length. */
  function LengthRead(r: Run, s: string): Run {
    r.(parser := r.parser.(state := HeaderValue, index := 0, contentLength := DecimalValue(s)),
       open := Some(Datum(Value, s)), headerBytes := r.headerBytes + |s|, consumed := r.consumed + |s|)
  }

  predicate Refused(r: Run) { r.control.Fail? && r.parser.errno == InvalidContentLength }

  lemma FirstLengthByte(r: Run, ch: char)
    requires AtLength(r) && ch != ' ' && ch != '\t' && ch != CR && ch != LF
    ensures if IsNum(ch) then Step(r, ch) == LengthRead(r, [ch]) else Refused(Step(r, ch))
    ensures IsNum(ch) ==> DecimalValue([ch]) <= 9
  {
    hide Lower;
    assert "" + [ch] == [ch];
    assert [ch][..0] == "";
    assert IsNum(ch) ==> DecimalValue([ch]) == Digit(ch);
  }

  lemma LengthByte(r: Run, ch: char)
    requires r.control.Advance? && r.parser.state.HeaderValue? && r.parser.headerState.ContentLength? && !r.skipping
    requires r.parser.errno.Ok? && r.parser.contentLength >= 0 && ch != CR && ch != LF && IsHeaderChar(ch)
    ensures var q := r.parser;
      if ch == ' ' then Step(r, ch) == Moved(r, q, false, ch)
      else if IsNum(ch) && q.contentLength <= (ABSENT - 10) / 10 then
        Step(r, ch) == Moved(r, q.(contentLength := q.contentLength * 10 + Digit(ch)), false, ch)
      else Refused(Step(r, ch))
  {
    hide Lower;
    ValueStep(r, ch);
    assert IsNum(ch) && r.parser.contentLength <= (ABSENT - 10) / 10 ==> r.parser.contentLength * 10 + Digit(ch) < TWO64;
  }

  predicate IsValueText(s: string) { forall i | 0 <= i < |s| :: s[i] != CR && s[i] != LF && IsHeaderChar(s[i]) }

  /** A value is taken for a length exactly when it is one and not above 18446744073709551609.
      Then the number stored is its exact value, which did not wrap and is not the marker of an
      absent length; everything else is refused. */
  lemma {:induction false} LengthExact(r: Run, s: string)
    requires AtLength(r) && s != "" && s[0] != ' ' && s[0] != '\t' && IsValueText(s)
    ensures
      if IsLength(s) && DecimalValue(s) <= MAX_DECIMAL then RunBytes(r, s) == LengthRead(r, s)
      else Refused(RunBytes(r, s))
  {
    hide *;
    var n := |s| - 1;
    var before, ch := s[..n], s[n];
    assert s == before + [ch];
    ValueTextParts(before, ch);
    if n == 0 {
      assert before == "" && s == [ch];
      RunBytesOne(r, ch);
      FirstLength(r, ch);
    } else {
      LengthExact(r, before);
      assert s[..n + 1] == s;
      RunBytesSnoc(r, s, n);
      NextLength(r, RunBytes(r, before), before, ch);
    }
  }

  lemma ValueTextParts(before: string, ch: char)
    requires IsValueText(before + [ch])
    ensures IsValueText(before) && ch != CR && ch != LF && IsHeaderChar(ch)
  {
    hide IsHeaderChar;
    var s := before + [ch];
    assert s[|before|] == ch;
    assert forall i | 0 <= i < |before| :: s[i] == before[i];
  }

  lemma FirstLength(r: Run, ch: char)
    requires AtLength(r) && ch != ' ' && ch != '\t' && ch != CR && ch != LF
    ensures if IsLength([ch]) && DecimalValue([ch]) <= MAX_DECIMAL then Step(r, ch) == LengthRead(r, [ch]) else Refused(Step(r, ch))
  {
    hide Step, LengthRead, DecimalValue;
    FirstLengthByte(r, ch);
  }

  lemma NextLength(r: Run, r0: Run, before: string, ch: char)
    requires AtLength(r) && before != "" && ch != CR && ch != LF && IsHeaderChar(ch)
    requires if IsLength(before) && DecimalValue(before) <= MAX_DECIMAL then r0 == LengthRead(r, before) else Refused(r0)
    ensures var s := before + [ch];
      if IsLength(s) && DecimalValue(s) <= MAX_DECIMAL then Step(r0, ch) == LengthRead(r, s) else Refused(Step(r0, ch))
  {
    hide Step, IsHeaderChar;
    var s := before + [ch];
    assert s[..|s| - 1] == before;
    if IsLength(before) && DecimalValue(before) <= MAX_DECIMAL {
      LengthByte(r0, ch);
    } else {
      LengthWorse(before, ch);
      RefusedStays(r0, ch);
    }
  }

  lemma RefusedStays(r: Run, ch: char)
    requires Refused(r)
    ensures Step(r, ch) == r
  {
  }

  /** What is not a length does not become one. */
  lemma LengthWorse(before: string, ch: char)
    requires before != "" && !(IsLength(before) && DecimalValue(before) <= MAX_DECIMAL)
    ensures !(IsLength(before + [ch]) && DecimalValue(before + [ch]) <= MAX_DECIMAL)
  {
    var s := before + [ch];
    assert s[..|s| - 1] == before;
    if IsLength(s) {
      forall i | 0 <= i < |before|
        ensures IsNum(before[i]) || before[i] == ' '
      {
        assert s[i] == before[i];
      }
    }
  }
}
