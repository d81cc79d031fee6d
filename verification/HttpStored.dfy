/** What the wrapper stores of header names and values that come in pieces. */
module HttpStored {
  import opened HttpTypes
  import opened HttpRun
  import opened HttpFraming
  import opened OrderedMap
  import opened HttpEncoders
  import opened HttpParsers
  import opened HttpPieces

  // ---- Cuts and pieces ----------------------------------------------------------------------------

  /** A buffer ends strictly inside the `len` bytes from `off` on. */
  predicate Inside(cuts: set<nat>, off: nat, len: nat) { exists x | x in cuts :: off < x < off + len }

  /** The offset of a line. */
  function LineOff(headers: seq<Entry>, off: nat, i: nat): nat
    requires i <= |headers|
  {
    off + |HeadersText(headers[..i])|
  }

  predicate NameCut(headers: seq<Entry>, off: nat, cuts: set<nat>, i: nat)
    requires i < |headers|
  {
    Inside(cuts, LineOff(headers, off, i), |headers[i].key|)
  }

  predicate ValueCut(headers: seq<Entry>, off: nat, cuts: set<nat>, i: nat)
    requires i < |headers|
  {
    Inside(cuts, LineOff(headers, off, i) + |headers[i].key| + 2, |headers[i].value|)
  }

  /** A buffer ends strictly inside the name or the value of a header. */
  predicate CutInside(headers: seq<Entry>, off: nat, cuts: set<nat>) {
    exists i: nat | i < |headers| :: NameCut(headers, off, cuts, i) || ValueCut(headers, off, cuts, i)
  }

  /** Pieces of a text: the text itself, or more than one, each shorter. */
  predicate ArePieces(ps: seq<Event>, kind: DataKind, text: string, cut: bool) {
    && (forall e | e in ps :: e.Data? && e.kind == kind && 0 < |e.bytes| <= |text|)
    && (if cut then |ps| > 1 && forall e | e in ps :: |e.bytes| < |text| else ps == [Data(kind, text)])
  }

  lemma NewPiece(ps: seq<Event>, kind: DataKind, text: string, cut: bool, ch: char)
    requires ArePieces(ps, kind, text, cut) && text != ""
    ensures ArePieces(ps + [Data(kind, [ch])], kind, text + [ch], true)
  {
    forall e | e in ps + [Data(kind, [ch])]
      ensures e.Data? && e.kind == kind && 0 < |e.bytes| < |text + [ch]|
    {
      assert e in ps || e == Data(kind, [ch]);
    }
    assert ps != [];
  }

  lemma LongerPiece(ps: seq<Event>, kind: DataKind, text: string, cut: bool, ch: char)
    requires ArePieces(ps, kind, text, cut)
    ensures ps != [] && ps[|ps| - 1].Data?
    ensures ArePieces(ps[..|ps| - 1] + [Data(kind, ps[|ps| - 1].bytes + [ch])], kind, text + [ch], cut)
  {
    var last := ps[|ps| - 1];
    assert last in ps;
    var next := ps[..|ps| - 1] + [Data(kind, last.bytes + [ch])];
    forall e | e in next
      ensures e.Data? && e.kind == kind && 0 < |e.bytes| <= |text + [ch]| && (cut ==> |e.bytes| < |text + [ch]|)
    {
      assert e in ps || e == Data(kind, last.bytes + [ch]);
    }
  }

  lemma {:induction false} PiecesOf(kind: DataKind, text: string, off: nat, cuts: set<nat>)
    requires text != ""
    ensures ArePieces(Pieces(kind, text, off, cuts), kind, text, Inside(cuts, off, |text|))
  {
    hide *;
    var n := |text| - 1;
    if n == 0 {
      PiecesOne(kind, text[0], off, cuts);
      assert text == [text[0]];
      NothingInside(cuts, off);
      OnePiece(kind, text);
    } else {
      var before := text[..n];
      PiecesOf(kind, before, off, cuts);
      var ps := Pieces(kind, before, off, cuts);
      assert before + [text[n]] == text;
      PiecesNext(kind, text, off, cuts);
      InsideNext(cuts, off, n);
      if off + n in cuts {
        NewPiece(ps, kind, before, Inside(cuts, off, n), text[n]);
      } else {
        LongerPiece(ps, kind, before, Inside(cuts, off, n), text[n]);
      }
    }
  }

  lemma NothingInside(cuts: set<nat>, off: nat)
    ensures !Inside(cuts, off, 1)
  {
  }

  lemma OnePiece(kind: DataKind, text: string)
    requires text != ""
    ensures ArePieces([Data(kind, text)], kind, text, false)
  {
  }

  lemma InsideNext(cuts: set<nat>, off: nat, n: nat)
    requires n > 0
    ensures Inside(cuts, off, n + 1) <==> Inside(cuts, off, n) || off + n in cuts
  {
    if off + n in cuts {
      assert off < off + n < off + (n + 1);
    }
    if Inside(cuts, off, n) {
      var x :| x in cuts && off < x < off + n;
      assert off < x < off + (n + 1);
    }
  }

  // ---- What matters to the headers ----------------------------------------------------------------

  /** All that a header callback looks at or changes. */
  datatype Filing = Filing(headers: map<string, string>, nameSeen: bool, valueSeen: bool, name: string, value: string)

  function FilingOf(r: Received): Filing { Filing(r.headers, r.nameSeen, r.valueSeen, r.headerName, r.headerValue) }

  lemma FilingApply(r: Received, s: Received, e: Event)
    requires FilingOf(r) == FilingOf(s)
    ensures FilingOf(Apply(r, e)) == if IsPart(e) then FilingOf(Apply(s, e)) else FilingOf(s)
  {
    hide FilingOf, Apply;
    if IsPart(e) {
      FilingPart(r, s, e);
    } else {
      FilingOther(r, e);
    }
  }

  lemma FilingPart(r: Received, s: Received, e: Event)
    requires FilingOf(r) == FilingOf(s) && IsPart(e)
    ensures FilingOf(Apply(r, e)) == FilingOf(Apply(s, e))
  {
    if e.kind == Field {
      FilingStored(r.(headerName := e.bytes, nameSeen := true), s.(headerName := e.bytes, nameSeen := true));
    } else {
      FilingStored(r.(headerValue := e.bytes, valueSeen := true), s.(headerValue := e.bytes, valueSeen := true));
    }
  }

  lemma FilingStored(r: Received, s: Received)
    requires FilingOf(r) == FilingOf(s)
    ensures FilingOf(StoreHeader(r)) == FilingOf(StoreHeader(s))
  {
  }

  lemma FilingOther(r: Received, e: Event)
    requires !IsPart(e)
    ensures FilingOf(Apply(r, e)) == FilingOf(r)
  {
    hide Finished, StoreHeader;
    if e.MessageComplete? {
      FilingFinished(r, e.verb, e.statusCode);
    }
  }

  lemma FilingFinished(r: Received, verb: Method, statusCode: int)
    ensures FilingOf(Finished(r, verb, statusCode)) == FilingOf(r)
  {
    hide Decoded, GetStringBefore, ParametersFrom, MethodString;
  }

  lemma {:induction false} FilingParts(r: Received, events: seq<Event>)
    ensures FilingOf(ApplyAll(r, events)) == FilingOf(ApplyAll(r, HeaderPart(events)))
  {
    hide Apply, FilingOf;
    if events != [] {
      var n := |events| - 1;
      var parts, e := HeaderPart(events[..n]), events[n];
      FilingParts(r, events[..n]);
      FilingApply(ApplyAll(r, events[..n]), ApplyAll(r, parts), e);
      assert (parts + [e])[..|parts|] == parts;
      assert parts + [] == parts;
    }
  }

  lemma ApplySnoc(r: Received, events: seq<Event>, e: Event)
    ensures ApplyAll(r, events + [e]) == Apply(ApplyAll(r, events), e)
  {
    hide Apply;
    assert (events + [e])[..|events|] == events;
  }

  lemma ApplyNothing(r: Received)
    ensures ApplyAll(r, []) == r
  {
  }

  // ---- Headers that come whole ----------------------------------------------------------------------

  /** The headers that have a value. */
  function Kept(headers: seq<Entry>): seq<Entry> {
    if headers == [] then []
    else
      var h := headers[|headers| - 1];
      Kept(headers[..|headers| - 1]) + (if h.value == "" then [] else [h])
  }

  predicate AllValued(headers: seq<Entry>) { forall i | 0 <= i < |headers| :: headers[i].value != "" }

  predicate AllNamed(headers: seq<Entry>) { forall i | 0 <= i < |headers| :: headers[i].key != "" }

  lemma {:induction false} KeptAll(headers: seq<Entry>)
    requires AllValued(headers)
    ensures Kept(headers) == headers
  {
    hide *;
    if headers == [] {
      KeptNone();
    } else {
      var n := |headers| - 1;
      ValuedLast(headers);
      KeptAll(headers[..n]);
      KeptLast(headers);
      assert headers == headers[..n] + [headers[n]];
    }
  }

  lemma KeptNone()
    ensures Kept([]) == []
  {
  }

  lemma ValuedLast(headers: seq<Entry>)
    requires AllValued(headers) && headers != []
    ensures AllValued(headers[..|headers| - 1]) && headers[|headers| - 1].value != ""
  {
  }

  lemma {:induction false} KeptAppend(a: seq<Entry>, b: seq<Entry>)
    ensures Kept(a + b) == Kept(a) + Kept(b)
    decreases |b|
  {
    if b == [] {
      assert a + b == a;
    } else {
      var n := |b| - 1;
      assert (a + b)[..|a + b| - 1] == a + b[..n];
      KeptAppend(a, b[..n]);
    }
  }

  /** A header whose name and value come whole. */
  lemma WholeFiled(r: Received, h: Entry)
    requires h.key != "" && !r.valueSeen
    ensures var r' := ApplyAll(r, [Data(Field, h.key)] + (if h.value == "" then [] else [Data(Value, h.value)]));
      if h.value == "" then r' == r.(headerName := h.key, nameSeen := true)
      else r' == r.(headerName := h.key, headerValue := h.value, headers := r.headers[h.key := h.value], nameSeen := false)
  {
    hide ApplyAll;
    var first := [Data(Field, h.key)];
    ApplyNothing(r);
    ApplySnoc(r, [], Data(Field, h.key));
    assert [] + first == first;
    if h.value == "" {
      assert first + [] == first;
    } else {
      ApplySnoc(r, first, Data(Value, h.value));
    }
  }

  lemma WholePieces(headers: seq<Entry>, off: nat, cuts: set<nat>)
    requires headers != [] && AllNamed(headers) && !CutInside(headers, off, cuts)
    ensures var n := |headers| - 1; var h := headers[n];
      && !CutInside(headers[..n], off, cuts)
      && HeaderPieces(h, LineOff(headers, off, n), cuts)
         == [Data(Field, h.key)] + (if h.value == "" then [] else [Data(Value, h.value)])
  {
    hide Inside, Pieces;
    var n := |headers| - 1;
    var h := headers[n];
    assert !NameCut(headers, off, cuts, n) && !ValueCut(headers, off, cuts, n);
    PiecesOf(Field, h.key, LineOff(headers, off, n), cuts);
    if h.value == "" {
      NoPieces(Value, LineOff(headers, off, n) + |h.key| + 2, cuts);
    } else {
      PiecesOf(Value, h.value, LineOff(headers, off, n) + |h.key| + 2, cuts);
    }
    CutsBefore(headers, off, cuts, n);
  }

  lemma NoPieces(kind: DataKind, off: nat, cuts: set<nat>)
    ensures Pieces(kind, "", off, cuts) == []
  {
  }

  /** The first lines are cut where all of them are. */
  lemma CutsBefore(headers: seq<Entry>, off: nat, cuts: set<nat>, k: nat)
    requires k <= |headers|
    ensures forall i: nat | i < k ::
      NameCut(headers[..k], off, cuts, i) == NameCut(headers, off, cuts, i)
      && ValueCut(headers[..k], off, cuts, i) == ValueCut(headers, off, cuts, i)
  {
    hide Inside, HeadersText;
    forall i: nat | i < k
      ensures headers[..k][..i] == headers[..i]
    {
    }
  }

  lemma KeptMap(m: map<string, string>, headers: seq<Entry>)
    requires headers != []
    ensures var n := |headers| - 1; var h := headers[n];
      m + MapOf(Kept(headers)) == if h.value == "" then m + MapOf(Kept(headers[..n])) else (m + MapOf(Kept(headers[..n])))[h.key := h.value]
  {
    hide MapOf, Kept;
    var n := |headers| - 1;
    var h, kept := headers[n], Kept(headers[..n]);
    KeptLast(headers);
    if h.value != "" {
      MapOfLast(kept, h);
      PutIntoSum(m, MapOf(kept), h.key, h.value);
    }
  }

  lemma KeptLast(headers: seq<Entry>)
    requires headers != []
    ensures var n := |headers| - 1; var h := headers[n];
      Kept(headers) == if h.value == "" then Kept(headers[..n]) else Kept(headers[..n]) + [h]
  {
  }

  lemma MapOfLast(entries: seq<Entry>, e: Entry)
    ensures MapOf(entries + [e]) == MapOf(entries)[e.key := e.value]
  {
    assert (entries + [e])[..|entries|] == entries;
  }

  lemma PutIntoSum(m: map<string, string>, n: map<string, string>, key: string, value: string)
    ensures (m + n)[key := value] == m + n[key := value]
  {
  }

  /** Where no name and no value is cut, exactly the headers that have a value are stored. */
  lemma {:induction false} WholeStored(r: Received, headers: seq<Entry>, off: nat, cuts: set<nat>)
    requires AllNamed(headers) && !CutInside(headers, off, cuts) && !r.valueSeen
    ensures var r' := ApplyAll(r, LinesPieces(headers, off, cuts));
      r' == r.(headers := r.headers + MapOf(Kept(headers)), headerName := r'.headerName, headerValue := r'.headerValue,
               nameSeen := r'.nameSeen)
    ensures AllValued(headers) && !r.nameSeen ==> !ApplyAll(r, LinesPieces(headers, off, cuts)).nameSeen
  {
    hide Apply, ApplyAll, CutInside, HeaderPieces, HeadersText;
    if headers == [] {
      ApplyNothing(r);
      assert r.headers + map[] == r.headers;
    } else {
      var n := |headers| - 1;
      var h := headers[n];
      WholePieces(headers, off, cuts);
      WholeStored(r, headers[..n], off, cuts);
      var parts := LinesPieces(headers[..n], off, cuts);
      ApplyAllAppend(r, parts, HeaderPieces(h, LineOff(headers, off, n), cuts));
      WholeFiled(ApplyAll(r, parts), h);
      KeptMap(r.headers, headers);
    }
  }

  // ---- Headers that do not --------------------------------------------------------------------------

  predicate Distinct(headers: seq<Entry>) { forall i, j | 0 <= i < j < |headers| :: headers[i].key != headers[j].key }

  lemma {:induction false} MapOfDistinct(headers: seq<Entry>, i: nat)
    requires Distinct(headers) && i < |headers|
    ensures headers[i].key in MapOf(headers) && MapOf(headers)[headers[i].key] == headers[i].value
  {
    if i < |headers| - 1 {
      MapOfDistinct(headers[..|headers| - 1], i);
    }
  }

  /** Nothing is stored with an empty value. */
  predicate Valued(r: Received) { (forall k | k in r.headers :: r.headers[k] != "") && (r.valueSeen ==> r.headerValue != "") }

  lemma {:induction false} StoredValued(r: Received, events: seq<Event>)
    requires Valued(r)
    ensures Valued(ApplyAll(r, events))
  {
    hide Finished;
    if events != [] {
      var n := |events| - 1;
      StoredValued(r, events[..n]);
      if events[n].MessageComplete? {
        FilingFinished(ApplyAll(r, events[..n]), events[n].verb, events[n].statusCode);
      }
    }
  }

  /** No name that comes is `key`. */
  predicate NeverNamed(events: seq<Event>, key: string) {
    forall i | 0 <= i < |events| :: events[i].Data? && events[i].kind == Field ==> events[i].bytes != key
  }

  /** What is stored under `key` is the same. */
  predicate SameUnder(r: Received, r': Received, key: string) {
    && (r'.nameSeen ==> r'.headerName != key)
    && (key in r'.headers <==> key in r.headers) && (key in r.headers ==> r'.headers[key] == r.headers[key])
  }

  lemma UntouchedOne(r: Received, e: Event, key: string)
    requires (e.Data? && e.kind == Field ==> e.bytes != key) && (r.nameSeen ==> r.headerName != key)
    ensures SameUnder(r, Apply(r, e), key)
  {
    hide Finished;
    if e.MessageComplete? {
      FilingFinished(r, e.verb, e.statusCode);
    }
  }

  /** Then what is stored under it stays. */
  lemma {:induction false} Untouched(r: Received, events: seq<Event>, key: string)
    requires NeverNamed(events, key) && (r.nameSeen ==> r.headerName != key)
    ensures SameUnder(r, ApplyAll(r, events), key)
  {
    hide Apply;
    if events != [] {
      var n := |events| - 1;
      Untouched(r, events[..n], key);
      UntouchedOne(ApplyAll(r, events[..n]), events[n], key);
    }
  }

  lemma NeverNamedAppend(a: seq<Event>, b: seq<Event>, key: string)
    requires NeverNamed(a, key) && NeverNamed(b, key)
    ensures NeverNamed(a + b, key)
  {
  }

  /** A line names `key` only if it is its whole name, or one piece of a longer one. */
  lemma LineNames(h: Entry, off: nat, cuts: set<nat>, key: string)
    requires h.key != "" && h.key != key
    requires Inside(cuts, off, |h.key|) ==> |h.key| <= |key|
    ensures NeverNamed(HeaderPieces(h, off, cuts), key)
  {
    hide Pieces, Inside;
    PiecesOf(Field, h.key, off, cuts);
    var names, values := Pieces(Field, h.key, off, cuts), Pieces(Value, h.value, off + |h.key| + 2, cuts);
    forall i | 0 <= i < |names|
      ensures names[i].bytes != key
    {
      assert names[i] in names;
    }
    ValuesNameNothing(h.value, off + |h.key| + 2, cuts, key);
    NeverNamedAppend(names, values, key);
  }

  lemma ValuesNameNothing(value: string, off: nat, cuts: set<nat>, key: string)
    ensures NeverNamed(Pieces(Value, value, off, cuts), key)
  {
    hide Pieces, Inside;
    if value == "" {
      NoPieces(Value, off, cuts);
    } else {
      PiecesOf(Value, value, off, cuts);
      var ps := Pieces(Value, value, off, cuts);
      assert forall i | 0 <= i < |ps| :: ps[i] in ps;
    }
  }

  /** The cut name itself never comes. */
  lemma CutLineNames(h: Entry, off: nat, cuts: set<nat>)
    requires h.key != "" && Inside(cuts, off, |h.key|)
    ensures NeverNamed(HeaderPieces(h, off, cuts), h.key)
  {
    hide Pieces, Inside;
    PiecesOf(Field, h.key, off, cuts);
    var names := Pieces(Field, h.key, off, cuts);
    forall i | 0 <= i < |names|
      ensures names[i].bytes != h.key
    {
      assert names[i] in names;
    }
    ValuesNameNothing(h.value, off + |h.key| + 2, cuts, h.key);
    NeverNamedAppend(names, Pieces(Value, h.value, off + |h.key| + 2, cuts), h.key);
  }

  /** The lines from `from` to `upTo`. */
  function Span(headers: seq<Entry>, off: nat, from: nat, upTo: nat, cuts: set<nat>): seq<Event>
    requires from <= upTo <= |headers|
  {
    if from == upTo then [] else Span(headers, off, from, upTo - 1, cuts) + HeaderPieces(headers[upTo - 1], LineOff(headers, off, upTo - 1), cuts)
  }

  lemma {:induction false} SpanAll(headers: seq<Entry>, off: nat, from: nat, upTo: nat, cuts: set<nat>)
    requires from <= upTo <= |headers|
    ensures LinesPieces(headers[..upTo], off, cuts) == LinesPieces(headers[..from], off, cuts) + Span(headers, off, from, upTo, cuts)
    decreases upTo
  {
    hide HeaderPieces, HeadersText;
    var a := LinesPieces(headers[..from], off, cuts);
    if from == upTo {
      assert a + [] == a;
    } else {
      SpanAll(headers, off, from, upTo - 1, cuts);
      assert headers[..upTo][..upTo - 1] == headers[..upTo - 1];
      var b, c := Span(headers, off, from, upTo - 1, cuts), HeaderPieces(headers[upTo - 1], LineOff(headers, off, upTo - 1), cuts);
      assert a + (b + c) == a + b + c;
    }
  }

  /** Lines with other names that are whole, or shorter than `key`, do not name it. */
  lemma {:induction false} SpanNames(headers: seq<Entry>, off: nat, from: nat, upTo: nat, cuts: set<nat>, key: string)
    requires from <= upTo <= |headers| && AllNamed(headers)
    requires forall j: nat | from <= j < upTo ::
      if headers[j].key == key then NameCut(headers, off, cuts, j) else NameCut(headers, off, cuts, j) ==> |headers[j].key| <= |key|
    ensures NeverNamed(Span(headers, off, from, upTo, cuts), key)
    decreases upTo
  {
    hide HeaderPieces, NeverNamed, Inside;
    if from == upTo {
      NothingNamed(key);
    } else {
      SpanNames(headers, off, from, upTo - 1, cuts, key);
      var h, at := headers[upTo - 1], LineOff(headers, off, upTo - 1);
      assert NameCut(headers, off, cuts, upTo - 1) == Inside(cuts, at, |h.key|);
      if h.key == key {
        CutLineNames(h, at, cuts);
      } else {
        LineNames(h, at, cuts, key);
      }
      NeverNamedAppend(Span(headers, off, from, upTo - 1, cuts), HeaderPieces(h, at, cuts), key);
    }
  }

  lemma NothingNamed(key: string)
    ensures NeverNamed([], key)
  {
  }

  /** Among the names that are cut, a longest one. */
  lemma {:induction false} LongestCut(headers: seq<Entry>, off: nat, cuts: set<nat>, n: nat) returns (i: nat)
    requires n <= |headers| && exists j: nat :: j < n && NameCut(headers, off, cuts, j)
    ensures i < n && NameCut(headers, off, cuts, i)
    ensures forall j: nat | j < n && NameCut(headers, off, cuts, j) :: |headers[j].key| <= |headers[i].key|
  {
    hide NameCut;
    if exists j: nat :: j < n - 1 && NameCut(headers, off, cuts, j) {
      i := LongestCut(headers, off, cuts, n - 1);
      if NameCut(headers, off, cuts, n - 1) && |headers[i].key| < |headers[n - 1].key| {
        i := n - 1;
      }
    } else {
      i := n - 1;
    }
  }

  /** A longest name among those that are cut is not in the map. */
  lemma CutNameLost(r: Received, headers: seq<Entry>, off: nat, cuts: set<nat>, i: nat)
    requires AllNamed(headers) && Distinct(headers) && i < |headers| && NameCut(headers, off, cuts, i)
    requires forall j: nat | j < |headers| && NameCut(headers, off, cuts, j) :: |headers[j].key| <= |headers[i].key|
    requires headers[i].key !in r.headers && !r.nameSeen
    ensures headers[i].key !in ApplyAll(r, LinesPieces(headers, off, cuts)).headers
  {
    hide ApplyAll, NeverNamed, HeaderPieces, NameCut;
    SpanNames(headers, off, 0, |headers|, cuts, headers[i].key);
    SpanAll(headers, off, 0, |headers|, cuts);
    assert headers[..|headers|] == headers && headers[..0] == [];
    NoLinePieces(off, cuts);
    assert [] + Span(headers, off, 0, |headers|, cuts) == Span(headers, off, 0, |headers|, cuts);
    Untouched(r, Span(headers, off, 0, |headers|, cuts), headers[i].key);
  }

  lemma NoLinePieces(off: nat, cuts: set<nat>)
    ensures LinesPieces([], off, cuts) == []
  {
  }

  /** The first value that is cut is stored without its end, and stays so. */
  lemma CutValueShort(r: Received, headers: seq<Entry>, off: nat, cuts: set<nat>, i: nat)
    requires AllNamed(headers) && Distinct(headers) && AllValued(headers) && i < |headers| && ValueCut(headers, off, cuts, i)
    requires forall j: nat | j < |headers| :: !NameCut(headers, off, cuts, j)
    requires forall j: nat | j < i :: !ValueCut(headers, off, cuts, j)
    requires !r.nameSeen && !r.valueSeen
    ensures var key, got := headers[i].key, ApplyAll(r, LinesPieces(headers, off, cuts)).headers;
      key in got && |got[key]| < |headers[i].value|
  {
    hide ApplyAll, NeverNamed, HeaderPieces, NameCut, ValueCut, Inside, HeadersText, LinesPieces, Span, Kept, MapOf;
    var h := headers[i];
    var before, line := LinesPieces(headers[..i], off, cuts), HeaderPieces(h, LineOff(headers, off, i), cuts);
    var rest := Span(headers, off, i + 1, |headers|, cuts);
    CutsBefore(headers, off, cuts, i);
    assert !CutInside(headers[..i], off, cuts);
    WholeStored(r, headers[..i], off, cuts);
    var r1 := ApplyAll(r, before);
    NameCutIs(headers, off, cuts, i);
    ValueCutIs(headers, off, cuts, i);
    ShortValue(r1, h, LineOff(headers, off, i), cuts);
    SpanNames(headers, off, i + 1, |headers|, cuts, h.key);
    SpanFrom(headers, off, cuts, i);
    ApplyAllAppend(r, before, line + rest);
    ApplyAllAppend(r1, line, rest);
    Untouched(ApplyAll(r1, line), rest, h.key);
  }

  /** A line with a whole name and a value in pieces. */
  lemma ShortValue(r: Received, h: Entry, off: nat, cuts: set<nat>)
    requires h.key != "" && h.value != "" && !Inside(cuts, off, |h.key|) && Inside(cuts, off + |h.key| + 2, |h.value|)
    requires !r.nameSeen && !r.valueSeen
    ensures var r' := ApplyAll(r, HeaderPieces(h, off, cuts));
      h.key in r'.headers && |r'.headers[h.key]| < |h.value| && (r'.nameSeen ==> r'.headerName != h.key)
  {
    hide ApplyAll, NeverNamed, Pieces, Inside;
    var names, values := Pieces(Field, h.key, off, cuts), Pieces(Value, h.value, off + |h.key| + 2, cuts);
    PiecesOf(Field, h.key, off, cuts);
    PiecesOf(Value, h.value, off + |h.key| + 2, cuts);
    var v1 := values[0];
    assert v1 in values;
    WholeFiled(r, Entry(h.key, v1.bytes));
    var first, rest := [Data(Field, h.key)] + [v1], values[1..];
    assert names + values == first + rest;
    ApplyAllAppend(r, first, rest);
    ValuesNameNothing(h.value, off + |h.key| + 2, cuts, h.key);
    NeverNamedTail(values, h.key);
    Untouched(ApplyAll(r, first), rest, h.key);
  }

  lemma NeverNamedTail(events: seq<Event>, key: string)
    requires NeverNamed(events, key) && events != []
    ensures NeverNamed(events[1..], key)
  {
    assert forall i | 0 <= i < |events[1..]| :: events[1..][i] == events[i + 1];
  }

  lemma NameCutIs(headers: seq<Entry>, off: nat, cuts: set<nat>, i: nat)
    requires i < |headers|
    ensures NameCut(headers, off, cuts, i) == Inside(cuts, LineOff(headers, off, i), |headers[i].key|)
  {
  }

  lemma ValueCutIs(headers: seq<Entry>, off: nat, cuts: set<nat>, i: nat)
    requires i < |headers|
    ensures ValueCut(headers, off, cuts, i) == Inside(cuts, LineOff(headers, off, i) + |headers[i].key| + 2, |headers[i].value|)
  {
  }

  lemma SpanFrom(headers: seq<Entry>, off: nat, cuts: set<nat>, i: nat)
    requires i < |headers|
    ensures LinesPieces(headers, off, cuts) ==
      LinesPieces(headers[..i], off, cuts)
      + (HeaderPieces(headers[i], LineOff(headers, off, i), cuts) + Span(headers, off, i + 1, |headers|, cuts))
  {
    hide HeaderPieces, HeadersText, Span;
    SpanAll(headers, off, i + 1, |headers|, cuts);
    SpanAll(headers, off, i, i + 1, cuts);
    OneSpan(headers, off, cuts, i);
    assert headers[..|headers|] == headers;
    var a, b, c := LinesPieces(headers[..i], off, cuts), Span(headers, off, i, i + 1, cuts), Span(headers, off, i + 1, |headers|, cuts);
    assert a + b + c == a + (b + c);
  }

  lemma OneSpan(headers: seq<Entry>, off: nat, cuts: set<nat>, i: nat)
    requires i < |headers|
    ensures Span(headers, off, i, i + 1, cuts) == HeaderPieces(headers[i], LineOff(headers, off, i), cuts)
  {
    hide HeaderPieces;
    assert Span(headers, off, i, i, cuts) == [];
  }

  /** A first value that is cut. */
  lemma {:induction false} FirstCutValue(headers: seq<Entry>, off: nat, cuts: set<nat>, n: nat) returns (i: nat)
    requires n < |headers| && ValueCut(headers, off, cuts, n)
    ensures i < |headers| && ValueCut(headers, off, cuts, i) && forall j: nat | j < i :: !ValueCut(headers, off, cuts, j)
  {
    hide ValueCut;
    i := n;
    if j: nat :| j < n && ValueCut(headers, off, cuts, j) {
      i := FirstCutValue(headers, off, cuts, j);
    }
  }

  /** The headers come back exactly when none of them is without a value, and no buffer ends
      strictly inside a name or a value. */
  lemma StoredExactly(r: Received, headers: seq<Entry>, off: nat, cuts: set<nat>)
    requires AllNamed(headers) && Distinct(headers) && r.headers == map[] && !r.nameSeen && !r.valueSeen
    ensures ApplyAll(r, LinesPieces(headers, off, cuts)).headers == MapOf(headers)
       <==> AllValued(headers) && !CutInside(headers, off, cuts)
  {
    hide *;
    if !AllValued(headers) {
      ValueMissing(r, headers, off, cuts);
    } else if CutInside(headers, off, cuts) {
      CutNoticed(r, headers, off, cuts);
    } else {
      WholeStored(r, headers, off, cuts);
      KeptAll(headers);
      assert map[] + MapOf(headers) == MapOf(headers);
    }
  }

  lemma ValueMissing(r: Received, headers: seq<Entry>, off: nat, cuts: set<nat>)
    requires Distinct(headers) && !AllValued(headers) && r.headers == map[] && !r.valueSeen
    ensures ApplyAll(r, LinesPieces(headers, off, cuts)).headers != MapOf(headers)
  {
    hide ApplyAll, LinesPieces, MapOf, Distinct;
    var i :| 0 <= i < |headers| && headers[i].value == "";
    MapOfDistinct(headers, i);
    StoredValued(r, LinesPieces(headers, off, cuts));
  }

  lemma CutNoticed(r: Received, headers: seq<Entry>, off: nat, cuts: set<nat>)
    requires AllNamed(headers) && Distinct(headers) && AllValued(headers) && r.headers == map[] && !r.nameSeen && !r.valueSeen
    requires CutInside(headers, off, cuts)
    ensures ApplyAll(r, LinesPieces(headers, off, cuts)).headers != MapOf(headers)
  {
    hide ApplyAll, LinesPieces, MapOf, Distinct, AllNamed, AllValued, NameCut, ValueCut;
    if j: nat :| j < |headers| && NameCut(headers, off, cuts, j) {
      var i := LongestCut(headers, off, cuts, |headers|);
      MapOfDistinct(headers, i);
      CutNameLost(r, headers, off, cuts, i);
    } else {
      var j: nat :| j < |headers| && ValueCut(headers, off, cuts, j);
      var i := FirstCutValue(headers, off, cuts, j);
      MapOfDistinct(headers, i);
      CutValueShort(r, headers, off, cuts, i);
    }
  }
}
