/** http_parser_parse_url: a URL is divided into slices of its buffer. */
module HttpUrls {
  import opened Options
  import opened HttpTypes
  import opened HttpMachine
  import opened HttpLength

  datatype UrlField = Schema | Userinfo | Host | Port | Path | Query | Fragment

  /** Offset and length, each a 16-bit number. */
  datatype Slice = Slice(off: nat, len: nat)

  type Slices = map<UrlField, Slice>

  const TWO16: int := 0x1_0000

  function End(x: Slice): nat { x.off + x.len }

  /** The order of the fields in a URL. */
  function Place(f: UrlField): nat {
    match f
    case Schema => 0
    case Userinfo => 1
    case Host => 2
    case Port => 3
    case Path => 4
    case Query => 5
    case Fragment => 6
  }

  // ---- What the slices are ---------------------------------------------------------------------

  /** A slice that is set is not empty and inside the buffer. */
  predicate Inside(u: Slices, limit: nat) { forall f | f in u :: 0 < u[f].len && End(u[f]) <= limit }

  /** Slices do not overlap, and they come in the order of the fields. */
  predicate Ordered(u: Slices) { forall f, g | f in u && g in u && Place(f) < Place(g) :: End(u[f]) <= u[g].off }

  /** "://" */
  predicate IsSchemaEnd(buf: string, i: nat) { i + 3 <= |buf| && buf[i] == ':' && buf[i + 1] == '/' && buf[i + 2] == '/' }

  /** The delimiters around the slices, as far as the buffer goes. */
  predicate Delimited(u: Slices, buf: string)
    requires Inside(u, |buf|)
  {
    && (Schema in u ==> u[Schema].off == 0 && End(u[Schema]) + 3 <= |buf| && IsSchemaEnd(buf, End(u[Schema])))
    && (Userinfo in u ==> End(u[Userinfo]) < |buf| && buf[End(u[Userinfo])] == '@')
    && (Port in u ==> u[Port].off > 0 && buf[u[Port].off - 1] == ':')
    && (Path in u ==> buf[u[Path].off] == '/' || buf[u[Path].off] == '*')
    && (Query in u ==> u[Query].off > 0 && buf[u[Query].off - 1] == '?')
    && (Fragment in u ==> u[Fragment].off > 0 && buf[u[Fragment].off - 1] == '#')
  }

  predicate AreDigits(s: string) { forall i | 0 <= i < |s| :: IsNum(s[i]) }

  /** The port is the number its digits say. */
  predicate PortRight(u: Slices, buf: string, port: int)
    requires Inside(u, |buf|)
  {
    if Port in u then
      var text := buf[u[Port].off..End(u[Port])];
      AreDigits(text) && port == DecimalValue(text) && port <= 0xFFFF
    else port == 0
  }

  // ---- The states ------------------------------------------------------------------------------

  /** The field that a state's byte belongs to; the others are delimiters. */
  function FieldOf(s: State): Option<UrlField> {
    match s
    case ReqSchema => Some(Schema)
    case ReqServerWithAt => Some(Host)
    case ReqServer => Some(Host)
    case ReqPath => Some(Path)
    case ReqQueryString => Some(Query)
    case ReqFragment => Some(Fragment)
    case _ => None
  }

  /** How far a URL has been read. */
  function Stage(s: State): nat {
    match s
    case ReqSpacesBeforeUrl => 0
    case ReqSchema => 1
    case ReqSchemaSlash => 2
    case ReqSchemaSlashSlash => 3
    case ReqServerStart => 4
    case ReqServer => 5
    case ReqServerWithAt => 5
    case ReqPath => 6
    case ReqQueryStringStart => 7
    case ReqQueryString => 8
    case ReqFragmentStart => 9
    case ReqFragment => 10
    case _ => 11
  }

  function FieldStage(f: UrlField): nat {
    match f
    case Schema => 1
    case Host => 5
    case Path => 6
    case Query => 8
    case Fragment => 10
    case _ => 11
  }

  /** A URL is read from left to right: a byte leads on, or it stays in its field. */
  lemma StageGrows(s: State, ch: char)
    requires s.ReqSpacesBeforeUrl? || IsUrlState(s)
    ensures var s' := ParseUrlChar(s, ch);
      s'.Dead? || (IsUrlState(s') && Stage(s) <= Stage(s') && (Stage(s) == Stage(s') ==> FieldOf(s) == FieldOf(s')))
  {
  }

  /** What the byte before `p` was, by the state it led to. */
  predicate Behind(s: State, buf: string, u: Slices, p: nat)
    requires p <= |buf|
  {
    match s
    case ReqSpacesBeforeUrl => p == 0
    case ReqSchema => Schema in u && u[Schema].off == 0 && End(u[Schema]) == p
    case ReqSchemaSlash => Schema in u && u[Schema].off == 0 && End(u[Schema]) + 1 == p && buf[p - 1] == ':'
    case ReqSchemaSlashSlash =>
      Schema in u && u[Schema].off == 0 && End(u[Schema]) + 2 == p && buf[p - 2] == ':' && buf[p - 1] == '/'
    case ReqServerStart => Schema !in u ==> p == 0
    case ReqQueryStringStart => p > 0 && buf[p - 1] == '?'
    case ReqFragmentStart => p > 0 && buf[p - 1] == '#'
    case _ => true
  }

  /** The slices found in the first `p` bytes. */
  ghost predicate Found(s: State, oldUf: Option<UrlField>, buf: string, u: Slices, p: nat) {
    && p <= |buf| && (s.ReqSpacesBeforeUrl? || IsUrlState(s))
    && Inside(u, p) && Ordered(u)
    && (forall f | f in u :: FieldStage(f) <= Stage(s) && f != Userinfo && f != Port)
    && (oldUf.Some? ==> oldUf.value in u)
    && (FieldOf(s).Some? ==> oldUf == FieldOf(s) && End(u[oldUf.value]) == p)
    && Behind(s, buf, u, p)
    && FoundMarks(s, buf, u, p)
  }

  /** The delimiters of the slices, as far as they have been passed. */
  predicate FoundMarks(s: State, buf: string, u: Slices, p: nat)
    requires p <= |buf| && Inside(u, p)
  {
    && (Schema in u && Stage(s) >= 4 ==> u[Schema].off == 0 && End(u[Schema]) + 3 <= p && IsSchemaEnd(buf, End(u[Schema])))
    && (Schema in u && Host in u ==> End(u[Schema]) + 3 <= u[Host].off)
    && (Host in u && Stage(s) > 5 ==> End(u[Host]) < p && (buf[End(u[Host])] == '/' || buf[End(u[Host])] == '?'))
    && (Path in u ==> buf[u[Path].off] == '/' || buf[u[Path].off] == '*')
    && (Query in u ==> u[Query].off > 0 && buf[u[Query].off - 1] == '?')
    && (Fragment in u ==> u[Fragment].off > 0 && buf[u[Fragment].off - 1] == '#')
  }

  // ---- One byte of the URL -----------------------------------------------------------------------

  /** The slices after the byte at `p`, which led to state `s`. */
  function Taken(u: Slices, oldUf: Option<UrlField>, s: State, p: nat): Slices {
    match FieldOf(s)
    case None => u
    case Some(uf) => if oldUf == Some(uf) && uf in u then u[uf := Slice(u[uf].off, u[uf].len + 1)] else u[uf := Slice(p, 1)]
  }

  function OldUfAfter(oldUf: Option<UrlField>, s: State): Option<UrlField> { if FieldOf(s).Some? then FieldOf(s) else oldUf }

  /** How the byte at `p` changes the slices: one grows or begins, or none does. */
  ghost predicate Grown(u: Slices, u': Slices, s: State, s': State, p: nat) {
    && SameBut(u, u', FieldOf(s'))
    && (FieldOf(s').Some? ==>
          var f := FieldOf(s').value;
          && f in u' && End(u'[f]) == p + 1
          && if Stage(s) == Stage(s') then f in u && u'[f].off == u[f].off else f !in u && u'[f].off == p)
  }

  ghost predicate SameBut(u: Slices, u': Slices, changed: Option<UrlField>) {
    forall f | changed != Some(f) :: (f in u' <==> f in u) && (f in u ==> u'[f] == u[f])
  }

  /** No field beyond the stage, and none that the first loop does not know. */
  predicate AreEarly(u: Slices, stage: nat) { forall f | f in u :: FieldStage(f) <= stage && f != Userinfo && f != Port }

  lemma FoundGrown(s: State, oldUf: Option<UrlField>, buf: string, u: Slices, p: nat, s': State)
    requires Found(s, oldUf, buf, u, p) && IsUrlState(s') && Stage(s) <= Stage(s')
    requires Stage(s) == Stage(s') ==> FieldOf(s) == FieldOf(s')
    ensures var u' := Taken(u, oldUf, s', p);
      Grown(u, u', s, s', p) && Inside(u', p + 1) && Ordered(u') && AreEarly(u', Stage(s'))
    ensures OldUfAfter(oldUf, s').Some? ==> OldUfAfter(oldUf, s').value in Taken(u, oldUf, s', p)
  {
    hide Behind, FoundMarks, Ordered, Stage, Inside, FieldStage, Grown, AreEarly;
    FieldStages(s');
    FoundEarly(s, oldUf, buf, u, p);
    if FieldOf(s').None? {
      NoField(u, s, s', p);
    } else if Stage(s) == Stage(s') {
      SameField(u, s, s', p);
    } else {
      NextField(u, s, s', p);
    }
  }

  lemma FoundEarly(s: State, oldUf: Option<UrlField>, buf: string, u: Slices, p: nat)
    requires Found(s, oldUf, buf, u, p)
    ensures AreEarly(u, Stage(s))
  {
    hide Behind, FoundMarks, Ordered, Inside;
  }

  lemma NoField(u: Slices, s: State, s': State, p: nat)
    requires Inside(u, p) && AreEarly(u, Stage(s)) && Stage(s) <= Stage(s') && FieldOf(s').None?
    ensures Grown(u, u, s, s', p) && Inside(u, p + 1) && AreEarly(u, Stage(s'))
  {
    hide Stage, FieldStage;
  }

  lemma SameField(u: Slices, s: State, s': State, p: nat)
    requires Inside(u, p) && Ordered(u) && AreEarly(u, Stage(s)) && Stage(s) == Stage(s') && FieldOf(s').Some?
    requires FieldOf(s').value in u && End(u[FieldOf(s').value]) == p
    ensures var uf := FieldOf(s').value; var u' := u[uf := Slice(u[uf].off, u[uf].len + 1)];
      Grown(u, u', s, s', p) && Inside(u', p + 1) && Ordered(u') && AreEarly(u', Stage(s'))
  {
    hide Ordered, Stage, FieldStage, Inside, FieldOf;
    FieldStages(s');
    Extended(u, FieldOf(s').value, p, Stage(s'));
  }

  lemma NextField(u: Slices, s: State, s': State, p: nat)
    requires Inside(u, p) && Ordered(u) && AreEarly(u, Stage(s)) && Stage(s) < Stage(s') && FieldOf(s').Some?
    ensures FieldOf(s').value !in u
    ensures var u' := u[FieldOf(s').value := Slice(p, 1)];
      Grown(u, u', s, s', p) && Inside(u', p + 1) && Ordered(u') && AreEarly(u', Stage(s'))
  {
    hide Ordered, Stage, FieldStage, Inside, FieldOf, Grown, AreEarly;
    FieldStages(s');
    Begun(u, FieldOf(s').value, p, Stage(s));
    NextGrown(u, s, s', p);
    NextEarly(u, FieldOf(s').value, p, Stage(s), Stage(s'));
  }

  lemma NextGrown(u: Slices, s: State, s': State, p: nat)
    requires Stage(s) < Stage(s') && FieldOf(s').Some? && FieldOf(s').value !in u
    ensures Grown(u, u[FieldOf(s').value := Slice(p, 1)], s, s', p)
  {
    hide Stage, FieldOf;
  }

  lemma NextEarly(u: Slices, uf: UrlField, p: nat, stage: nat, stage': nat)
    requires AreEarly(u, stage) && stage <= stage' && FieldStage(uf) == stage' && uf != Userinfo && uf != Port
    ensures AreEarly(u[uf := Slice(p, 1)], stage')
  {
    hide FieldStage;
  }

  /** The field of the last byte gets one more byte. */
  lemma Extended(u: Slices, uf: UrlField, p: nat, stage: nat)
    requires Inside(u, p) && Ordered(u) && uf in u && End(u[uf]) == p && FieldStage(uf) == stage && AreEarly(u, stage)
    ensures var u' := u[uf := Slice(u[uf].off, u[uf].len + 1)]; Inside(u', p + 1) && Ordered(u')
  {
    hide FieldStage, Place;
    var u' := u[uf := Slice(u[uf].off, u[uf].len + 1)];
    forall f, g | f in u' && g in u' && Place(f) < Place(g)
      ensures End(u'[f]) <= u'[g].off
    {
      StagesOrdered(f, g);
    }
  }

  /** A field that was not there begins. */
  lemma Begun(u: Slices, uf: UrlField, p: nat, stage: nat)
    requires Inside(u, p) && Ordered(u) && FieldStage(uf) > stage && uf != Userinfo && uf != Port && AreEarly(u, stage)
    ensures uf !in u
    ensures var u' := u[uf := Slice(p, 1)]; Inside(u', p + 1) && Ordered(u')
  {
    hide FieldStage, Place;
    var u' := u[uf := Slice(p, 1)];
    forall f, g | f in u' && g in u' && Place(f) < Place(g)
      ensures End(u'[f]) <= u'[g].off
    {
      StagesOrdered(f, g);
    }
  }

  lemma FieldStages(s: State)
    ensures FieldOf(s).Some? ==> FieldStage(FieldOf(s).value) == Stage(s) && FieldOf(s).value != Userinfo && FieldOf(s).value != Port
  {
  }

  /** The order of the stages is that of the fields. */
  lemma StagesOrdered(f: UrlField, g: UrlField)
    requires f != Userinfo && f != Port && g != Userinfo && g != Port
    ensures FieldStage(f) < FieldStage(g) <==> Place(f) < Place(g)
    ensures FieldStage(f) == FieldStage(g) ==> f == g
  {
  }

  // The delimiters that a byte leaves behind it.

  /** Where the delimiters lead. */
  lemma DelimiterSteps(s: State, ch: char)
    requires s.ReqSpacesBeforeUrl? || IsUrlState(s)
    ensures var s' := ParseUrlChar(s, ch);
      && (s'.ReqSchema? ==> s.ReqSpacesBeforeUrl? || s.ReqSchema?)
      && (s'.ReqSchemaSlash? ==> s.ReqSchema? && ch == ':')
      && (s'.ReqSchemaSlashSlash? ==> s.ReqSchemaSlash? && ch == '/')
      && (s'.ReqServerStart? ==> s.ReqSchemaSlashSlash? && ch == '/')
      && (s'.ReqPath? && !s.ReqPath? ==> ch == '/' || ch == '*')
      && (s'.ReqQueryStringStart? ==> ch == '?')
      && (s'.ReqQueryString? && !s.ReqQueryString? ==> s.ReqQueryStringStart?)
      && (s'.ReqFragmentStart? ==> ch == '#')
      && (s'.ReqFragment? && !s.ReqFragment? ==> s.ReqFragmentStart?)
      && ((s.ReqServer? || s.ReqServerWithAt?) && Stage(s') > 5 && !s'.Dead? ==> ch == '/' || ch == '?')
      && (Stage(s) < 4 && Stage(s') >= 4 && !s'.Dead? ==> s.ReqSpacesBeforeUrl? || s.ReqSchemaSlashSlash?)
      && (s.ReqSpacesBeforeUrl? && !s'.Dead? ==> s'.ReqSchema? || s'.ReqPath?)
      && (Stage(s) < 4 && !s'.Dead? ==> FieldOf(s') != Some(Host))
      && (s.ReqSchemaSlashSlash? && !s'.Dead? ==> s'.ReqServerStart?)
  {
  }

  lemma TakenBehind(s: State, buf: string, u: Slices, u': Slices, p: nat, s': State)
    requires p < |buf| && s' == ParseUrlChar(s, buf[p]) && !s'.Dead? && (s.ReqSpacesBeforeUrl? || IsUrlState(s))
    requires Behind(s, buf, u, p) && Grown(u, u', s, s', p) && (s.ReqSpacesBeforeUrl? ==> Schema !in u)
    ensures Behind(s', buf, u', p + 1)
  {
    hide ParseUrlChar, Grown;
    DelimiterSteps(s, buf[p]);
    StageGrows(s, buf[p]);
    GrownSchema(u, u', s, s', p);
  }

  lemma GrownSchema(u: Slices, u': Slices, s: State, s': State, p: nat)
    requires Grown(u, u', s, s', p)
    ensures !s'.ReqSchema? ==> (Schema in u' <==> Schema in u) && (Schema in u ==> u'[Schema] == u[Schema])
    ensures s'.ReqSchema? ==> Schema in u' && End(u'[Schema]) == p + 1
    ensures s'.ReqSchema? && s.ReqSchema? ==> Schema in u && u'[Schema].off == u[Schema].off
    ensures s'.ReqSchema? && s.ReqSpacesBeforeUrl? ==> u'[Schema].off == p
  {
  }

  predicate SchemaMark(s: State, buf: string, u: Slices, p: nat)
    requires p <= |buf|
  {
    && (Schema in u && Stage(s) >= 4 ==> u[Schema].off == 0 && End(u[Schema]) + 3 <= p && IsSchemaEnd(buf, End(u[Schema])))
    && (Schema in u && Host in u ==> End(u[Schema]) + 3 <= u[Host].off)
  }

  lemma TakenSchemaMark(s: State, buf: string, u: Slices, u': Slices, p: nat, s': State)
    requires p < |buf| && s' == ParseUrlChar(s, buf[p]) && !s'.Dead? && (s.ReqSpacesBeforeUrl? || IsUrlState(s))
    requires Behind(s, buf, u, p) && SchemaMark(s, buf, u, p) && Grown(u, u', s, s', p) && AreEarly(u, Stage(s)) && Stage(s) <= Stage(s')
    requires s.ReqSpacesBeforeUrl? ==> Schema !in u
    ensures SchemaMark(s', buf, u', p + 1)
  {
    hide ParseUrlChar;
    DelimiterSteps(s, buf[p]);
    assert Stage(s) < 4 ==> Host !in u;
    if Stage(s) >= 4 {
      LaterSchemaMark(s, buf, u, u', p, s');
    } else {
      EarlySchemaMark(s, buf, u, u', p, s');
    }
  }

  lemma EarlySchemaMark(s: State, buf: string, u: Slices, u': Slices, p: nat, s': State)
    requires p < |buf| && Behind(s, buf, u, p) && Grown(u, u', s, s', p) && Host !in u && Stage(s) < 4
    requires s.ReqSpacesBeforeUrl? ==> Schema !in u && (s'.ReqSchema? || s'.ReqPath?)
    requires Stage(s') >= 4 ==> s.ReqSpacesBeforeUrl? || (s.ReqSchemaSlashSlash? && buf[p] == '/' && s'.ReqServerStart?)
    requires FieldOf(s') != Some(Host)
    ensures SchemaMark(s', buf, u', p + 1)
  {
    hide Grown, Behind;
    GrownSchema(u, u', s, s', p);
    GrownHost(u, u', s, s', p);
    if s.ReqSchemaSlashSlash? {
      BehindSlashes(s, buf, u, p);
    }
  }

  lemma BehindSlashes(s: State, buf: string, u: Slices, p: nat)
    requires p <= |buf| && Behind(s, buf, u, p) && s.ReqSchemaSlashSlash?
    ensures Schema in u && u[Schema].off == 0 && End(u[Schema]) + 2 == p && buf[p - 2] == ':' && buf[p - 1] == '/'
  {
  }

  lemma GrownHost(u: Slices, u': Slices, s: State, s': State, p: nat)
    requires Grown(u, u', s, s', p) && FieldOf(s') != Some(Host)
    ensures Host in u' <==> Host in u
  {
  }

  lemma LaterSchemaMark(s: State, buf: string, u: Slices, u': Slices, p: nat, s': State)
    requires p < |buf| && SchemaMark(s, buf, u, p) && Grown(u, u', s, s', p) && 4 <= Stage(s) <= Stage(s')
    ensures SchemaMark(s', buf, u', p + 1)
  {
    hide Stage;
    assert FieldOf(s') != Some(Schema) by { FieldStages(s'); }
  }

  predicate HostMark(s: State, buf: string, u: Slices, p: nat)
    requires p <= |buf|
  {
    Host in u && Stage(s) > 5 ==> End(u[Host]) < p && (buf[End(u[Host])] == '/' || buf[End(u[Host])] == '?')
  }

  lemma TakenHostMark(s: State, buf: string, u: Slices, u': Slices, p: nat, s': State)
    requires p < |buf| && s' == ParseUrlChar(s, buf[p]) && !s'.Dead? && (s.ReqSpacesBeforeUrl? || IsUrlState(s))
    requires HostMark(s, buf, u, p) && Grown(u, u', s, s', p) && AreEarly(u, Stage(s)) && Stage(s) <= Stage(s')
    requires FieldOf(s) == Some(Host) ==> Host in u && End(u[Host]) == p
    ensures HostMark(s', buf, u', p + 1)
  {
    hide ParseUrlChar;
    DelimiterSteps(s, buf[p]);
    FieldStages(s');
  }

  predicate RestMarks(buf: string, u: Slices, p: nat)
    requires p <= |buf|
  {
    && (Path in u ==> u[Path].off < p && (buf[u[Path].off] == '/' || buf[u[Path].off] == '*'))
    && (Query in u ==> 0 < u[Query].off < p && buf[u[Query].off - 1] == '?')
    && (Fragment in u ==> 0 < u[Fragment].off < p && buf[u[Fragment].off - 1] == '#')
  }

  lemma TakenRestMarks(s: State, buf: string, u: Slices, u': Slices, p: nat, s': State)
    requires p < |buf| && s' == ParseUrlChar(s, buf[p]) && !s'.Dead? && (s.ReqSpacesBeforeUrl? || IsUrlState(s))
    requires Behind(s, buf, u, p) && RestMarks(buf, u, p) && Grown(u, u', s, s', p) && Stage(s) <= Stage(s')
    ensures RestMarks(buf, u', p + 1)
  {
    hide ParseUrlChar;
    DelimiterSteps(s, buf[p]);
  }

  lemma MarksFound(s: State, buf: string, u: Slices, p: nat)
    requires p <= |buf| && Inside(u, p)
    ensures FoundMarks(s, buf, u, p) <==> SchemaMark(s, buf, u, p) && HostMark(s, buf, u, p) && RestMarks(buf, u, p)
  {
    hide Stage;
  }

  lemma FoundFacts(s: State, oldUf: Option<UrlField>, buf: string, u: Slices, p: nat)
    requires Found(s, oldUf, buf, u, p)
    ensures AreEarly(u, Stage(s)) && Behind(s, buf, u, p) && (s.ReqSpacesBeforeUrl? ==> Schema !in u)
    ensures SchemaMark(s, buf, u, p) && HostMark(s, buf, u, p) && RestMarks(buf, u, p)
    ensures FieldOf(s) == Some(Host) ==> Host in u && End(u[Host]) == p
  {
    hide Ordered, FoundMarks, Behind, SchemaMark, HostMark, RestMarks;
    MarksFound(s, buf, u, p);
  }

  /** Each byte keeps the slices right. */
  lemma TakenFound(s: State, oldUf: Option<UrlField>, buf: string, u: Slices, p: nat)
    requires Found(s, oldUf, buf, u, p) && p < |buf| && !ParseUrlChar(s, buf[p]).Dead?
    ensures var s' := ParseUrlChar(s, buf[p]);
      Found(s', OldUfAfter(oldUf, s'), buf, Taken(u, oldUf, s', p), p + 1)
  {
    hide ParseUrlChar, Behind, Ordered, Taken, FoundMarks, SchemaMark, HostMark, RestMarks, Inside, Stage, FieldStage;
    var s' := ParseUrlChar(s, buf[p]);
    var u' := Taken(u, oldUf, s', p);
    StageGrows(s, buf[p]);
    FoundGrown(s, oldUf, buf, u, p, s');
    FoundFacts(s, oldUf, buf, u, p);
    TakenBehind(s, buf, u, u', p, s');
    TakenSchemaMark(s, buf, u, u', p, s');
    TakenHostMark(s, buf, u, u', p, s');
    TakenRestMarks(s, buf, u, u', p, s');
    MarksFound(s', buf, u', p + 1);
  }

  // ---- The host ------------------------------------------------------------------------------------

  datatype HostState =
    | HostDead | UserinfoStart | InUserinfo | HostStart | V6Start | InHost | InV6 | V6End | V6ZoneStart | V6Zone
    | PortStart | InPort

  predicate IsHex(c: char) { IsNum(c) || 'a' <= c <= 'f' || 'A' <= c <= 'F' }

  predicate IsHostChar(c: char) { IsAlphaNum(c) || c == '.' || c == '-' }

  predicate IsZoneChar(c: char) { IsAlphaNum(c) || c == '%' || c == '.' || c == '-' || c == '_' || c == '~' }

  function ParseHostChar(s: HostState, ch: char): HostState {
    match s
    case UserinfoStart => if ch == '@' then HostStart else if IsUserinfoChar(ch) then InUserinfo else HostDead
    case InUserinfo => if ch == '@' then HostStart else if IsUserinfoChar(ch) then InUserinfo else HostDead
    case HostStart => if ch == '[' then V6Start else if IsHostChar(ch) then InHost else HostDead
    case InHost => if IsHostChar(ch) then InHost else if ch == ':' then PortStart else HostDead
    case V6End => if ch == ':' then PortStart else HostDead
    case InV6 => if ch == ']' then V6End else if IsHex(ch) || ch == ':' || ch == '.' then InV6
                 else if ch == '%' then V6ZoneStart else HostDead
    case V6Start => if IsHex(ch) || ch == ':' || ch == '.' then InV6 else HostDead
    case V6Zone => if ch == ']' then V6End else if IsZoneChar(ch) then V6Zone else HostDead
    case V6ZoneStart => if IsZoneChar(ch) then V6Zone else HostDead
    case InPort => if IsNum(ch) then InPort else HostDead
    case PortStart => if IsNum(ch) then InPort else HostDead
    case HostDead => HostDead
  }

  /** The states whose byte belongs to the host itself. */
  predicate InsideHost(s: HostState) { s.InHost? || s.InV6? || s.V6ZoneStart? || s.V6Zone? }

  predicate BeforeHost(s: HostState) { s.UserinfoStart? || s.InUserinfo? || s.HostStart? || s.V6Start? }

  /** The slices after the byte at `p`, which led from state `s` to `s'`. */
  function HostTaken(u: Slices, s: HostState, s': HostState, p: nat): Slices
    requires Host in u
  {
    var h := u[Host];
    if s'.InHost? then u[Host := Slice(if s.InHost? then h.off else p, h.len + 1)]
    else if s'.InV6? then u[Host := Slice(if s.InV6? then h.off else p, h.len + 1)]
    else if s'.V6ZoneStart? || s'.V6Zone? then u[Host := Slice(h.off, h.len + 1)]
    else if s'.InPort? then u[Port := if s.InPort? && Port in u then Slice(u[Port].off, u[Port].len + 1) else Slice(p, 1)]
    else if s'.InUserinfo? then u[Userinfo := if s.InUserinfo? && Userinfo in u then Slice(u[Userinfo].off, u[Userinfo].len + 1) else Slice(p, 1)]
    else u
  }

  /** The parts found in the first bytes of the host's slice, from `a` to `p`. */
  ghost predicate HostFound(s: HostState, buf: string, u: Slices, a: nat, p: nat) {
    && a <= p <= |buf| && Host in u && !s.HostDead?
    && (s.UserinfoStart? ==> p == a && Userinfo !in u)
    && (s.InUserinfo? ==> Userinfo in u)
    && (Userinfo in u ==>
          && a <= u[Userinfo].off && u[Userinfo].len > 0
          && (if s.InUserinfo? then End(u[Userinfo]) == p else End(u[Userinfo]) < p && buf[End(u[Userinfo])] == '@'))
    && (if BeforeHost(s) then u[Host].len == 0
        else a <= u[Host].off && u[Host].len > 0 && (if InsideHost(s) then End(u[Host]) == p else End(u[Host]) < p)
             && (Userinfo in u ==> End(u[Userinfo]) < u[Host].off))
    && (s.PortStart? ==> p > a && buf[p - 1] == ':')
    && (Port in u <==> s.InPort?)
    && (s.InPort? ==>
          && u[Port].len > 0 && u[Port].off > 0 && End(u[Port]) == p && End(u[Host]) < u[Port].off
          && buf[u[Port].off - 1] == ':' && AreDigits(buf[u[Port].off..p]))
  }

  lemma HostTakenFound(s: HostState, buf: string, u: Slices, a: nat, p: nat)
    requires HostFound(s, buf, u, a, p) && p < |buf| && !ParseHostChar(s, buf[p]).HostDead?
    ensures var s' := ParseHostChar(s, buf[p]); HostFound(s', buf, HostTaken(u, s, s', p), a, p + 1)
  {
    hide IsHostChar, IsZoneChar, IsHex, IsUserinfoChar;
    var s' := ParseHostChar(s, buf[p]);
    if s.InPort? {
      assert buf[u[Port].off..p + 1] == buf[u[Port].off..p] + [buf[p]];
    } else if s'.InPort? {
      assert buf[p..p + 1] == [buf[p]];
    }
  }

  lemma HostTakenOthers(s: HostState, u: Slices, s': HostState, p: nat)
    requires Host in u
    ensures var u' := HostTaken(u, s, s', p);
      && Host in u'
      && forall f | f != Host && f != Port && f != Userinfo :: (f in u' <==> f in u) && (f in u ==> u'[f] == u[f])
  {
  }

  // ---- The whole URL -------------------------------------------------------------------------------

  datatype Split = Split(state: State, oldUf: Option<UrlField>, foundAt: bool, slices: Slices)

  /** The first loop, over the bytes of `buf`. */
  function SplitUrl(start: State, buf: string): Split {
    if buf == "" then Split(start, None, false, map[])
    else
      var n := |buf| - 1;
      var x := SplitUrl(start, buf[..n]);
      if x.state.Dead? then x
      else
        var s := ParseUrlChar(x.state, buf[n]);
        if s.Dead? then x.(state := Dead)
        else Split(s, OldUfAfter(x.oldUf, s), x.foundAt || s.ReqServerWithAt?, Taken(x.slices, x.oldUf, s, n))
  }

  /** The second loop, over the bytes of the host's slice up to `p`. */
  function SplitHost(start: HostState, buf: string, u: Slices, a: nat, p: nat): (r: (HostState, Slices))
    requires Host in u && p <= |buf|
    ensures Host in r.1
    decreases p
  {
    if p <= a then (start, u[Host := Slice(a, 0)])
    else
      var (s, u') := SplitHost(start, buf, u, a, p - 1);
      var s' := ParseHostChar(s, buf[p - 1]);
      if s'.HostDead? then (HostDead, u') else HostTakenHost(s, u', s', p - 1)
  }

  function HostTakenHost(s: HostState, u: Slices, s': HostState, p: nat): (r: (HostState, Slices))
    requires Host in u
    ensures Host in r.1
  {
    HostTakenOthers(s, u, s', p);
    (s', HostTaken(u, s, s', p))
  }

  function HostStartState(foundAt: bool): HostState { if foundAt then UserinfoStart else HostStart }

  predicate HostEnds(s: HostState) { s.InHost? || s.V6End? || s.InPort? }

  /** strtoul on a terminated buffer: the digits from `from` on, as many as there are. */
  function DigitsFrom(buf: string, from: nat): (text: string)
    requires from <= |buf|
    ensures AreDigits(text) && from + |text| <= |buf| && text == buf[from..from + |text|]
    ensures from + |text| < |buf| ==> !IsNum(buf[from + |text|])
    decreases |buf| - from
  {
    if from == |buf| || !IsNum(buf[from]) then ""
    else
      var rest := DigitsFrom(buf, from + 1);
      assert buf[from..from + 1 + |rest|] == [buf[from]] + rest;
      [buf[from]] + rest
  }

  function UrlStart(isConnect: bool): State { if isConnect then ReqServerStart else ReqSpacesBeforeUrl }

  /** The slices, the host divided; none when the URL or the host is malformed. */
  function UrlSlices(buf: string, isConnect: bool): Option<Slices> {
    var x := SplitUrl(UrlStart(isConnect), buf);
    var u := x.slices;
    if x.state.Dead? || (Schema in u && Host !in u) then None
    else if Host !in u then (if isConnect then None else Some(u))
    else if End(u[Host]) > |buf| then None
    else
      var (s, v) := SplitHost(HostStartState(x.foundAt), buf, u, u[Host].off, End(u[Host]));
      if !HostEnds(s) || (isConnect && v.Keys != {Host, Port}) then None else Some(v)
  }

  /** http_parser_parse_url: the slices and the port. */
  function ParsedUrl(buf: string, isConnect: bool): Option<(Slices, int)> {
    match UrlSlices(buf, isConnect)
    case None => None
    case Some(u) =>
      if Port !in u then Some((u, 0))
      else if u[Port].off > |buf| then None
      else
        var v := DecimalValue(DigitsFrom(buf, u[Port].off));
        if v > 0xFFFF then None else Some((u, v))
  }

  lemma {:induction false} SplitUrlFound(start: State, buf: string, all: string, p: nat)
    requires (start.ReqSpacesBeforeUrl? || start.ReqServerStart?) && p <= |all| && buf == all[..p]
    ensures var x := SplitUrl(start, buf);
      x.state.Dead? || Found(x.state, x.oldUf, all, x.slices, p)
    decreases p
  {
    hide ParseUrlChar, Taken, Stage, FieldStage;
    if p > 0 {
      assert buf[..p - 1] == all[..p - 1];
      SplitUrlFound(start, all[..p - 1], all, p - 1);
      var x := SplitUrl(start, all[..p - 1]);
      if !x.state.Dead? && !ParseUrlChar(x.state, all[p - 1]).Dead? {
        TakenFound(x.state, x.oldUf, all, x.slices, p - 1);
      }
    }
  }

  lemma {:induction false} SplitHostFound(start: HostState, buf: string, u: Slices, a: nat, p: nat)
    requires Host in u && Userinfo !in u && Port !in u && a <= p <= |buf| && (start.UserinfoStart? || start.HostStart?)
    ensures var (s, v) := SplitHost(start, buf, u, a, p);
      && (s.HostDead? || HostFound(s, buf, v, a, p))
      && forall f | f != Host && f != Port && f != Userinfo :: (f in v <==> f in u) && (f in u ==> v[f] == u[f])
    decreases p
  {
    hide ParseHostChar, HostTaken;
    if p > a {
      SplitHostFound(start, buf, u, a, p - 1);
      var (s, v) := SplitHost(start, buf, u, a, p - 1);
      var s' := ParseHostChar(s, buf[p - 1]);
      if !s'.HostDead? {
        HostTakenOthers(s, v, s', p - 1);
        if s.HostDead? {
          DeadStays(buf[p - 1]);
        } else {
          HostTakenFound(s, buf, v, a, p - 1);
        }
      }
    }
  }

  lemma DeadStays(ch: char)
    ensures ParseHostChar(HostDead, ch).HostDead?
  {
  }

  /** The slices without the host's parts are right. */
  lemma FoundRight(s: State, oldUf: Option<UrlField>, buf: string, u: Slices)
    requires Found(s, oldUf, buf, u, |buf|) && (Schema in u ==> Host in u)
    ensures Inside(u, |buf|) && Ordered(u) && Delimited(u, buf) && Userinfo !in u && Port !in u
    ensures Host in u ==> End(u[Host]) <= |buf| && (End(u[Host]) < |buf| ==> buf[End(u[Host])] == '/' || buf[End(u[Host])] == '?')
    ensures Schema in u ==> End(u[Schema]) + 3 <= u[Host].off
  {
    hide Ordered, Behind, FoundMarks, Found, Stage;
    FoundFacts(s, oldUf, buf, u, |buf|);
    FoundPlaces(s, oldUf, buf, u, |buf|);
    HostStage(s, u);
  }

  lemma FoundPlaces(s: State, oldUf: Option<UrlField>, buf: string, u: Slices, p: nat)
    requires Found(s, oldUf, buf, u, p)
    ensures p <= |buf| && Inside(u, p) && Ordered(u) && (s.ReqSpacesBeforeUrl? || IsUrlState(s))
  {
    hide Ordered, Behind, FoundMarks;
  }

  lemma HostStage(s: State, u: Slices)
    requires AreEarly(u, Stage(s)) && (s.ReqSpacesBeforeUrl? || IsUrlState(s))
    ensures Host in u ==> Stage(s) > 5 || FieldOf(s) == Some(Host)
    ensures Host in u ==> Stage(s) >= 4
    ensures Userinfo !in u && Port !in u
  {
  }

  predicate SameOthers(u: Slices, v: Slices) {
    forall f | f != Host && f != Port && f != Userinfo :: (f in v <==> f in u) && (f in u ==> v[f] == u[f])
  }

  /** The parts of the host lie between `a` and `b`, in their order. */
  predicate PartsBetween(v: Slices, a: nat, b: nat) {
    && Host in v && a <= v[Host].off && v[Host].len > 0 && End(v[Host]) <= b
    && (Userinfo in v ==> a <= v[Userinfo].off && v[Userinfo].len > 0 && End(v[Userinfo]) <= v[Host].off)
    && (Port in v ==> End(v[Host]) <= v[Port].off && v[Port].len > 0 && End(v[Port]) <= b)
  }

  lemma HostParts(hs: HostState, buf: string, v: Slices, a: nat, b: nat)
    requires HostEnds(hs) && HostFound(hs, buf, v, a, b)
    ensures PartsBetween(v, a, b)
  {
  }

  /** Dividing the host keeps everything in its place. */
  lemma DividedOrdered(u: Slices, v: Slices, limit: nat)
    requires Host in u && Inside(u, limit) && Ordered(u) && Userinfo !in u && Port !in u && SameOthers(u, v)
    requires PartsBetween(v, u[Host].off, End(u[Host]))
    ensures Inside(v, limit) && Ordered(v)
  {
    forall f, g | f in v && g in v && Place(f) < Place(g)
      ensures End(v[f]) <= v[g].off
    {
      OrderedPair(u, v, f, g);
    }
  }

  lemma OrderedPair(u: Slices, v: Slices, f: UrlField, g: UrlField)
    requires Host in u && Ordered(u) && SameOthers(u, v) && PartsBetween(v, u[Host].off, End(u[Host]))
    requires f in v && g in v && Place(f) < Place(g)
    ensures End(v[f]) <= v[g].off
  {
    if f == Schema {
      assert Place(Schema) < Place(Host);
    } else if g in {Path, Query, Fragment} {
      assert Place(Host) < Place(g);
    }
  }

  lemma DividedDelimited(buf: string, u: Slices, hs: HostState, v: Slices)
    requires Host in u && Inside(u, |buf|) && Delimited(u, buf) && Userinfo !in u && Port !in u && SameOthers(u, v)
    requires HostEnds(hs) && HostFound(hs, buf, v, u[Host].off, End(u[Host])) && Inside(v, |buf|)
    ensures Delimited(v, buf)
  {
  }

  lemma {:induction false} DigitsAre(buf: string, from: nat, to: nat)
    requires from <= to <= |buf| && AreDigits(buf[from..to]) && (to < |buf| ==> !IsNum(buf[to]))
    ensures DigitsFrom(buf, from) == buf[from..to]
  {
    var text := DigitsFrom(buf, from);
    assert forall i | 0 <= i < to - from :: buf[from + i] == buf[from..to][i] && IsNum(buf[from + i]);
    assert forall i | 0 <= i < |text| :: text[i] == buf[from + i] && IsNum(text[i]);
    assert !(from + |text| < to);
    assert !(from + |text| > to) by { NotLonger(buf, from, to, text); }
  }

  lemma NotLonger(buf: string, from: nat, to: nat, text: string)
    requires from <= to <= |buf| && from + |text| <= |buf| && AreDigits(text) && text == buf[from..from + |text|]
    requires to < |buf| ==> !IsNum(buf[to])
    ensures from + |text| <= to
  {
    assert forall i | 0 <= i < |text| :: text[i] == buf[from + i];
  }

  /** A URL that is accepted is divided into slices that are not empty, lie inside the buffer, do not
      overlap and come in the order of the fields, between their delimiters; the port is the number
      its digits say.  With a schema there is a host, and after CONNECT a host and a port only. */
  lemma UrlRight(buf: string, isConnect: bool)
    requires ParsedUrl(buf, isConnect).Some?
    ensures var (u, port) := ParsedUrl(buf, isConnect).value;
      && Inside(u, |buf|) && Ordered(u) && Delimited(u, buf) && PortRight(u, buf, port)
      && (Schema in u ==> Host in u) && (isConnect ==> u.Keys == {Host, Port})
  {
    hide SplitUrl, SplitHost, Ordered, Delimited, Found, HostFound, DigitsFrom, DecimalValue;
    var x := SplitUrl(UrlStart(isConnect), buf);
    assert buf[..|buf|] == buf;
    SplitUrlFound(UrlStart(isConnect), buf, buf, |buf|);
    FoundRight(x.state, x.oldUf, buf, x.slices);
    var u := x.slices;
    if Host in u {
      var a, b := u[Host].off, End(u[Host]);
      var start := HostStartState(x.foundAt);
      SplitHostFound(start, buf, u, a, b);
      var (hs, v) := SplitHost(start, buf, u, a, b);
      assert SameOthers(u, v);
      HostParts(hs, buf, v, a, b);
      DividedOrdered(u, v, |buf|);
      DividedDelimited(buf, u, hs, v);
      HostHasPort(hs, buf, v, a, b);
      if Port in v {
        DigitsAre(buf, v[Port].off, End(v[Port]));
      }
    }
  }

  lemma HostHasPort(hs: HostState, buf: string, v: Slices, a: nat, b: nat)
    requires HostFound(hs, buf, v, a, b)
    ensures Host in v && (Port in v ==> End(v[Port]) == b && AreDigits(buf[v[Port].off..b]))
  {
  }

  // ---- The class ------------------------------------------------------------------------------------

  class Url {
    /** The fields whose bits are set. */
    var fields: Slices
    var port: int

    constructor ()
    {
      fields, port := map[], 0;
    }

    /** http_parser_parse_url on a terminated buffer of at most 65535 bytes, so that offsets and
        lengths fit their 16 bits. */
    method ParseUrl(buf: string, isConnect: bool) returns (err: int)
      requires |buf| < TWO16
      modifies this
      ensures err == 0 || err == 1
      ensures err == 0 <==> ParsedUrl(buf, isConnect).Some?
      ensures err == 0 ==> ParsedUrl(buf, isConnect) == Some((fields, port))
    {
      hide SplitUrl, SplitHost, DigitsFrom, DecimalValue, Found, ParseUrlChar, HostEnds;
      port, fields := 0, map[];
      ghost var start := UrlStart(isConnect);
      var s := if isConnect then ReqServerStart else ReqSpacesBeforeUrl;
      var oldUf: Option<UrlField> := None;
      var foundAt := false;
      NothingSplit(start);
      var p := 0;
      while p < |buf|
        invariant 0 <= p <= |buf| && !s.Dead? && port == 0
        invariant SplitUrl(start, buf[..p]) == Split(s, oldUf, foundAt, fields)
      {
        SplitUrlNext(start, buf, p);
        SplitUrlFound(start, buf[..p], buf, p);
        s := ParseUrlChar(s, buf[p]);
        if s.Dead? {
          SplitUrlDead(start, buf, p + 1);
          return 1;
        }
        foundAt := foundAt || s.ReqServerWithAt?;
        if FieldOf(s).Some? {
          var uf := FieldOf(s).value;
          if oldUf == Some(uf) && uf in fields {
            FoundShort(SplitUrl(start, buf[..p]).state, oldUf, buf, fields, p, uf);
            fields := fields[uf := Slice(fields[uf].off, (fields[uf].len + 1) % TWO16)];
          } else {
            fields := fields[uf := Slice(p % TWO16, 1)];
            oldUf := Some(uf);
          }
        }
        p := p + 1;
      }
      assert buf[..p] == buf;
      SplitUrlFound(start, buf, buf, |buf|);
      FoundHost(s, oldUf, buf, fields);
      if Schema in fields && Host !in fields {
        return 1;
      }
      if Host in fields {
        var failed := ParseHost(buf, foundAt);
        if failed != 0 {
          return 1;
        }
      }
      if isConnect && fields.Keys != {Host, Port} {
        return 1;
      }
      if Port in fields {
        var v := StrToUl(buf, fields[Port].off);
        if v > 0xFFFF {
          return 1;
        }
        port := v;
      }
      err := 0;
    }

    /** http_parse_host */
    method ParseHost(buf: string, foundAt: bool) returns (err: int)
      requires |buf| < TWO16 && Host in fields && Userinfo !in fields && Port !in fields && End(fields[Host]) <= |buf|
      modifies this`fields
      ensures err == 0 || err == 1
      ensures var u := old(fields);
        var (s, v) := SplitHost(HostStartState(foundAt), buf, u, u[Host].off, End(u[Host]));
        (err == 0 <==> HostEnds(s)) && (err == 0 ==> fields == v && (Port in v ==> v[Port].off <= |buf|))
    {
      hide ParseHostChar, HostFound, HostTaken;
      ghost var u := fields;
      var a, b := fields[Host].off, End(fields[Host]);
      var start := if foundAt then UserinfoStart else HostStart;
      fields := fields[Host := Slice(a, 0)];
      var s := start;
      var p := a;
      while p < b
        invariant a <= p <= b && !s.HostDead? && SplitHost(start, buf, u, a, p) == (s, fields)
      {
        SplitHostFound(start, buf, u, a, p);
        var s' := ParseHostChar(s, buf[p]);
        if s'.HostDead? {
          SplitHostDead(start, buf, u, a, p + 1, b);
          return 1;
        }
        HostShort(s, buf, fields, a, p);
        TakeHostByte(s, s', p);
        s := s';
        p := p + 1;
      }
      SplitHostFound(start, buf, u, a, p);
      HostShort(s, buf, fields, a, p);
      err := if HostEnds(s) then 0 else 1;
    }

    /** The byte at `p`, in the field that its state says. */
    method TakeHostByte(s: HostState, s': HostState, p: nat)
      requires Host in fields && p + 1 < TWO16 && (s.InPort? ==> Port in fields) && (s.InUserinfo? ==> Userinfo in fields)
      requires fields[Host].len <= p && (Port in fields ==> fields[Port].len <= p) && (Userinfo in fields ==> fields[Userinfo].len <= p)
      modifies this`fields
      ensures fields == HostTaken(old(fields), s, s', p)
    {
      var h := fields[Host];
      if s'.InHost? {
        fields := fields[Host := Slice(if s.InHost? then h.off else p % TWO16, (h.len + 1) % TWO16)];
      } else if s'.InV6? {
        fields := fields[Host := Slice(if s.InV6? then h.off else p % TWO16, (h.len + 1) % TWO16)];
      } else if s'.V6ZoneStart? || s'.V6Zone? {
        fields := fields[Host := Slice(h.off, (h.len + 1) % TWO16)];
      } else if s'.InPort? {
        if s.InPort? {
          fields := fields[Port := Slice(fields[Port].off, (fields[Port].len + 1) % TWO16)];
        } else {
          fields := fields[Port := Slice(p % TWO16, 1)];
        }
      } else if s'.InUserinfo? {
        if s.InUserinfo? {
          fields := fields[Userinfo := Slice(fields[Userinfo].off, (fields[Userinfo].len + 1) % TWO16)];
        } else {
          fields := fields[Userinfo := Slice(p % TWO16, 1)];
        }
      }
    }

    /** strtoul, for the digits at `from`. */
    method StrToUl(buf: string, from: nat) returns (v: nat)
      requires from <= |buf|
      ensures v == DecimalValue(DigitsFrom(buf, from))
    {
      v := 0;
      var i := from;
      ghost var text := DigitsFrom(buf, from);
      assert text[..0] == "";
      while i < |buf| && IsNum(buf[i])
        invariant from <= i <= from + |text| && v == DecimalValue(text[..i - from])
      {
        assert i < from + |text| && buf[i] == text[i - from];
        assert text[..i + 1 - from][..i - from] == text[..i - from];
        v := v * 10 + Digit(buf[i]);
        i := i + 1;
      }
      assert i == from + |text|;
      assert text[..|text|] == text;
    }
  }

  lemma NothingSplit(start: State)
    ensures SplitUrl(start, "") == Split(start, None, false, map[])
  {
  }

  lemma SplitUrlNext(start: State, buf: string, p: nat)
    requires p < |buf| && !SplitUrl(start, buf[..p]).state.Dead?
    ensures var x, s := SplitUrl(start, buf[..p]), ParseUrlChar(SplitUrl(start, buf[..p]).state, buf[p]);
      SplitUrl(start, buf[..p + 1]) ==
      if s.Dead? then x.(state := Dead)
      else Split(s, OldUfAfter(x.oldUf, s), x.foundAt || s.ReqServerWithAt?, Taken(x.slices, x.oldUf, s, p))
  {
    hide ParseUrlChar, Taken;
    assert buf[..p + 1][..p] == buf[..p];
  }

  lemma {:induction false} SplitUrlDead(start: State, buf: string, p: nat)
    requires p <= |buf| && SplitUrl(start, buf[..p]).state.Dead?
    ensures SplitUrl(start, buf).state.Dead?
    decreases |buf|
  {
    hide ParseUrlChar, Taken;
    if p < |buf| {
      var n := |buf| - 1;
      assert buf[..n][..p] == buf[..p];
      SplitUrlDead(start, buf[..n], p);
    } else {
      assert buf[..p] == buf;
    }
  }

  lemma {:induction false} SplitHostDead(start: HostState, buf: string, u: Slices, a: nat, p: nat, b: nat)
    requires Host in u && a < p <= b <= |buf| && SplitHost(start, buf, u, a, p).0.HostDead?
    ensures SplitHost(start, buf, u, a, b).0.HostDead?
    decreases b
  {
    if p < b {
      SplitHostDead(start, buf, u, a, p, b - 1);
      DeadStays(buf[b - 1]);
    }
  }

  lemma FoundShort(s: State, oldUf: Option<UrlField>, buf: string, u: Slices, p: nat, uf: UrlField)
    requires Found(s, oldUf, buf, u, p) && uf in u
    ensures u[uf].off + u[uf].len <= p
  {
    hide Ordered, Behind, FoundMarks;
  }

  lemma FoundHost(s: State, oldUf: Option<UrlField>, buf: string, u: Slices)
    requires Found(s, oldUf, buf, u, |buf|)
    ensures (Host in u ==> End(u[Host]) <= |buf|) && Userinfo !in u && Port !in u
  {
    hide Ordered, Behind, FoundMarks;
  }

  lemma HostShort(s: HostState, buf: string, u: Slices, a: nat, p: nat)
    requires HostFound(s, buf, u, a, p)
    ensures Host in u && u[Host].len <= p && (Port in u ==> u[Port].off + u[Port].len <= p)
    ensures Userinfo in u ==> u[Userinfo].off + u[Userinfo].len <= p
    ensures (s.InPort? ==> Port in u) && (s.InUserinfo? ==> Userinfo in u)
  {
  }
}
