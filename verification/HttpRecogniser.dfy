/** The two keyword recognisers of the parser, the one for methods and the one for header names,
    accept exactly the words they are for. */
module HttpRecogniser {
  import opened Options
  import opened HttpTypes
  import opened HttpMachine
  import opened HttpRun
  import opened HttpInvariant
  import opened HttpBlocks

  // ---- Header names --------------------------------------------------------------------

  predicate IsTokens(name: string) { forall i | 0 <= i < |name| :: Token(name[i]) != '\0' }

  function LowerName(name: string): (w: string)
    ensures |w| == |name|
  {
    seq(|name|, i requires 0 <= i < |name| => Token(name[i]))
  }

  /** The parser after the bytes of a name, read from the start of a header line. */
  function AfterName(p: Parser, name: string): Parser
    requires name != ""
  {
    var n := |name| - 1;
    if n == 0 then p.(index := 0, state := HeaderField, headerState := StartName(Token(name[0])))
    else
      var q := AfterName(p, name[..n]);
      if q.errno.Ok? then NameByte(q, Token(name[n])) else q
  }

  predicate Begins(w: string, word: string) { w <= word }

  /** What each recogniser state says of the lower-case bytes seen. */
  predicate Recognised(w: string, hs: HeaderState, index: nat) {
    match hs
    case General => !Begins(w, CONNECTION) && !Begins(w, PROXY_CONNECTION) && !Begins(w, CONTENT_LENGTH)
                    && !Begins(w, TRANSFER_ENCODING) && !Begins(w, UPGRADE)
    case SeenC => Begins(w, CONNECTION) && |w| == 1 && index == 0
    case SeenCO => Begins(w, CONNECTION) && |w| == 2 && index == 1
    case SeenCON => Begins(w, CONNECTION) && |w| == 3 && index == 2
    case MatchingConnection => Begins(w, CONNECTION) && 3 <= index == |w| - 1 < |CONNECTION| - 1
    case MatchingProxyConnection => Begins(w, PROXY_CONNECTION) && index == |w| - 1 < |PROXY_CONNECTION| - 1
    case MatchingContentLength => Begins(w, CONTENT_LENGTH) && 3 <= index == |w| - 1 < |CONTENT_LENGTH| - 1
    case MatchingTransferEncoding => Begins(w, TRANSFER_ENCODING) && index == |w| - 1 < |TRANSFER_ENCODING| - 1
    case MatchingUpgrade => Begins(w, UPGRADE) && index == |w| - 1 < |UPGRADE| - 1
    case Connection => w == CONNECTION || w == PROXY_CONNECTION
    case ContentLength => w == CONTENT_LENGTH
    case TransferEncoding => w == TRANSFER_ENCODING
    case Upgrade => w == UPGRADE
    case _ => false
  }

  lemma BeginsSnoc(w: string, c: char, word: string)
    ensures Begins(w + [c], word) <==> Begins(w, word) && |w| < |word| && word[|w|] == c
    ensures Begins(w, word) && |w| == |word| ==> w == word
    ensures w == word ==> Begins(w, word)
    ensures Begins(w, word) ==> |w| <= |word| && forall i | 0 <= i < |w| :: w[i] == word[i]
  {
    if w + [c] <= word {
      assert word[..|w| + 1] == w + [c];
      assert word[..|w|] == w;
    }
    if w <= word && |w| < |word| && word[|w|] == c {
      assert word[..|w| + 1] == w + [c];
    }
  }

  /** How a prefix of each keyword grows, and what keeps the keywords apart. */
  lemma BeginsFacts(w: string, c: char)
    ensures Begins(w + [c], CONNECTION) <==> Begins(w, CONNECTION) && |w| < |CONNECTION| && CONNECTION[|w|] == c
    ensures Begins(w + [c], PROXY_CONNECTION) <==>
            Begins(w, PROXY_CONNECTION) && |w| < |PROXY_CONNECTION| && PROXY_CONNECTION[|w|] == c
    ensures Begins(w + [c], CONTENT_LENGTH) <==>
            Begins(w, CONTENT_LENGTH) && |w| < |CONTENT_LENGTH| && CONTENT_LENGTH[|w|] == c
    ensures Begins(w + [c], TRANSFER_ENCODING) <==>
            Begins(w, TRANSFER_ENCODING) && |w| < |TRANSFER_ENCODING| && TRANSFER_ENCODING[|w|] == c
    ensures Begins(w + [c], UPGRADE) <==> Begins(w, UPGRADE) && |w| < |UPGRADE| && UPGRADE[|w|] == c
  {
    hide Begins;
    BeginsSnoc(w, c, CONNECTION);
    BeginsSnoc(w, c, PROXY_CONNECTION);
    BeginsSnoc(w, c, CONTENT_LENGTH);
    BeginsSnoc(w, c, TRANSFER_ENCODING);
    BeginsSnoc(w, c, UPGRADE);
  }

  lemma BeginsFirst(w: string)
    requires w != ""
    ensures Begins(w, CONNECTION) ==> w[0] == 'c' && (|w| > 3 ==> w[3] == 'n')
    ensures Begins(w, CONTENT_LENGTH) ==> w[0] == 'c' && (|w| > 3 ==> w[3] == 't')
    ensures |w| <= 3 ==> (Begins(w, CONNECTION) <==> Begins(w, CONTENT_LENGTH))
    ensures Begins(w, PROXY_CONNECTION) ==> w[0] == 'p'
    ensures Begins(w, TRANSFER_ENCODING) ==> w[0] == 't'
    ensures Begins(w, UPGRADE) ==> w[0] == 'u'
  {
  }

  lemma BeginsAll(w: string)
    ensures w == CONNECTION <==> Begins(w, CONNECTION) && |w| == |CONNECTION|
    ensures w == PROXY_CONNECTION <==> Begins(w, PROXY_CONNECTION) && |w| == |PROXY_CONNECTION|
    ensures w == CONTENT_LENGTH <==> Begins(w, CONTENT_LENGTH) && |w| == |CONTENT_LENGTH|
    ensures w == TRANSFER_ENCODING <==> Begins(w, TRANSFER_ENCODING) && |w| == |TRANSFER_ENCODING|
    ensures w == UPGRADE <==> Begins(w, UPGRADE) && |w| == |UPGRADE|
  {
  }

  lemma StartRecognised(c: char)
    requires c != '\0'
    ensures Recognised([c], StartName(c), 0)
  {
    hide Begins;
    BeginsFacts("", c);
    BeginsFirst([c]);
    assert Begins("", CONNECTION) && Begins("", PROXY_CONNECTION) && Begins("", TRANSFER_ENCODING) && Begins("", UPGRADE)
    by { BeginsNone(); }
    assert "" + [c] == [c];
  }

  lemma BeginsNone()
    ensures Begins("", CONNECTION) && Begins("", PROXY_CONNECTION) && Begins("", TRANSFER_ENCODING) && Begins("", UPGRADE)
  {
  }

  /** What one more name byte does: the recogniser goes on, or the second content-length is refused. */
  predicate NameByteRight(p: Parser, w: string, q: Parser) {
    && (q.errno.Ok? ==> Recognised(w, q.headerState, q.index))
    && (q.errno.Ok? <==> !(p.flags.contentLength && w == CONTENT_LENGTH))
    && q == p.(index := q.index, headerState := q.headerState, errno := q.errno,
               flags := if q.errno.Ok? && w == CONTENT_LENGTH then p.flags.(contentLength := true) else p.flags)
  }

  lemma SeenByteRecognised(p: Parser, w: string, c: char)
    requires p.errno.Ok? && w != "" && c != '\0' && Recognised(w, p.headerState, p.index)
    requires p.headerState.SeenC? || p.headerState.SeenCO? || p.headerState.SeenCON? || p.headerState.General?
    ensures NameByteRight(p, w + [c], NameByte(p, c))
  {
    hide Begins;
    BeginsFacts(w, c);
    BeginsFirst(w);
    BeginsFirst(w + [c]);
    BeginsAll(w + [c]);
  }

  lemma MatchingByteRecognised(p: Parser, w: string, c: char)
    requires p.errno.Ok? && w != "" && c != '\0' && Recognised(w, p.headerState, p.index)
    requires p.headerState.MatchingConnection? || p.headerState.MatchingProxyConnection? || p.headerState.MatchingContentLength?
    ensures NameByteRight(p, w + [c], NameByte(p, c))
  {
    hide Begins;
    BeginsFacts(w, c);
    BeginsFirst(w);
    BeginsAll(w + [c]);
  }

  lemma OtherByteRecognised(p: Parser, w: string, c: char)
    requires p.errno.Ok? && w != "" && c != '\0' && Recognised(w, p.headerState, p.index)
    requires p.headerState.MatchingTransferEncoding? || p.headerState.MatchingUpgrade?
    ensures NameByteRight(p, w + [c], NameByte(p, c))
  {
    hide Begins;
    BeginsFacts(w, c);
    BeginsFirst(w);
    BeginsAll(w + [c]);
  }

  lemma FinishedByteRecognised(p: Parser, w: string, c: char)
    requires p.errno.Ok? && w != "" && c != '\0' && Recognised(w, p.headerState, p.index)
    requires p.headerState.Connection? || p.headerState.ContentLength? || p.headerState.TransferEncoding? || p.headerState.Upgrade?
    ensures NameByteRight(p, w + [c], NameByte(p, c))
  {
    hide Begins;
    BeginsFacts(w, c);
    BeginsFirst(w);
    BeginsAll(w);
    BeginsAll(w + [c]);
  }

  lemma NameByteRecognised(p: Parser, w: string, c: char)
    requires p.errno.Ok? && w != "" && c != '\0' && Recognised(w, p.headerState, p.index)
    ensures NameByteRight(p, w + [c], NameByte(p, c))
  {
    hide NameByteRight, NameByte, Begins;
    match p.headerState
    case Connection => FinishedByteRecognised(p, w, c);
    case ContentLength => FinishedByteRecognised(p, w, c);
    case TransferEncoding => FinishedByteRecognised(p, w, c);
    case Upgrade => FinishedByteRecognised(p, w, c);
    case MatchingConnection => MatchingByteRecognised(p, w, c);
    case MatchingProxyConnection => MatchingByteRecognised(p, w, c);
    case MatchingContentLength => MatchingByteRecognised(p, w, c);
    case MatchingTransferEncoding => OtherByteRecognised(p, w, c);
    case MatchingUpgrade => OtherByteRecognised(p, w, c);
    case _ => SeenByteRecognised(p, w, c);
  }

  /** The name has "content-length" as a prefix: then the flag is set, whatever follows. */
  predicate NamesLength(w: string) { |w| >= |CONTENT_LENGTH| && w[..|CONTENT_LENGTH|] == CONTENT_LENGTH }

  lemma NamesLengthSnoc(w: string, c: char)
    ensures NamesLength(w + [c]) <==> NamesLength(w) || w + [c] == CONTENT_LENGTH
    ensures NamesLength(w) ==> w + [c] != CONTENT_LENGTH
  {
    var n := |CONTENT_LENGTH|;
    if |w| >= n {
      assert (w + [c])[..n] == w[..n];
    } else if |w| + 1 == n {
      assert (w + [c])[..n] == w + [c];
    }
  }

  /** The name recogniser is exact: after a whole name it stands in a keyword's state exactly
      when the name is that keyword in some mixture of cases.  The content-length flag, though,
      is set by every name that only begins with the keyword, and that is also exactly when a
      second one is refused. */
  lemma {:induction false} NameExact(p: Parser, name: string)
    requires p.errno.Ok? && name != "" && IsTokens(name)
    ensures var w, q := LowerName(name), AfterName(p, name);
      && (q.errno.Ok? <==> !(p.flags.contentLength && NamesLength(w)))
      && (q.errno.Ok? ==>
            && Recognised(w, q.headerState, q.index)
            && q == p.(index := q.index, headerState := q.headerState, state := HeaderField,
                       flags := p.flags.(contentLength := p.flags.contentLength || NamesLength(w))))
  {
    hide NameByte, Recognised, NamesLength;
    var n := |name| - 1;
    var w := LowerName(name);
    var c := Token(name[n]);
    NamesLengthSnoc(w[..n], c);
    assert w == w[..n] + [c];
    if n == 0 {
      StartRecognised(c);
      assert !NamesLength(w) by { NamesLengthShort(w); }
      assert w == [c];
    } else {
      assert LowerName(name[..n]) == w[..n];
      NameExact(p, name[..n]);
      var q := AfterName(p, name[..n]);
      if q.errno.Ok? {
        NameByteRecognised(q, w[..n], c);
      }
    }
  }

  lemma NamesLengthShort(w: string)
    requires |w| <= 1
    ensures !NamesLength(w)
  {
  }

  /** The states that name a header, each for its keyword and no other word. */
  lemma KeywordStates(p: Parser, name: string)
    requires p.errno.Ok? && name != "" && IsTokens(name) && AfterName(p, name).errno.Ok?
    ensures var w, hs := LowerName(name), AfterName(p, name).headerState;
      && (hs.ContentLength? <==> w == CONTENT_LENGTH)
      && (hs.TransferEncoding? <==> w == TRANSFER_ENCODING)
      && (hs.Upgrade? <==> w == UPGRADE)
      && (hs.Connection? <==> w == CONNECTION || w == PROXY_CONNECTION)
  {
    hide AfterName, Begins, NamesLength;
    NameExact(p, name);
    var w := LowerName(name);
    BeginsFirst(w);
    BeginsAll(w);
  }

  /** Reading a name from the start of a header line, with the colon still to come. */
  lemma {:induction false} NameSteps(r: Run, name: string)
    requires r.control.Advance? && r.parser.state.HeaderFieldStart? && r.open.None? && r.parser.errno.Ok?
    requires name != "" && IsTokens(name) && AfterName(r.parser, name).errno.Ok?
    ensures RunBytes(r, name) ==
      r.(parser := AfterName(r.parser, name), open := Some(Datum(Field, name)), skipping := false,
         headerBytes := r.headerBytes + |name|, consumed := r.consumed + |name|)
  {
    hide Step, NameByte, AfterName, Token;
    var n := |name| - 1;
    var before := name[..n];
    assert name == before + [name[n]];
    AfterNameNext(r.parser, name);
    if n == 0 {
      assert before == "";
      FirstNameByte(r, name[0]);
      assert [name[0]] == name;
    } else {
      NameSteps(r, before);
      NameStep(RunBytes(r, before), name[n]);
    }
  }

  /** One byte of a name. */
  lemma AfterNameNext(p: Parser, name: string)
    requires p.errno.Ok? && name != "" && IsTokens(name) && AfterName(p, name).errno.Ok?
    ensures Token(name[|name| - 1]) != '\0'
    ensures |name| == 1 ==>
      AfterName(p, name) == p.(index := 0, state := HeaderField, headerState := StartName(Token(name[0])))
    ensures |name| > 1 ==>
      var q := AfterName(p, name[..|name| - 1]);
      q.errno.Ok? && q.state.HeaderField? && IsTokens(name[..|name| - 1]) && AfterName(p, name) == NameByte(q, Token(name[|name| - 1]))
  {
    hide NameByte, Recognised, NamesLength;
    if |name| > 1 {
      NameExact(p, name[..|name| - 1]);
    }
  }

  lemma FirstNameByte(r: Run, ch: char)
    requires r.control.Advance? && r.parser.state.HeaderFieldStart? && r.open.None? && Token(ch) != '\0'
    ensures Step(r, ch) ==
      r.(parser := r.parser.(index := 0, state := HeaderField, headerState := StartName(Token(ch))),
         open := Some(Datum(Field, [ch])), skipping := false, headerBytes := r.headerBytes + 1, consumed := r.consumed + 1)
  {
    hide Token;
    assert Token(ch) != '\0' ==> ch != CR && ch != LF by { TokenIsNoLineEnd(ch); }
    assert "" + [ch] == [ch];
  }

  lemma TokenIsNoLineEnd(ch: char)
    ensures Token(ch) != '\0' ==> ch != CR && ch != LF
  {
  }

  // ---- Methods -------------------------------------------------------------------------

  /** The method the parser holds after some bytes of the first word, if it has not failed. */
  function MethodAfter(s: string): Option<Method>
    requires s != ""
  {
    var n := |s| - 1;
    if n == 0 then FirstMethod(s[0])
    else
      match MethodAfter(s[..n])
      case None => None
      case Some(m) => if s[n] != '\0' && s[n] == At(MethodString(m), n) then Some(m) else SwitchMethod(m, n, s[n])
  }

  /** The bytes seen are always the beginning of the method held. */
  lemma {:induction false} MethodSound(s: string)
    requires s != "" && MethodAfter(s).Some?
    ensures s <= MethodString(MethodAfter(s).value)
  {
    hide MethodString, SwitchMethod;
    var n := |s| - 1;
    if n == 0 {
      FirstMethodRight(s[0]);
    } else {
      MethodSound(s[..n]);
      var m := MethodAfter(s[..n]).value;
      var m' := MethodAfter(s).value;
      if s[n] == At(MethodString(m), n) && s[n] != '\0' {
      } else {
        SwitchMethodPrefix(m, n, s[n]);
        forall i | 0 <= i < |s|
          ensures s[i] == MethodString(m')[i]
        {
          assert i < n ==> s[i] == s[..n][i];
        }
      }
    }
  }

  lemma FirstMethodRight(ch: char)
    requires FirstMethod(ch).Some?
    ensures MethodString(FirstMethod(ch).value)[0] == ch
  {
  }

  // The other direction: every method of the table is recognised.  A method is tried first, or
  // is reached by one or two switches.

  lemma MethodAfterNext(s: string, c: char)
    requires s != "" && MethodAfter(s).Some?
    ensures var m := MethodAfter(s).value;
      MethodAfter(s + [c]) == if c != '\0' && c == At(MethodString(m), |s|) then Some(m) else SwitchMethod(m, |s|, c)
  {
    hide MethodString, SwitchMethod;
    assert (s + [c])[..|s|] == s;
  }

  lemma MethodAfterTwo(a: char, b: char)
    requires FirstMethod(a).Some?
    ensures var m := FirstMethod(a).value;
      MethodAfter([a, b]) == if b != '\0' && b == MethodString(m)[1] then Some(m) else SwitchMethod(m, 1, b)
  {
    hide MethodString, SwitchMethod;
    assert [a, b] == [a] + [b];
    MethodAfterNext([a], b);
  }

  /** After how many bytes the parser holds the right method. */
  function FoundAfter(m: Method): (k: nat)
    ensures 1 <= k <= 5
  {
    match m
    case PUT => 2
    case PATCH => 2
    case CHECKOUT => 2
    case COPY => 3
    case MOVE => 2
    case MERGE => 2
    case MKACTIVITY => 3
    case MKCALENDAR => 4
    case SEARCH => 2
    case REBIND => 3
    case PROPFIND => 2
    case PROPPATCH => 5
    case PURGE => 3
    case LINK => 2
    case UNSUBSCRIBE => 3
    case UNBIND => 3
    case UNLINK => 4
    case MSEARCH => 2
    case _ => 1
  }

  lemma FoundFirst(m: Method)
    requires FoundAfter(m) == 1
    ensures FirstMethod(MethodString(m)[0]) == Some(m)
  {
  }

  lemma FoundSecond(m: Method)
    requires FoundAfter(m) == 2
    ensures var s := MethodString(m); MethodAfter([s[0], s[1]]) == Some(m)
  {
    hide MethodAfter;
    var s := MethodString(m);
    assert FirstMethod(s[0]).Some?;
    MethodAfterTwo(s[0], s[1]);
  }

  lemma FoundC()
    ensures MethodAfter("COP") == Some(COPY)
    ensures MethodAfter("REB") == Some(REBIND)
  {
    hide MethodAfter;
    MethodAfterTwo('C', 'O');
    Append("CO", 'P', "COP");
    MethodAfterTwo('R', 'E');
    Append("RE", 'B', "REB");
  }

  lemma FoundM()
    ensures MethodAfter("MKA") == Some(MKACTIVITY)
    ensures MethodAfter("MKCA") == Some(MKCALENDAR)
  {
    hide MethodAfter;
    MethodAfterTwo('M', 'K');
    Append("MK", 'A', "MKA");
    Append("MK", 'C', "MKC");
    Append("MKC", 'A', "MKCA");
  }

  lemma FoundU()
    ensures MethodAfter("UNS") == Some(UNSUBSCRIBE)
    ensures MethodAfter("UNB") == Some(UNBIND)
    ensures MethodAfter("UNLI") == Some(UNLINK)
  {
    hide MethodAfter;
    MethodAfterTwo('U', 'N');
    Append("UN", 'S', "UNS");
    Append("UN", 'B', "UNB");
    Append("UN", 'L', "UNL");
    Append("UNL", 'I', "UNLI");
  }

  lemma FoundP()
    ensures MethodAfter("PUR") == Some(PURGE)
    ensures MethodAfter("PROPP") == Some(PROPPATCH)
  {
    hide MethodAfter;
    MethodAfterTwo('P', 'U');
    Append("PU", 'R', "PUR");
    MethodAfterTwo('P', 'R');
    Append("PR", 'O', "PRO");
    Append("PRO", 'P', "PROP");
    Append("PROP", 'P', "PROPP");
  }

  lemma Append(s: string, c: char, t: string)
    requires s != "" && t == s + [c] && MethodAfter(s).Some?
    ensures var m := MethodAfter(s).value;
      MethodAfter(t) == if c != '\0' && c == At(MethodString(m), |s|) then Some(m) else SwitchMethod(m, |s|, c)
  {
    hide MethodString, SwitchMethod, MethodAfter;
    MethodAfterNext(s, c);
  }

  lemma FoundRest(m: Method)
    requires FoundAfter(m) > 2
    ensures MethodAfter(MethodString(m)[..FoundAfter(m)]) == Some(m)
  {
    hide MethodAfter;
    var s := MethodString(m);
    match m
    case COPY => assert s[..3] == "COP"; FoundC();
    case REBIND => assert s[..3] == "REB"; FoundC();
    case MKACTIVITY => assert s[..3] == "MKA"; FoundM();
    case MKCALENDAR => assert s[..4] == "MKCA"; FoundM();
    case UNSUBSCRIBE => assert s[..3] == "UNS"; FoundU();
    case UNBIND => assert s[..3] == "UNB"; FoundU();
    case UNLINK => assert s[..4] == "UNLI"; FoundU();
    case PURGE => assert s[..3] == "PUR"; FoundP();
    case PROPPATCH => assert s[..5] == "PROPP"; FoundP();
  }

  lemma Found(m: Method)
    ensures FoundAfter(m) <= |MethodString(m)|
    ensures MethodAfter(MethodString(m)[..FoundAfter(m)]) == Some(m)
  {
    hide MethodAfter;
    var s, k := MethodString(m), FoundAfter(m);
    if k == 1 {
      FoundFirst(m);
      assert s[..1] == [s[0]];
      MethodAfterOne(s[0]);
    } else if k == 2 {
      FoundSecond(m);
      assert s[..2] == [s[0], s[1]];
    } else {
      FoundRest(m);
    }
  }

  lemma MethodAfterOne(c: char)
    ensures MethodAfter([c]) == FirstMethod(c)
  {
  }

  lemma {:induction false} MethodCompleteFrom(m: Method, k: nat)
    requires FoundAfter(m) <= k <= |MethodString(m)|
    ensures MethodAfter(MethodString(m)[..k]) == Some(m)
  {
    hide MethodString, MethodAfter;
    var s := MethodString(m);
    if k == FoundAfter(m) {
      Found(m);
    } else {
      MethodCompleteFrom(m, k - 1);
      assert s[..k] == s[..k - 1] + [s[k - 1]];
      MethodAfterNext(s[..k - 1], s[k - 1]);
    }
  }

  /** The word is taken for a method when its bytes lead to one and end where it does. */
  predicate IsMethodWord(s: string, m: Method) {
    s != "" && MethodAfter(s) == Some(m) && At(MethodString(m), |s|) == '\0'
  }

  /** Exactly the methods of the table are recognised, each as itself. */
  lemma MethodExact(s: string, m: Method)
    ensures IsMethodWord(s, m) <==> s == MethodString(m)
  {
    hide MethodString, MethodAfter;
    if IsMethodWord(s, m) {
      MethodSound(s);
      assert MethodString(m)[..|s|] == s;
    }
    if s == MethodString(m) {
      Found(m);
      MethodCompleteFrom(m, |s|);
      assert s[..|s|] == s;
    }
  }

  // ---- Reading a method ------------------------------------------------------------------

  lemma PrefixFound(s: string)
    requires |s| > 1 && MethodAfter(s).Some?
    ensures MethodAfter(s[..|s| - 1]).Some?
  {
    hide MethodString, SwitchMethod;
  }

  lemma MethodByte(r: Run, s: string, c: char)
    requires r.control.Advance? && r.parser.state.ReqMethod? && r.open.None? && r.parser.index == |s|
    requires s != "" && MethodAfter(s) == Some(r.parser.verb) && MethodAfter(s + [c]).Some? && c != ' ' && c != '\0'
    ensures Step(r, c) ==
      Moved(r, r.parser.(verb := MethodAfter(s + [c]).value, index := |s| + 1), false, c)
  {
    hide MethodString, SwitchMethod, MethodAfter, TransMethod, Step;
    MethodTransition(r.parser, s, c);
    MovedStep(r, c, r.parser.(verb := MethodAfter(s + [c]).value, index := |s| + 1), false);
  }

  lemma MethodTransition(p: Parser, s: string, c: char)
    requires p.state.ReqMethod? && p.index == |s|
    requires s != "" && MethodAfter(s) == Some(p.verb) && MethodAfter(s + [c]).Some? && c != ' ' && c != '\0'
    ensures TransMethod(p, c) == Stay(p.(verb := MethodAfter(s + [c]).value, index := |s| + 1))
  {
    hide MethodString, SwitchMethod, MethodAfter;
    MethodAfterNext(s, c);
  }

  /** The rest of a method's name. */
  lemma {:induction false} MethodTail(r: Run, s: string, k: nat)
    requires r.control.Advance? && r.parser.state.ReqMethod? && r.open.None? && !r.skipping && r.parser.index == k
    requires 1 <= k <= |s| && MethodAfter(s[..k]) == Some(r.parser.verb) && MethodAfter(s).Some?
    ensures RunBytes(r, s[k..]) ==
      r.(parser := r.parser.(verb := MethodAfter(s).value, index := |s|), headerBytes := r.headerBytes + (|s| - k),
         consumed := r.consumed + (|s| - k))
    decreases |s|
  {
    hide Step, MethodAfter, MethodString;
    if k == |s| {
      assert s[k..] == "" && s[..k] == s;
      RunBytesNone(r);
    } else {
      var n := |s| - 1;
      var before := s[..n];
      PrefixFound(s);
      assert before[..k] == s[..k];
      MethodTail(r, before, k);
      MethodSound(s);
      assert s[n] == MethodString(MethodAfter(s).value)[n];
      assert before + [s[n]] == s;
      assert s[k..][..n - k] == before[k..] && s[k..][n - k] == s[n];
      MethodByte(RunBytes(r, before[k..]), before, s[n]);
    }
  }

  /** The parser that has read a method. */
  function MethodRead(p: Parser, m: Method, n: nat): Parser {
    p.(kind := if p.state.StartReqOrRes? then Request else p.kind, flags := NO_FLAGS, contentLength := ABSENT,
       verb := m, index := n, state := ReqMethod)
  }

  predicate AtStart(r: Run) {
    r.control.Advance? && (r.parser.state.StartReqOrRes? || r.parser.state.StartReq?) && r.open.None? && !r.skipping
  }

  lemma FirstMethodByte(r: Run, c: char)
    requires AtStart(r) && FirstMethod(c).Some? && (c == 'H' ==> r.parser.state.StartReq?)
    ensures Step(r, c) ==
      r.(parser := MethodRead(r.parser, FirstMethod(c).value, 1), headerBytes := r.headerBytes + 1,
         events := r.events + [MessageBegin], consumed := r.consumed + 1)
  {
    hide FirstMethod, Transition, Settle, MethodRead;
    var r0 := Count(r);
    FirstMethodTransition(r.parser, c);
    SettleUnfold(r0, c);
    if r.parser.state.StartReqOrRes? {
      EitherTransition(r.parser, c);
      var r1 := Settled(r0, c);
      FirstMethodTransition(r1.parser, c);
      SettleUnfold(r1, c);
      MethodReadTwice(r.parser, FirstMethod(c).value);
    }
  }

  lemma MethodReadTwice(p: Parser, m: Method)
    requires p.state.StartReqOrRes?
    ensures MethodRead(p.(flags := NO_FLAGS, contentLength := ABSENT, kind := Request, state := StartReq), m, 1) == MethodRead(p, m, 1)
  {
  }

  lemma FirstMethodTransition(p: Parser, c: char)
    requires FirstMethod(c).Some?
    ensures p.state.StartReq? ==>
      Transition(p, false, c) == Outcome(MethodRead(p, FirstMethod(c).value, 1), false, Notify(MessageBegin), Advance)
  {
    hide FirstMethod;
    FirstMethodLetter(c);
  }

  lemma EitherTransition(p: Parser, c: char)
    requires p.state.StartReqOrRes? && c != 'H' && FirstMethod(c).Some?
    ensures Transition(p, false, c) ==
      Again(p.(flags := NO_FLAGS, contentLength := ABSENT, kind := Request), StartReq)
  {
    hide FirstMethod;
    FirstMethodLetter(c);
  }

  lemma FirstMethodLetter(c: char)
    requires FirstMethod(c).Some?
    ensures c != CR && c != LF
  {
  }

  /** "HE", where a message could have been a response until its second byte. */
  lemma HeadBytes(r: Run)
    requires AtStart(r) && r.parser.state.StartReqOrRes?
    ensures RunBytes(r, "HE") ==
      r.(parser := MethodRead(r.parser, HEAD, 2), headerBytes := r.headerBytes + 2, events := r.events + [MessageBegin],
         consumed := r.consumed + 2)
  {
    hide Step;
    assert "HE" == ['H'] + ['E'];
    RunBytesAppend(r, ['H'], ['E']);
    RunBytesOne(r, 'H');
    HByte(r);
    RunBytesOne(Step(r, 'H'), 'E');
    EByte(Step(r, 'H'));
  }

  lemma HByte(r: Run)
    requires AtStart(r) && r.parser.state.StartReqOrRes?
    ensures Step(r, 'H') ==
      r.(parser := r.parser.(flags := NO_FLAGS, contentLength := ABSENT, state := ResOrRespH),
         headerBytes := r.headerBytes + 1, events := r.events + [MessageBegin], consumed := r.consumed + 1)
  {
  }

  lemma EByte(r: Run)
    requires r.control.Advance? && r.parser.state.ResOrRespH? && r.open.None? && !r.skipping
    ensures Step(r, 'E') == Moved(r, r.parser.(kind := Request, verb := HEAD, index := 2, state := ReqMethod), false, 'E')
  {
  }

  /** Any method of the table is read at the start of a message, whether or not the parser knows
      already that a request comes. */
  lemma MethodSteps(r: Run, m: Method)
    requires AtStart(r)
    ensures var s := MethodString(m);
      RunBytes(r, s) ==
      r.(parser := MethodRead(r.parser, m, |s|), headerBytes := r.headerBytes + |s|, events := r.events + [MessageBegin],
         consumed := r.consumed + |s|)
  {
    hide Step, MethodAfter, MethodString, FirstMethod;
    var s := MethodString(m);
    MethodExact(s, m);
    if r.parser.state.StartReqOrRes? && s[0] == 'H' {
      HIsHead(m);
      HeadBytes(r);
      assert s == "HE" + s[2..];
      RunBytesAppend(r, "HE", s[2..]);
      MethodTail(RunBytes(r, "HE"), s, 2);
    } else {
      assert s == [s[0]] + s[1..];
      MethodAfterOne(s[0]);
      FirstFound(s);
      RunBytesOne(r, s[0]);
      FirstMethodByte(r, s[0]);
      RunBytesAppend(r, [s[0]], s[1..]);
      assert s[..1] == [s[0]];
      MethodTail(RunBytes(r, [s[0]]), s, 1);
    }
  }

  lemma HIsHead(m: Method)
    requires MethodString(m)[0] == 'H'
    ensures m == HEAD && MethodString(m)[..2] == "HE" && MethodAfter("HE") == Some(HEAD)
  {
    hide MethodAfter;
    MethodAfterTwo('H', 'E');
  }

  lemma {:induction false} FirstFound(s: string)
    requires s != "" && MethodAfter(s).Some?
    ensures MethodAfter([s[0]]).Some?
  {
    hide MethodString, SwitchMethod, FirstMethod;
    if |s| == 1 {
      assert [s[0]] == s;
    } else {
      PrefixFound(s);
      FirstFound(s[..|s| - 1]);
    }
  }

  // ---- What the machine accepts ------------------------------------------------------------

  /** Line ends before a message are skipped. */
  function SkipLineEnds(s: string): string {
    if s != "" && (s[0] == CR || s[0] == LF) then SkipLineEnds(s[1..]) else s
  }

  /** Where the parser stands behind `s`, the first bytes of a message, which have no blank. */
  predicate MethodStands(start: Run, r: Run, s: string) {
    if s == "" then AtStart(r) && r.parser.state == start.parser.state
    else if r.control.Fail? then MethodAfter(s).None?
    else if r.parser.state.ReqMethod? then
      && r.control.Advance? && r.open.None? && !r.skipping
      && r.parser.index == |s| && MethodAfter(s) == Some(r.parser.verb)
    else r.control.Advance? && r.open.None? && !r.skipping && NoMethodState(start, r, s)
  }

  /** "H" may begin a response; then no request follows without a blank. */
  predicate NoMethodState(start: Run, r: Run, s: string) {
    && start.parser.state.StartReqOrRes?
    && if r.parser.state.ResOrRespH? then s == "H" else IsProtocolState(r.parser.state) && |s| > 1 && s[..2] == "HT"
  }

  /** The states of "HTTP/1.1" at the beginning of a response. */
  predicate IsProtocolState(s: State) {
    s.ResHT? || s.ResHTT? || s.ResHTTP? || s.ResFirstHttpMajor? || s.ResHttpMajor? || s.ResFirstHttpMinor? || s.ResHttpMinor?
  }

  /** One byte of a method: it goes on with the method held, or with another, or is refused; a blank
      is accepted exactly behind a whole method. */
  lemma MethodByteExact(p: Parser, s: string, c: char)
    requires p.state.ReqMethod? && s != "" && p.index == |s| && MethodAfter(s) == Some(p.verb)
    ensures var o := TransMethod(p, c);
      if c == ' ' then
        (if s == MethodString(p.verb) then o.control.Advance? && o.parser == p.(index := |s| + 1, state := ReqSpacesBeforeUrl)
         else o.control.Fail? && o.parser.errno == InvalidMethod)
      else if MethodAfter(s + [c]).Some? then
        o.control.Advance? && o.parser == p.(index := |s| + 1, verb := MethodAfter(s + [c]).value)
      else o.control.Fail? && o.parser.errno == InvalidMethod
  {
    hide MethodString, SwitchMethod, MethodAfter;
    MethodAfterNext(s, c);
    MethodSound(s);
    SwitchNever(p.verb, p.index);
    assert |s| == |MethodString(p.verb)| ==> MethodString(p.verb)[..|s|] == s;
  }

  lemma SwitchNever(m: Method, index: int)
    ensures SwitchMethod(m, index, ' ').None? && SwitchMethod(m, index, '\0').None?
  {
  }

  lemma SkipSnoc(s: string, c: char)
    ensures SkipLineEnds(s + [c]) == if SkipLineEnds(s) == "" && (c == CR || c == LF) then "" else SkipLineEnds(s) + [c]
  {
    if s != "" && (s[0] == CR || s[0] == LF) {
      SkipSnoc(s[1..], c);
      assert (s + [c])[1..] == s[1..] + [c];
    } else if s == "" {
      assert "" + [c] == [c];
      assert [c][1..] == "";
    }
  }

  lemma NoneStays(s: string, c: char)
    requires s != "" && MethodAfter(s).None?
    ensures MethodAfter(s + [c]).None?
  {
    hide MethodString, SwitchMethod;
    assert (s + [c])[..|s|] == s;
  }

  /** The first byte. */
  lemma StandsFirst(start: Run, r: Run, c: char)
    requires MethodStands(start, r, "")
    ensures MethodStands(start, Step(r, c), if c == CR || c == LF then "" else [c])
  {
    hide Step, MethodAfter, FirstMethod, MethodRead;
    MethodAfterOne(c);
    if c == CR || c == LF {
      LineEndSkipped(r, c);
    } else if r.parser.state.StartReqOrRes? && c == 'H' {
      HByte(r);
    } else if FirstMethod(c).Some? {
      FirstMethodByte(r, c);
      MethodReadState(r.parser, FirstMethod(c).value, 1);
    } else {
      FirstRefused(r, c);
    }
  }

  lemma MethodReadState(p: Parser, m: Method, n: nat)
    ensures var q := MethodRead(p, m, n); q.state.ReqMethod? && q.verb == m && q.index == n
  {
  }

  lemma LineEndSkipped(r: Run, c: char)
    requires AtStart(r) && (c == CR || c == LF)
    ensures AtStart(Step(r, c)) && Step(r, c).parser.state == r.parser.state
  {
    hide Step, Transition;
    StartStays(r.parser, c);
    SimpleStep(r, c);
  }

  lemma StartStays(p: Parser, c: char)
    requires (p.state.StartReqOrRes? || p.state.StartReq?) && (c == CR || c == LF)
    ensures Transition(p, false, c) == Stay(p) && !ResetsCount(p.state)
  {
    hide FirstMethod;
  }

  lemma FirstRefused(r: Run, c: char)
    requires AtStart(r) && c != CR && c != LF && FirstMethod(c).None? && (c == 'H' ==> r.parser.state.StartReq?)
    ensures Step(r, c).control.Fail?
  {
    hide FirstMethod, Settle, Transition;
    var r0 := Count(r);
    StartRefuses(r.parser, c);
    SettleUnfold(r0, c);
    if r.parser.state.StartReqOrRes? {
      var r1 := Settled(r0, c);
      StartRefuses(r1.parser, c);
      SettleUnfold(r1, c);
    }
  }

  lemma StartRefuses(p: Parser, c: char)
    requires c != CR && c != LF && FirstMethod(c).None?
    ensures p.state.StartReq? ==> Transition(p, false, c).control.Fail?
    ensures p.state.StartReqOrRes? && c != 'H' ==>
      var o := Transition(p, false, c); o.control.Reexecute? && o.parser.state.StartReq? && !o.skipping
  {
    hide FirstMethod;
  }

  /** A byte inside a method. */
  lemma StandsMethod(start: Run, r: Run, s: string, c: char)
    requires MethodStands(start, r, s) && s != "" && r.control.Advance? && r.parser.state.ReqMethod? && c != ' '
    ensures MethodStands(start, Step(r, c), s + [c])
  {
    hide Step, MethodAfter, TransMethod, MethodString;
    MethodByteExact(r.parser, s, c);
    if MethodAfter(s + [c]).Some? {
      MethodStay(r.parser, c);
      MovedStep(r, c, TransMethod(r.parser, c).parser, false);
    } else {
      FailStep(r, c);
    }
  }

  lemma MethodStay(p: Parser, c: char)
    requires p.state.ReqMethod? && TransMethod(p, c).control.Advance?
    ensures Transition(p, false, c) == Outcome(TransMethod(p, c).parser, false, Nothing, Advance)
  {
    hide MethodString, SwitchMethod;
  }

  lemma FailStep(r: Run, c: char)
    requires r.control.Advance? && r.parser.state.ReqMethod? && TransMethod(r.parser, c).control.Fail? && !r.skipping
    ensures Step(r, c).control.Fail?
  {
    hide TransMethod;
  }

  /** A byte behind "H" where it may begin a response, and inside its protocol. */
  lemma StandsResponse(start: Run, r: Run, s: string, c: char)
    requires MethodStands(start, r, s) && s != "" && r.control.Advance? && !r.parser.state.ReqMethod? && c != ' '
    ensures MethodStands(start, Step(r, c), s + [c])
  {
    hide Step, MethodAfter;
    MethodAfterTwo('H', c);
    if s == "H" && r.parser.state.ResOrRespH? {
      assert s + [c] == ['H', c];
      AfterH(r, c);
    } else {
      assert (s + [c])[..2] == s[..2];
      HtIsNone(s + [c]);
      ProtocolByte(r, c);
    }
  }

  lemma AfterH(r: Run, c: char)
    requires r.control.Advance? && r.parser.state.ResOrRespH? && r.open.None? && !r.skipping
    ensures var r' := Step(r, c);
      if c == 'E' then
        r'.control.Advance? && r'.parser.state.ReqMethod? && r'.parser.verb == HEAD && r'.parser.index == 2 && r'.open.None? && !r'.skipping
      else if c == 'T' then r'.control.Advance? && r'.parser.state.ResHT? && r'.open.None? && !r'.skipping
      else r'.control.Fail?
    ensures MethodAfter(['H', c]) == if c == 'E' then Some(HEAD) else None
  {
    hide MethodAfter, Step, Transition;
    MethodAfterTwo('H', c);
    AfterHOutcome(r.parser, c);
    SimpleStep(r, c);
  }

  lemma AfterHOutcome(p: Parser, c: char)
    requires p.state.ResOrRespH?
    ensures var o := Transition(p, false, c);
      && o.op.Nothing? && !o.skipping && !ResetsCount(p.state)
      && if c == 'E' then o.control.Advance? && o.parser.state.ReqMethod? && o.parser.verb == HEAD && o.parser.index == 2
         else if c == 'T' then o.control.Advance? && o.parser.state.ResHT?
         else o.control.Fail?
  {
  }

  lemma {:induction false} HtIsNone(s: string)
    requires |s| > 1 && s[..2] == "HT"
    ensures MethodAfter(s).None?
  {
    hide MethodString, SwitchMethod, MethodAfter;
    if |s| == 2 {
      assert s == ['H', 'T'];
      NoHt();
    } else {
      var n := |s| - 1;
      assert s[..n][..2] == s[..2] && s == s[..n] + [s[n]];
      HtIsNone(s[..n]);
      NoneStays(s[..n], s[n]);
    }
  }

  lemma NoHt()
    ensures MethodAfter(['H', 'T']).None?
  {
    hide MethodAfter;
    MethodAfterTwo('H', 'T');
  }

  lemma ProtocolByte(r: Run, c: char)
    requires r.control.Advance? && IsProtocolState(r.parser.state) && r.open.None? && !r.skipping && c != ' '
    ensures var r' := Step(r, c);
      r'.control.Fail? || (r'.control.Advance? && IsProtocolState(r'.parser.state) && r'.open.None? && !r'.skipping)
  {
    hide Step, Transition;
    ProtocolOutcome(r.parser, c);
    SimpleStep(r, c);
  }

  lemma ProtocolOutcome(p: Parser, c: char)
    requires IsProtocolState(p.state) && c != ' '
    ensures var o := Transition(p, false, c);
      && o.op.Nothing? && !o.skipping && !ResetsCount(p.state)
      && (o.control.Fail? || (o.control.Advance? && IsProtocolState(o.parser.state)))
  {
  }

  /** A pass that is the only one and has nothing to deliver. */
  lemma SimpleStep(r: Run, c: char)
    requires r.control.Advance? && !r.skipping && r.open.None? && !ResetsCount(r.parser.state)
    requires var o := Transition(r.parser, false, c); o.op.Nothing? && !o.skipping && (o.control.Fail? || o.control.Advance?)
    ensures var o, s := Transition(r.parser, false, c), Step(r, c);
      s.control == o.control && s.parser == o.parser && s.open.None? && !s.skipping
  {
    hide Transition;
  }

  lemma {:induction false} StandsAlong(r: Run, s: string)
    requires AtStart(r) && ' ' !in s
    ensures MethodStands(r, RunBytes(r, s), SkipLineEnds(s))
  {
    hide Step, MethodAfter, MethodString, NoMethodState;
    if s != "" {
      var n := |s| - 1;
      var before, c := s[..n], s[n];
      assert c in s;
      assert s == before + [c];
      StandsAlong(r, before);
      SkipSnoc(before, c);
      var r0, t := RunBytes(r, before), SkipLineEnds(before);
      if t == "" {
        StandsFirst(r, r0, c);
        assert t + [c] == [c];
      } else if r0.control.Fail? {
        NoneStays(t, c);
        FailStays(r0, c);
      } else if r0.parser.state.ReqMethod? {
        StandsMethod(r, r0, t, c);
      } else {
        StandsResponse(r, r0, t, c);
      }
    }
  }

  lemma FailStays(r: Run, c: char)
    requires r.control.Fail?
    ensures Step(r, c) == r
  {
  }

  /** While a method is being read, the bytes seen are the first ones of the method held, as many as
      the index says. */
  lemma BytesSeen(r: Run, s: string)
    requires AtStart(r) && ' ' !in s && RunBytes(r, s).control.Advance? && RunBytes(r, s).parser.state.ReqMethod?
    ensures var p := RunBytes(r, s).parser;
      0 < p.index <= |MethodString(p.verb)| && SkipLineEnds(s) == MethodString(p.verb)[..p.index]
  {
    hide MethodString, MethodAfter, RunBytes;
    StandsAlong(r, s);
    var t := SkipLineEnds(s);
    MethodSound(t);
    assert t == MethodString(RunBytes(r, s).parser.verb)[..|t|];
  }

  /** The first blank. */
  lemma StandsBlank(start: Run, r: Run, s: string)
    requires MethodStands(start, r, s)
    ensures var r' := Step(r, ' ');
      r'.control.Advance? && r'.parser.state.ReqSpacesBeforeUrl? <==>
      s != "" && MethodAfter(s).Some? && s == MethodString(MethodAfter(s).value) && r.control.Advance? && r.parser.state.ReqMethod?
    ensures Step(r, ' ').control.Advance? && Step(r, ' ').parser.state.ReqSpacesBeforeUrl? ==> Step(r, ' ').parser.verb == r.parser.verb
  {
    hide Step, MethodAfter, TransMethod, MethodString;
    if s == "" {
      NoBlankMethod();
      FirstRefused(r, ' ');
    } else if r.control.Fail? {
      FailStays(r, ' ');
    } else if r.parser.state.ReqMethod? {
      MethodByteExact(r.parser, s, ' ');
      if TransMethod(r.parser, ' ').control.Advance? {
        MethodStay(r.parser, ' ');
        MovedStep(r, ' ', TransMethod(r.parser, ' ').parser, false);
      } else {
        FailStep(r, ' ');
      }
    } else {
      NoMethodBlank(start, r, s);
    }
  }

  lemma NoBlankMethod()
    ensures FirstMethod(' ').None?
  {
  }

  lemma NoMethodBlank(start: Run, r: Run, s: string)
    requires NoMethodState(start, r, s) && r.control.Advance? && r.open.None? && !r.skipping
    ensures !Step(r, ' ').parser.state.ReqSpacesBeforeUrl? || !Step(r, ' ').control.Advance?
  {
    hide Step, Transition;
    BlankOutcome(r.parser);
    SimpleStep(r, ' ');
  }

  lemma BlankOutcome(p: Parser)
    requires p.state.ResOrRespH? || IsProtocolState(p.state)
    ensures var o := Transition(p, false, ' ');
      && o.op.Nothing? && !o.skipping && !ResetsCount(p.state)
      && (o.control.Fail? || (o.control.Advance? && !o.parser.state.ReqSpacesBeforeUrl?))
  {
  }

  /** The machine accepts exactly the 33 methods: the bytes before the first blank, line ends before
      them left out, bring it to the URL exactly when they are a method of the table, and then the
      method it holds is that one. */
  lemma MethodsExactly(r: Run, s: string)
    requires AtStart(r) && ' ' !in s
    ensures var r' := RunBytes(r, s + " ");
      && (r'.control.Advance? && r'.parser.state.ReqSpacesBeforeUrl? <==> exists m :: SkipLineEnds(s) == MethodString(m))
      && (r'.control.Advance? && r'.parser.state.ReqSpacesBeforeUrl? ==> SkipLineEnds(s) == MethodString(r'.parser.verb))
  {
    hide RunBytes, MethodAfter, MethodString, Step, NoMethodState;
    var t := SkipLineEnds(s);
    StandsAlong(r, s);
    RunBytesAppend(r, s, " ");
    RunBytesOne(RunBytes(r, s), ' ');
    StandsBlank(r, RunBytes(r, s), t);
    if m :| t == MethodString(m) {
      MethodExact(t, m);
      WordStands(r, RunBytes(r, s), t, m);
    }
  }

  lemma WordStands(start: Run, r: Run, s: string, m: Method)
    requires MethodStands(start, r, s) && s == MethodString(m) && s != "" && MethodAfter(s) == Some(m)
    ensures r.control.Advance? && r.parser.state.ReqMethod?
  {
    hide MethodAfter;
    assert |s| > 1 && s != "H";
    if |s| > 1 && s[..2] == "HT" {
      HtIsNone(s);
    }
  }
}
