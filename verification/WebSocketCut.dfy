/** How one frame is cut into pieces does not matter. */
module WebSocketCuts {
  import opened WebSocketParsers

  /** The parser after it has taken the bytes and looked at the header. */
  function Looked(s: State, data: Bytes): (r: State)
    requires StateOk(s)
    ensures r.offset <= |r.inputCache| && r.inputCache == s.inputCache + data
  {
    var s1 := s.(inputCache := s.inputCache + data);
    if s1.headerComplete then s1 else Header(s1).0.(headerComplete := Header(s1).1)
  }

  /** The call takes a frame's payload, and throws away what is left in the cache. */
  predicate Finishes(s: State, data: Bytes)
    requires StateOk(s)
  {
    data != [] && var t := Looked(s, data); t.headerComplete && IsValidFrame(t) && Ready(t)
  }

  lemma ParsedLooked(s: State, data: Bytes)
    requires StateOk(s) && data != []
    ensures var t := Looked(s, data);
      if Finishes(s, data) then |t.maskKey| == 4 && Parsed(s, data) == (ProcessPayload(t), true)
      else Parsed(s, data) == (t, !t.headerComplete || IsValidFrame(t))
  {
    hide Header, Masked;
    KeyLength(s.(inputCache := s.inputCache + data));
  }

  /** Looking twice is looking once at both pieces. */
  lemma LookedTwice(s: State, a: Bytes, b: Bytes)
    requires StateOk(s) && StateOk(Looked(s, a))
    ensures Looked(Looked(s, a), b) == Looked(s, a + b)
  {
    hide Header;
    var s1 := s.(inputCache := s.inputCache + a);
    assert s1.inputCache + b == s.inputCache + (a + b);
    if !s.headerComplete {
      var h := Header(s1);
      if h.1 {
        HeaderStays(s1, b);
      } else {
        HeaderAgain(s1, b);
        HeaderIgnoresFlag(h.0.(inputCache := h.0.inputCache + b), s.headerComplete);
      }
    }
  }

  lemma HeaderIgnoresFlag(s: State, flag: bool)
    ensures Header(s.(headerComplete := flag)) == (Header(s).0.(headerComplete := flag), Header(s).1)
    ensures Header(s).0.headerComplete == s.headerComplete
  {
    hide LengthOf, BigEndian;
  }

  /** Two pieces do what one does, unless the first already finishes a frame. */
  lemma TwoPieces(s: State, a: Bytes, b: Bytes)
    requires StateOk(s) && |s.inputCache| + |a| < TWO64 / 2 && a != [] && b != [] && !Finishes(s, a)
    ensures StateOk(Parsed(s, a).0) && Parsed(Parsed(s, a).0, b) == Parsed(s, a + b)
  {
    hide Looked, IsValidFrame, ProcessPayload, Ready, StateOk, Parsed;
    ParsedKeeps(s, a);
    ParsedLooked(s, a);
    ParsedLooked(s, a + b);
    ParsedLooked(Looked(s, a), b);
    LookedTwice(s, a, b);
  }

  /** When the first piece finishes a frame, one call would throw the second piece away. */
  lemma FinishedDrops(s: State, a: Bytes)
    requires StateOk(s) && |s.inputCache| + |a| < TWO64 / 2 && Finishes(s, a)
    ensures StateOk(Parsed(s, a).0) && Parsed(Parsed(s, a).0, [0]) != Parsed(s, a + [0])
  {
    hide Masked, LengthOf, BigEndian;
    ParsedKeeps(s, a);
    ParsedLooked(s, a);
    ParsedLooked(s, a + [0]);
    LookedMore(s, a, [0]);
    assert Parsed(s, a + [0]).0.inputCache == [];
    var t := Parsed(s, a).0;
    ParsedLooked(t, [0]);
    assert t.inputCache == [] && [] + [0] == [0];
    assert !Looked(t, [0]).headerComplete;
  }

  lemma LookedMore(s: State, a: Bytes, b: Bytes)
    requires StateOk(s) && Finishes(s, a)
    ensures Finishes(s, a + b)
  {
    hide Header;
    var s1 := s.(inputCache := s.inputCache + a);
    assert s1.inputCache + b == s.inputCache + (a + b);
    if !s.headerComplete {
      HeaderStays(s1, b);
    }
  }

  /** A cut after `a` goes unnoticed, whatever follows, exactly when `a` does not finish a frame. */
  lemma CutExact(s: State, a: Bytes)
    requires StateOk(s) && |s.inputCache| + |a| < TWO64 / 2 && a != []
    ensures StateOk(Parsed(s, a).0)
    ensures !Finishes(s, a) <==> forall b: Bytes | b != [] :: Parsed(Parsed(s, a).0, b) == Parsed(s, a + b)
  {
    hide Parsed, StateOk, Finishes;
    ParsedKeeps(s, a);
    if Finishes(s, a) {
      FinishedDrops(s, a);
      assert [0] != [];
    } else {
      forall b: Bytes | b != []
        ensures Parsed(Parsed(s, a).0, b) == Parsed(s, a + b)
      {
        TwoPieces(s, a, b);
      }
    }
  }

  // ---- One frame in pieces ------------------------------------------------------------------

  function Joined(pieces: seq<Bytes>): Bytes {
    if pieces == [] then [] else Joined(pieces[..|pieces| - 1]) + pieces[|pieces| - 1]
  }

  /** Piece after piece, as long as the parser accepts them: the state, and the last verdict. */
  function FedPieces(s: State, pieces: seq<Bytes>): (r: (State, bool))
    requires StateOk(s) && |s.inputCache| + |Joined(pieces)| < TWO64 / 2
    ensures StateOk(r.0) && |r.0.inputCache| <= |s.inputCache| + |Joined(pieces)|
  {
    if pieces == [] then (s, true)
    else
      var before := FedPieces(s, pieces[..|pieces| - 1]).0;
      ParsedKeeps(before, pieces[|pieces| - 1]);
      CacheGrows(before, pieces[|pieces| - 1]);
      Parsed(before, pieces[|pieces| - 1])
  }

  lemma CacheGrows(s: State, data: Bytes)
    requires StateOk(s)
    ensures |Parsed(s, data).0.inputCache| <= |s.inputCache| + |data|
  {
    hide Masked;
  }

  /** No beginning of the bytes finishes a frame; the whole may. */
  ghost predicate NoEarlyEnd(s: State, data: Bytes)
    requires StateOk(s)
  {
    forall i: nat | i < |data| :: !Finishes(s, data[..i])
  }

  lemma {:induction false} PiecesTogether(s: State, pieces: seq<Bytes>)
    requires StateOk(s) && |s.inputCache| + |Joined(pieces)| < TWO64 / 2
    requires pieces != [] && (forall i | 0 <= i < |pieces| :: pieces[i] != []) && NoEarlyEnd(s, Joined(pieces))
    ensures FedPieces(s, pieces) == Parsed(s, Joined(pieces))
  {
    hide Parsed, Finishes, StateOk;
    var n := |pieces| - 1;
    var before, last := pieces[..n], pieces[n];
    var a := Joined(before);
    if n == 0 {
      assert before == [] && [] + last == last;
    } else {
      JoinedNotEmpty(before);
      assert Joined(pieces)[..|a|] == a;
      forall i: nat | i < |a|
        ensures !Finishes(s, a[..i])
      {
        assert Joined(pieces)[..i] == a[..i];
      }
      PiecesTogether(s, before);
      TwoPieces(s, a, last);
    }
  }

  lemma JoinedNotEmpty(pieces: seq<Bytes>)
    requires pieces != [] && forall i | 0 <= i < |pieces| :: pieces[i] != []
    ensures Joined(pieces) != []
  {
  }

  /** Between frames. */
  predicate AtFrame(s: State) { StateOk(s) && s.inputCache == [] && !s.headerComplete }

  /** The bytes are one frame, from its first byte to its last. */
  predicate IsOneFrame(f: Bytes) { Stage(f) == 4 && |f| == HeaderEnd(f) + LengthOf(f) }

  lemma FrameEndsLast(s: State, f: Bytes)
    requires AtFrame(s) && IsOneFrame(f)
    ensures NoEarlyEnd(s, f)
  {
    forall i: nat | i < |f|
      ensures !Finishes(s, f[..i])
    {
      NotFinishedBefore(s, f[..i], f[i..]);
      assert f[..i] + f[i..] == f;
    }
  }

  lemma NotFinishedBefore(s: State, a: Bytes, b: Bytes)
    requires AtFrame(s) && b != []
    ensures IsOneFrame(a + b) ==> !Finishes(s, a)
  {
    hide BigEndian;
    assert [] + a == a;
    HeaderPrefix(a, b);
  }

  /** Any cut of one frame into pieces leaves the parser in the state, and with the verdict, that
      the frame in one piece leaves. */
  lemma CutAnywhere(s: State, pieces: seq<Bytes>)
    requires AtFrame(s) && |Joined(pieces)| < TWO64 / 2 && IsOneFrame(Joined(pieces))
    requires forall i | 0 <= i < |pieces| :: pieces[i] != []
    ensures FedPieces(s, pieces) == Parsed(s, Joined(pieces))
  {
    hide IsOneFrame, Parsed;
    FrameEndsLast(s, Joined(pieces));
    assert pieces == [] ==> !IsOneFrame(Joined(pieces)) by { EmptyIsNoFrame(); }
    PiecesTogether(s, pieces);
  }

  lemma EmptyIsNoFrame()
    ensures !IsOneFrame(Joined([]))
  {
  }
}
