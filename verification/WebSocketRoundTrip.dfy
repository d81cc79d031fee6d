/** What a client's encoder sends, the parser puts together again. */
module WebSocketRoundTrip {
  import opened WebSocketParsers
  import opened WebSocketCuts
  import opened WebSocketEncoders

  type MaskKey = b: Bytes | |b| == 4 witness [0, 0, 0, 0]

  // ---- One frame ---------------------------------------------------------------------------

  predicate IsOpCode(op: int) { op == CONTINUE || op == TEXT || op == BINARY || op == CLOSE || op == PING || op == PONG }

  /** The lengths whose frames say what they hold. */
  predicate IsSound(n: nat) { n <= 0xFFFF && n != 126 }

  /** The parser after a frame. */
  function Received(s: State, fin: bool, op: int, payload: Bytes, key: MaskKey): State {
    State(fin, false, false, op, 0, 0, key, [], s.payload + payload)
  }

  /** What can be received at all. */
  predicate Receivable(s: State, op: int, n: nat) {
    AtFrame(s) && IsOpCode(op) && (op == CONTINUE ==> s.payload != []) && |s.payload| + n <= MAX_LENGTH
  }

  lemma TwoBytes(n: nat)
    requires n <= 0xFFFF
    ensures BigEndian([n / 256, n % 256]) == n
  {
    var b: Bytes := [n / 256, n % 256];
    assert b[..1] == [n / 256] && b[..1][..0] == [];
    assert BigEndian(b[..1]) == n / 256;
  }

  /** The two halves of a sound length field: its first byte, and what follows. */
  lemma SoundField(n: nat)
    requires IsSound(n)
    ensures var field := LengthField(n, true);
      if n > 126 then field == [254, n / 256, n % 256] else field == [128 + n]
  {
  }

  /** A header with a length of two bytes, or of none. */
  lemma FieldRead(f: Bytes, n: nat)
    requires IsSound(n) && |f| >= (if n > 126 then 4 else 2)
    requires if n > 126 then f[1] == 254 && f[2] == n / 256 && f[3] == n % 256 else f[1] == 128 + n
    ensures HasKey(f) && LengthEnd(f) == (if n > 126 then 4 else 2) && LengthOf(f) == n
  {
    hide BigEndian;
    if n > 126 {
      assert f[2..4] == [n / 256, n % 256];
      TwoBytes(n);
    }
  }

  /** Where the parts of a frame stand. */
  lemma FrameParts(first: Byte, field: Bytes, key: Bytes, body: Bytes)
    requires |key| == 4
    ensures var f, e := [first] + field + (key + body), 1 + |field|;
      && |f| == e + 4 + |body| && f[0] == first && (forall i | 0 <= i < |field| :: f[1 + i] == field[i])
      && f[e..e + 4] == key && f[e + 4..] == body
  {
  }

  /** The header of a sound frame, read back. */
  lemma FrameShape(fin: bool, op: int, payload: Bytes, key: MaskKey)
    requires IsOpCode(op) && IsSound(|payload|)
    ensures var f := Frame(fin, op, payload, true, key);
      && IsOneFrame(f) && HasKey(f) && LengthOf(f) == |payload|
      && f[0] % 16 == op && (f[0] >= 128 <==> fin)
      && f[LengthEnd(f)..HeaderEnd(f)] == key && f[HeaderEnd(f)..] == Masked(payload, key)
  {
    hide Masked, BigEndian, LengthField, LengthOf;
    var n := |payload|;
    var f, field := Frame(fin, op, payload, true, key), LengthField(n, true);
    SoundField(n);
    FrameParts((if fin then 128 else 0) + op, field, key, Masked(payload, key));
    assert f[1] == field[0] && (n > 126 ==> f[2] == field[1] && f[3] == field[2]);
    FieldRead(f, n);
  }

  /** A sound frame, in one piece, adds its payload and completes the message if it is the last. */
  lemma FrameRead(s: State, fin: bool, op: int, payload: Bytes, key: MaskKey)
    requires Receivable(s, op, |payload|) && IsSound(|payload|)
    ensures var f := Frame(fin, op, payload, true, key);
      Parsed(s, f) == (Received(s, fin, op, payload, key), true) && IsOneFrame(f)
  {
    hide Masked, BigEndian, LengthField, Frame, LengthEnd, Looked, ProcessPayload;
    var f := Frame(fin, op, payload, true, key);
    FrameShape(fin, op, payload, key);
    ParsedLooked(s, f);
    FrameLooked(s, fin, op, payload, key);
    FrameProcessed(Looked(s, f), s, fin, op, payload, key);
  }

  predicate ReadHeader(t: State, s: State, fin: bool, op: int, payload: Bytes, key: MaskKey) {
    && t.headerComplete && t.fin == fin && t.opCode == op && t.payloadLen == |payload| && t.maskKey == key
    && t.payload == s.payload && t.complete == s.complete
    && t.offset + |payload| == |t.inputCache| && t.inputCache[t.offset..] == Masked(payload, key)
  }

  lemma FrameLooked(s: State, fin: bool, op: int, payload: Bytes, key: MaskKey)
    requires Receivable(s, op, |payload|) && IsSound(|payload|)
    ensures ReadHeader(Looked(s, Frame(fin, op, payload, true, key)), s, fin, op, payload, key)
  {
    hide Masked, BigEndian, LengthField, Frame, LengthEnd, LengthOf;
    var f := Frame(fin, op, payload, true, key);
    FrameShape(fin, op, payload, key);
    assert [] + f == f;
  }

  lemma FrameProcessed(t: State, s: State, fin: bool, op: int, payload: Bytes, key: MaskKey)
    requires ReadHeader(t, s, fin, op, payload, key) && Receivable(s, op, |payload|)
    ensures IsValidFrame(t) && Ready(t) && ProcessPayload(t) == Received(s, fin, op, payload, key)
  {
    hide Masked;
    assert t.inputCache[t.offset..t.offset + t.payloadLen] == t.inputCache[t.offset..];
    MaskedTwice(payload, key);
  }

  // ---- The other frames ---------------------------------------------------------------------

  /** The payload of a call that does not add what was sent. */
  predicate GivesFrame(s: State, f: Bytes, payload: Bytes)
    requires StateOk(s)
  {
    Parsed(s, f).0.inputCache == [] && Parsed(s, f).0.payload == s.payload + payload
  }

  /** A frame that finishes adds as many bytes as its header says, and these were there. */
  lemma FinishedAdds(s: State, f: Bytes)
    requires AtFrame(s) && f != [] && Parsed(s, f).0.inputCache == []
    ensures Stage(f) == 4 && HeaderEnd(f) + LengthOf(f) <= |f|
    ensures |Parsed(s, f).0.payload| == |s.payload| + LengthOf(f)
  {
    hide BigEndian, Masked;
    assert [] + f == f;
    ParsedLooked(s, f);
  }

  /** 126 bytes are announced by the marker of a longer field, and the key is taken for the length. */
  lemma Frame126(fin: bool, op: int, payload: Bytes, key: MaskKey)
    requires IsOpCode(op) && |payload| == 126
    ensures var f := Frame(fin, op, payload, true, key);
      f != [] && (Stage(f) == 4 ==> |f| - HeaderEnd(f) == 124)
  {
    hide Masked, BigEndian;
    var f := Frame(fin, op, payload, true, key);
    assert |f| == 132;
    assert f[1] == 254;
  }

  /** Of eight length bytes only four are there: the key is taken for the others. */
  lemma FrameLong(fin: bool, op: int, payload: Bytes, key: MaskKey)
    requires IsOpCode(op) && 0xFFFF < |payload| <= MAX_LENGTH
    ensures var f := Frame(fin, op, payload, true, key);
      f != [] && (Stage(f) == 4 ==> |f| - HeaderEnd(f) == |payload| - 4)
  {
    hide Masked, BigEndian;
    var f := Frame(fin, op, payload, true, key);
    assert |f| == 2 + 4 + 4 + |payload|;
    assert f[1] == 255;
  }

  /** A frame gives its payload back exactly when its length is at most 65535 and not 126, whatever
      the payload and the key. */
  lemma FrameExact(s: State, fin: bool, op: int, payload: Bytes, key: MaskKey)
    requires Receivable(s, op, |payload|)
    ensures GivesFrame(s, Frame(fin, op, payload, true, key), payload) <==> IsSound(|payload|)
  {
    hide Masked, BigEndian, Frame, Parsed, HeaderEnd, LengthOf, Stage;
    var f := Frame(fin, op, payload, true, key);
    if IsSound(|payload|) {
      FrameRead(s, fin, op, payload, key);
    } else {
      if |payload| == 126 {
        Frame126(fin, op, payload, key);
      } else {
        FrameLong(fin, op, payload, key);
      }
      if Parsed(s, f).0.inputCache == [] {
        FinishedAdds(s, f);
      }
    }
  }

  /** A server's frames are not masked, and the parser refuses every one. */
  lemma ServerFrameRefused(s: State, fin: bool, op: int, payload: Bytes, key: MaskKey)
    requires Receivable(s, op, |payload|) && IsSound(|payload|)
    ensures !Parsed(s, Frame(fin, op, payload, false, key)).1
  {
    hide Frame, IsValidFrame;
    var f := Frame(fin, op, payload, false, key);
    assert [] + f == f;
    ServerShape(fin, op, payload, key);
    ParsedLooked(s, f);
    NoKey(Looked(s, f));
  }

  lemma ServerShape(fin: bool, op: int, payload: Bytes, key: MaskKey)
    requires IsOpCode(op) && IsSound(|payload|)
    ensures var f := Frame(fin, op, payload, false, key); f != [] && Stage(f) == 4 && !HasKey(f)
  {
    hide BigEndian, Masked;
    var f := Frame(fin, op, payload, false, key);
    var field := LengthField(|payload|, false);
    assert |f| == 1 + |field| + |payload| && f[1] == field[0];
  }

  lemma NoKey(t: State)
    requires t.maskKey == []
    ensures !IsValidFrame(t)
  {
  }

  // ---- A message ------------------------------------------------------------------------------

  /** The frames sent until the encoder says that it is complete. */
  function FramesFrom(e: Encoder, keys: nat -> MaskKey, k: nat): seq<Bytes>
    requires EncoderOk(e) && e.frameSize > 0 && e.len < TWO64
    decreases e.len - e.offset
  {
    if e.offset == e.len then []
    else
      var next := Encoded(e, keys(k));
      [next.outputBuf] + FramesFrom(next, keys, k + 1)
  }

  /** No frame of a message of `n` bytes is unsound. */
  predicate SoundFrames(n: nat, frameSize: nat)
    requires frameSize > 0
  {
    frameSize <= 0xFFFF && (n >= frameSize ==> frameSize != 126) && n % frameSize != 126
  }

  /** Each frame, cut into pieces. */
  ghost predicate AreCuts(cuts: seq<seq<Bytes>>, frames: seq<Bytes>) {
    && |cuts| == |frames|
    && forall i | 0 <= i < |cuts| :: Joined(cuts[i]) == frames[i] && NoneEmpty(cuts[i])
  }

  predicate NoneEmpty(pieces: seq<Bytes>) { forall i | 0 <= i < |pieces| :: pieces[i] != [] }

  /** All the pieces, frame after frame. */
  function AllPieces(cuts: seq<seq<Bytes>>): seq<Bytes> {
    if cuts == [] then [] else cuts[0] + AllPieces(cuts[1..])
  }

  lemma {:induction false} JoinedAppend(a: seq<Bytes>, b: seq<Bytes>)
    ensures Joined(a + b) == Joined(a) + Joined(b)
    decreases |b|
  {
    if b == [] {
      assert a + b == a;
    } else {
      var n := |b| - 1;
      assert (a + b)[..|a + b| - 1] == a + b[..n];
      JoinedAppend(a, b[..n]);
    }
  }

  lemma {:induction false} FedAppend(s: State, a: seq<Bytes>, b: seq<Bytes>)
    requires StateOk(s) && |s.inputCache| + |Joined(a + b)| < TWO64 / 2
    ensures Joined(a + b) == Joined(a) + Joined(b)
    ensures b != [] ==> FedPieces(s, a + b) == FedPieces(FedPieces(s, a).0, b)
    decreases |b|
  {
    hide Parsed, StateOk;
    JoinedAppend(a, b);
    if b != [] {
      var n := |b| - 1;
      assert (a + b)[..|a + b| - 1] == a + b[..n];
      JoinedAppend(a, b[..n]);
      FedAppend(s, a, b[..n]);
      if b[..n] == [] {
        assert a + b[..n] == a;
      }
    }
  }

  /** The parser between the frames of a message, the encoder being at `e`. */
  predicate Between(s: State, e: Encoder) {
    && AtFrame(s) && EncoderOk(e) && e.isClient && e.frameSize > 0 && |s.payload| + |e.data| <= MAX_LENGTH && e.len < TWO64
    && IsOpCode(OpCodeNow(e)) && (if e.offset == 0 then e.opCode != CONTINUE else s.payload != [])
  }

  /** One frame of a message, in pieces. */
  lemma FrameInPieces(s: State, e: Encoder, key: MaskKey, pieces: seq<Bytes>)
    requires Between(s, e) && e.offset < e.len && SoundFrames(|e.data|, e.frameSize)
    requires Joined(pieces) == Encoded(e, key).outputBuf && NoneEmpty(pieces) && |Joined(pieces)| < TWO64 / 2
    ensures var n := SizeNow(e);
      var r := FedPieces(s, pieces);
      && r == (Received(s, IsLast(e), OpCodeNow(e), e.data[..n], key), true)
      && 0 < n && Between(r.0, Encoded(e, key)) && SoundFrames(|Encoded(e, key).data|, e.frameSize)
      && (IsLast(e) <==> |e.data| < e.frameSize) && IsOneFrame(Joined(pieces))
  {
    hide Frame, Parsed, Joined;
    var n := SizeNow(e);
    assert IsSound(n) by { SizeSound(e); }
    FrameRead(s, IsLast(e), OpCodeNow(e), e.data[..n], key);
    CutAnywhere(s, pieces);
    if !IsLast(e) {
      ModuloStep(|e.data|, e.frameSize);
    }
  }

  lemma SizeSound(e: Encoder)
    requires EncoderOk(e) && e.frameSize > 0 && SoundFrames(|e.data|, e.frameSize) && e.offset < e.len
    ensures IsSound(SizeNow(e)) && SizeNow(e) > 0
  {
    hide SoundFrames;
    SoundSizes(|e.data|, e.frameSize);
  }

  /** Both sizes a frame can have. */
  lemma SoundSizes(n: nat, frameSize: nat)
    requires frameSize > 0 && SoundFrames(n, frameSize)
    ensures n >= frameSize ==> IsSound(frameSize)
    ensures n < frameSize ==> IsSound(n)
  {
    if n < frameSize {
      SmallModulo(n, frameSize);
    }
  }

  lemma SmallModulo(n: nat, k: nat)
    requires n < k
    ensures n % k == n
  {
  }

  lemma ModuloStep(n: nat, k: nat)
    requires 0 < k <= n
    ensures (n - k) % k == n % k
  {
    assert n % k == (n - k) % k by { ModuloAdd(n - k, k); }
  }

  lemma ModuloAdd(m: nat, k: nat)
    requires 0 < k
    ensures (m + k) % k == m % k
  {
    var q := m / k;
    assert (q + 1) * k == q * k + k;
    DivisionUnique(m + k, k, q + 1, m % k);
  }

  lemma DivisionUnique(x: nat, k: nat, q: nat, r: nat)
    requires 0 < k && x == q * k + r && r < k
    ensures x % k == r
  {
    var q2, r2 := x / k, x % k;
    assert x == q2 * k + r2;
    if q > q2 {
      MultipleGrows(q2, q, k);
    } else if q < q2 {
      MultipleGrows(q, q2, k);
    }
  }

  lemma MultipleGrows(a: nat, b: nat, k: nat)
    requires a < b
    ensures a * k + k <= b * k
  {
    assert (b - a - 1) * k >= 0;
    assert b * k == a * k + k + (b - a - 1) * k;
  }

  /** Before its last piece a frame changes neither the payload nor whether the message is complete. */
  lemma PartOfFrame(s: State, pieces: seq<Bytes>, j: nat)
    requires AtFrame(s) && NoneEmpty(pieces) && IsOneFrame(Joined(pieces)) && |Joined(pieces)| < TWO64 / 2 && j < |pieces|
    ensures |Joined(pieces[..j])| < TWO64 / 2
    ensures FedPieces(s, pieces[..j]).0.complete == s.complete
  {
    hide Parsed, Looked;
    var a, b := pieces[..j], pieces[j..];
    assert pieces == a + b;
    JoinedAppend(a, b);
    JoinedNotEmpty(b);
    if j > 0 {
      JoinedNotEmpty(a);
      FrameEndsLast(s, Joined(pieces));
      var whole, part := Joined(pieces), Joined(a);
      assert whole[..|part|] == part;
      forall i: nat | i < |part|
        ensures !Finishes(s, part[..i])
      {
        assert part[..i] == whole[..i];
      }
      PiecesTogether(s, a);
      ParsedLooked(s, part);
      LookedComplete(s, part);
    }
  }

  lemma LookedComplete(s: State, data: Bytes)
    requires StateOk(s)
    ensures Looked(s, data).complete == s.complete
  {
    hide LengthOf;
  }

  /** The round trip: the frames of a message, each in arbitrary pieces, give the message back.  The
      parser is complete after the last piece, and not before, exactly when the length is not a
      multiple of the frame size: otherwise no frame is marked as the last. */
  lemma {:induction false} MessageRoundTrip(s: State, e: Encoder, keys: nat -> MaskKey, k: nat, cuts: seq<seq<Bytes>>)
    requires Between(s, e) && SoundFrames(|e.data|, e.frameSize) && !s.complete
    requires AreCuts(cuts, FramesFrom(e, keys, k)) && |Joined(AllPieces(cuts))| < TWO64 / 2
    ensures var r := FedPieces(s, AllPieces(cuts));
      && r.0.payload == s.payload + e.data && r.1
      && (r.0.complete <==> |e.data| % e.frameSize != 0)
    ensures forall j: nat | j < |AllPieces(cuts)| ::
      |Joined(AllPieces(cuts)[..j])| < TWO64 / 2 && !FedPieces(s, AllPieces(cuts)[..j]).0.complete
    decreases e.len - e.offset
  {
    hide Parsed, Encoded, StateOk, IsOneFrame, SoundFrames, FedPieces, Joined, Received;
    if e.offset == e.len {
      NoPieces(s);
      assert e.data == [] && s.payload + e.data == s.payload;
      assert 0 % e.frameSize == 0;
    } else {
      var first, rest := cuts[0], AllPieces(cuts[1..]);
      var next := Encoded(e, keys(k));
      JoinedAppend(first, rest);
      EncodedIs(e, keys(k));
      FrameInPieces(s, e, keys(k), first);
      CutsRest(e, keys, k, cuts);
      if IsLast(e) {
        LastFrame(e, keys(k));
        LastCut(s, e, keys(k), first, rest);
      } else {
        FrameSent(s, e, keys(k), first);
        MessageRoundTrip(FedPieces(s, first).0, next, keys, k + 1, cuts[1..]);
        FrameThenRest(s, e, keys(k), first, rest);
      }
    }
  }

  lemma NoPieces(s: State)
    requires StateOk(s) && |s.inputCache| < TWO64 / 2
    ensures |Joined([])| == 0 && FedPieces(s, []) == (s, true)
  {
  }

  lemma CutsRest(e: Encoder, keys: nat -> MaskKey, k: nat, cuts: seq<seq<Bytes>>)
    requires EncoderOk(e) && e.frameSize > 0 && e.len < TWO64 && e.offset < e.len && AreCuts(cuts, FramesFrom(e, keys, k))
    ensures var next := Encoded(e, keys(k));
      EncoderOk(next) && next.frameSize > 0 && next.len < TWO64 && AreCuts(cuts[1..], FramesFrom(next, keys, k + 1))
  {
    hide Frame, Joined;
    assert FramesFrom(e, keys, k)[1..] == FramesFrom(Encoded(e, keys(k)), keys, k + 1);
  }

  /** What one frame adds. */
  lemma FrameSent(s: State, e: Encoder, key: MaskKey, pieces: seq<Bytes>)
    requires Between(s, e) && e.offset < e.len && !IsLast(e) && |s.inputCache| + |Joined(pieces)| < TWO64 / 2
    requires FedPieces(s, pieces) == (Received(s, IsLast(e), OpCodeNow(e), e.data[..SizeNow(e)], key), true)
    ensures var s1 := FedPieces(s, pieces).0; !s1.complete && s1.inputCache == [] && s1.payload == s.payload + e.data[..SizeNow(e)]
  {
    hide FedPieces, Joined;
  }

  lemma LastCut(s: State, e: Encoder, key: MaskKey, first: seq<Bytes>, rest: seq<Bytes>)
    requires Between(s, e) && e.offset < e.len && IsLast(e) && !s.complete && rest == [] && |Joined(first)| < TWO64 / 2
    requires NoneEmpty(first) && IsOneFrame(Joined(first))
    requires FedPieces(s, first) == (Received(s, IsLast(e), OpCodeNow(e), e.data[..SizeNow(e)], key), true)
    ensures first + rest == first
    ensures var r := FedPieces(s, first); r.0.payload == s.payload + e.data && r.1 && (r.0.complete <==> |e.data| % e.frameSize != 0)
    ensures forall j: nat | j < |first| :: |Joined(first[..j])| < TWO64 / 2 && !FedPieces(s, first[..j]).0.complete
  {
    hide FedPieces, Joined, IsOneFrame, StateOk;
    assert e.data[..SizeNow(e)] == e.data;
    assert |e.data| % e.frameSize == |e.data|;
    forall j: nat | j < |first|
      ensures |Joined(first[..j])| < TWO64 / 2 && !FedPieces(s, first[..j]).0.complete
    {
      PartOfFrame(s, first, j);
    }
  }

  lemma FrameThenRest(s: State, e: Encoder, key: MaskKey, first: seq<Bytes>, rest: seq<Bytes>)
    requires Between(s, e) && e.offset < e.len && !IsLast(e) && !s.complete && |Joined(first + rest)| < TWO64 / 2
    requires |Joined(first)| < TWO64 / 2 && |Joined(rest)| < TWO64 / 2 && NoneEmpty(first) && IsOneFrame(Joined(first))
    requires var s1 := FedPieces(s, first).0;
      && FedPieces(s, first).1 && !s1.complete && s1.inputCache == [] && s1.payload == s.payload + e.data[..SizeNow(e)]
      && var r := FedPieces(s1, rest);
         && r.0.payload == s1.payload + e.data[SizeNow(e)..] && r.1
         && (r.0.complete <==> |e.data[SizeNow(e)..]| % e.frameSize != 0)
         && forall j: nat | j < |rest| :: |Joined(rest[..j])| < TWO64 / 2 && !FedPieces(s1, rest[..j]).0.complete
    ensures var r := FedPieces(s, first + rest);
      r.0.payload == s.payload + e.data && r.1 && (r.0.complete <==> |e.data| % e.frameSize != 0)
    ensures forall j: nat | j < |first + rest| ::
      |Joined((first + rest)[..j])| < TWO64 / 2 && !FedPieces(s, (first + rest)[..j]).0.complete
  {
    hide FedPieces, Joined, IsOneFrame, StateOk;
    ModuloStep(|e.data|, e.frameSize);
    assert e.data[..SizeNow(e)] + e.data[SizeNow(e)..] == e.data;
    assert s.payload + e.data[..SizeNow(e)] + e.data[SizeNow(e)..] == s.payload + e.data;
    FedAppend(s, first, rest);
    if rest == [] {
      assert first + rest == first;
      NoPieces(FedPieces(s, first).0);
    }
    forall j: nat | j < |first + rest|
      ensures |Joined((first + rest)[..j])| < TWO64 / 2 && !FedPieces(s, (first + rest)[..j]).0.complete
    {
      NotCompleteBefore(s, first, rest, j);
    }
  }

  lemma EncodedIs(e: Encoder, key: MaskKey)
    requires EncoderOk(e) && e.len < TWO64
    ensures var n := Encoded(e, key);
      n.data == e.data[SizeNow(e)..] && n.offset == e.offset + SizeNow(e) && n.len == e.len && n.frameSize == e.frameSize
      && n.isClient == e.isClient
  {
    hide Frame;
  }

  lemma LastFrame(e: Encoder, key: MaskKey)
    requires EncoderOk(e) && e.len < TWO64 && IsLast(e)
    ensures Encoded(e, key).offset == e.len
  {
    hide Frame;
  }

  /** Either still in the first frame, or behind it. */
  lemma NotCompleteBefore(s: State, first: seq<Bytes>, rest: seq<Bytes>, j: nat)
    requires AtFrame(s) && !s.complete && NoneEmpty(first) && |Joined(first + rest)| < TWO64 / 2 && j < |first + rest|
    requires |Joined(first)| < TWO64 / 2 && IsOneFrame(Joined(first))
    requires var s1 := FedPieces(s, first).0;
      && |s1.inputCache| + |Joined(rest)| < TWO64 / 2
      && (rest != [] ==> !s1.complete && s1.inputCache == [])
      && forall i: nat | i < |rest| :: |Joined(rest[..i])| < TWO64 / 2 && !FedPieces(s1, rest[..i]).0.complete
    ensures |Joined((first + rest)[..j])| < TWO64 / 2 && !FedPieces(s, (first + rest)[..j]).0.complete
  {
    hide Parsed, IsOneFrame, StateOk;
    var all := first + rest;
    assert all == all[..j] + all[j..];
    JoinedAppend(all[..j], all[j..]);
    if j < |first| {
      assert all[..j] == first[..j];
      PartOfFrame(s, first, j);
    } else {
      var i := j - |first|;
      assert all[..j] == first + rest[..i];
      FedAppend(s, first, rest[..i]);
      if i == 0 {
        assert all[..j] == first;
      }
    }
  }

  /** One frame, in one piece. */
  lemma FrameWhole(s: State, e: Encoder, key: MaskKey)
    requires Between(s, e) && e.offset < e.len && SoundFrames(|e.data|, e.frameSize)
    ensures var f, n := Encoded(e, key).outputBuf, SizeNow(e);
      && |f| < TWO64 / 2
      && Parsed(s, f) == (Received(s, IsLast(e), OpCodeNow(e), e.data[..n], key), true)
      && 0 < n && Between(Parsed(s, f).0, Encoded(e, key)) && SoundFrames(|Encoded(e, key).data|, e.frameSize)
      && (IsLast(e) <==> |e.data| < e.frameSize)
  {
    hide Parsed, StateOk, Received;
    var f := Encoded(e, key).outputBuf;
    OnePiece(s, f);
    FrameLength(e, key);
    FrameInPieces(s, e, key, [f]);
  }

  lemma OnePiece(s: State, f: Bytes)
    requires AtFrame(s) && |f| < TWO64 / 2
    ensures Joined([f]) == f && FedPieces(s, [f]) == Parsed(s, f)
  {
    hide Parsed;
    var pieces: seq<Bytes> := [f];
    assert pieces[..0] == [] && [] + f == f;
  }

  lemma FrameLength(e: Encoder, key: MaskKey)
    requires EncoderOk(e) && e.len < TWO64 && |e.data| <= MAX_LENGTH
    ensures 0 < |Encoded(e, key).outputBuf| < TWO64 / 2
  {
    hide Masked;
  }

  /** Frame after frame, until the encoder is complete. */
  method Transfer(encoder: WebSocketEncoder, parser: WebSocketParser, keys: nat -> MaskKey) returns (accepted: bool)
    requires Between(parser.View(), encoder.View()) && SoundFrames(|encoder.data|, encoder.frameSize) && !parser.complete
    modifies encoder, parser
    ensures accepted && parser.payload == old(parser.payload + encoder.data)
    ensures parser.complete <==> old(|encoder.data|) % old(encoder.frameSize) != 0
  {
    hide Parsed, Encoded, Received, StateOk, SoundFrames;
    accepted := true;
    ghost var payload, size, rest := parser.payload + encoder.data, encoder.frameSize, |encoder.data| % encoder.frameSize;
    var k := 0;
    var done := encoder.IsComplete();
    if done {
      assert encoder.data == [] && payload == parser.payload && 0 % size == 0;
    }
    while !done
      invariant Between(parser.View(), encoder.View()) && SoundFrames(|encoder.data|, encoder.frameSize) && accepted
      invariant encoder.frameSize == size && done == (encoder.offset == encoder.len)
      invariant parser.payload + encoder.data == payload
      invariant !done ==> !parser.complete && |encoder.data| % size == rest
      invariant done ==> (parser.complete <==> rest != 0)
      decreases encoder.len - encoder.offset
    {
      ghost var s, e := parser.View(), encoder.View();
      FrameWhole(s, e, keys(k));
      EncodedIs(e, keys(k));
      var frame := encoder.GetFrame(keys(k));
      accepted := parser.Parse(frame);
      ReceivedIs(s, IsLast(e), OpCodeNow(e), e.data[..SizeNow(e)], keys(k));
      assert e.data[..SizeNow(e)] + encoder.data == e.data;
      assert s.payload + e.data[..SizeNow(e)] + encoder.data == s.payload + e.data;
      FrameModulo(e);
      k := k + 1;
      done := encoder.IsComplete();
    }
    assert encoder.data == [] && parser.payload + [] == parser.payload;
  }

  lemma ReceivedIs(s: State, fin: bool, op: int, payload: Bytes, key: MaskKey)
    ensures var r := Received(s, fin, op, payload, key); r.payload == s.payload + payload && r.complete == fin && r.inputCache == []
  {
  }

  /** What is left over after a whole frame, and when nothing is. */
  lemma FrameModulo(e: Encoder)
    requires EncoderOk(e) && e.frameSize > 0 && e.offset < e.len
    ensures IsLast(e) ==> |e.data| % e.frameSize != 0 && e.offset + SizeNow(e) == e.len
    ensures !IsLast(e) ==> (|e.data| - SizeNow(e)) % e.frameSize == |e.data| % e.frameSize
    ensures !IsLast(e) && e.offset + SizeNow(e) == e.len ==> |e.data| % e.frameSize == 0
  {
    if IsLast(e) {
      SmallModulo(|e.data|, e.frameSize);
    } else {
      ModuloStep(|e.data|, e.frameSize);
      NoneLeft(e.frameSize);
    }
  }

  lemma NoneLeft(k: nat)
    requires k > 0
    ensures k % k == 0
  {
  }
}
