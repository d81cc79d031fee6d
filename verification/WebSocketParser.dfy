/** The incremental WebSocket parser (RFC 6455, section 5.2), fed one piece after another. */
module WebSocketParsers {

  type Byte = x: int | 0 <= x < 256
  type Bytes = seq<Byte>

  const MAX_LENGTH: int := 10 * 1024 * 1024
  const TWO64: int := 0x1_0000_0000_0000_0000

  // The opcodes.
  const CONTINUE: int := 0
  const TEXT: int := 1
  const BINARY: int := 2
  const CLOSE: int := 8
  const PING: int := 9
  const PONG: int := 10

  // ---- Masking -----------------------------------------------------------------------------

  /** The exclusive or of two numbers of `n` bits, from the lowest bit up. */
  function XorBits(a: nat, b: nat, n: nat): nat {
    if n == 0 then 0 else (a % 2 + b % 2) % 2 + 2 * XorBits(a / 2, b / 2, n - 1)
  }

  function Power2(n: nat): nat { if n == 0 then 1 else 2 * Power2(n - 1) }

  lemma {:induction false} XorBound(a: nat, b: nat, n: nat)
    ensures XorBits(a, b, n) < Power2(n)
  {
    if n > 0 {
      XorBound(a / 2, b / 2, n - 1);
    }
  }

  lemma BitBack(x: nat, y: nat)
    ensures ((x % 2 + y % 2) % 2 + y % 2) % 2 == x % 2
  {
  }

  lemma LowAndHigh(low: nat, high: nat)
    requires low < 2
    ensures (low + 2 * high) % 2 == low && (low + 2 * high) / 2 == high
  {
  }

  /** Masking twice with the same key gives the number back. */
  lemma {:induction false} XorTwice(a: nat, b: nat, n: nat)
    requires a < Power2(n)
    ensures XorBits(XorBits(a, b, n), b, n) == a
  {
    if n > 0 {
      XorTwice(a / 2, b / 2, n - 1);
      LowAndHigh((a % 2 + b % 2) % 2, XorBits(a / 2, b / 2, n - 1));
      BitBack(a, b);
    }
  }

  lemma EightBits()
    ensures Power2(8) == 256
  {
    assert Power2(4) == 16;
  }

  function Xor(a: Byte, b: Byte): Byte {
    XorBound(a, b, 8);
    EightBits();
    XorBits(a, b, 8)
  }

  lemma XorBack(a: Byte, b: Byte)
    ensures Xor(Xor(a, b), b) == a
  {
    EightBits();
    XorTwice(a, b, 8);
  }

  /** Each byte with the key's byte at the same place, the key repeated. */
  function Masked(data: Bytes, key: Bytes): (r: Bytes)
    requires |key| == 4
    ensures |r| == |data|
  {
    seq(|data|, i requires 0 <= i < |data| => Xor(data[i], key[i % 4]))
  }

  lemma MaskedAt(data: Bytes, key: Bytes, i: nat)
    requires |key| == 4 && i < |data|
    ensures Masked(data, key)[i] == Xor(data[i], key[i % 4])
  {
    hide Xor;
  }

  lemma MaskedTwice(data: Bytes, key: Bytes)
    requires |key| == 4
    ensures Masked(Masked(data, key), key) == data
  {
    forall i | 0 <= i < |data|
      ensures Masked(Masked(data, key), key)[i] == data[i]
    {
      XorBack(data[i], key[i % 4]);
    }
  }

  /** A number from its bytes, the highest first. */
  function BigEndian(s: Bytes): nat {
    if s == [] then 0 else BigEndian(s[..|s| - 1]) * 256 + s[|s| - 1]
  }

  // ---- The parser as a value ----------------------------------------------------------------

  datatype State = State(
    complete: bool, headerComplete: bool, fin: bool, opCode: int, payloadLen: nat, offset: nat,
    maskKey: Bytes, inputCache: Bytes, payload: Bytes)

  const INITIAL := State(false, false, false, 0, 0, 0, [], [], [])

  function HaveBytes(s: State, n: nat): bool
    requires s.offset <= |s.inputCache|
  {
    |s.inputCache| - s.offset >= n
  }

  // A header by the bytes that are there: where the length ends, what it says, and how far the
  // header goes.

  function LengthEnd(c: Bytes): nat
    requires |c| >= 2
  {
    if c[1] % 128 == 126 then 4 else if c[1] % 128 == 127 then 10 else 2
  }

  function LengthOf(c: Bytes): nat
    requires |c| >= 2 && |c| >= LengthEnd(c)
  {
    if LengthEnd(c) == 2 then c[1] % 128 else BigEndian(c[2..LengthEnd(c)])
  }

  predicate HasKey(c: Bytes)
    requires |c| >= 2
  {
    c[1] >= 128
  }

  function HeaderEnd(c: Bytes): nat
    requires |c| >= 2
  {
    LengthEnd(c) + (if HasKey(c) then 4 else 0)
  }

  /** How much of the header has been read: the first byte, the short length, the length, all. */
  function Stage(c: Bytes): nat {
    if |c| < 2 then |c| else if |c| < LengthEnd(c) then 2 else if |c| < HeaderEnd(c) then 3 else 4
  }

  /** ParseHeader; the flag says whether the header is all there. */
  function Header(s: State): (r: (State, bool))
    ensures r.0.offset <= |s.inputCache| && r.0.inputCache == s.inputCache
  {
    var c := s.inputCache;
    var k := Stage(c);
    (s.(opCode := if k >= 1 then c[0] % 16 else s.opCode,
        fin := if k >= 1 then c[0] >= 128 else s.fin,
        payloadLen := if k >= 3 then LengthOf(c) else if k == 2 then c[1] % 128 else s.payloadLen,
        offset := if k == 4 then HeaderEnd(c) else if k == 3 then LengthEnd(c) else k,
        maskKey := if k == 4 && HasKey(c) then c[LengthEnd(c)..HeaderEnd(c)] else if k >= 3 then [] else s.maskKey),
     k == 4)
  }

  predicate CheckOpCode(s: State) {
    if s.opCode == CONTINUE then s.payload != []
    else s.opCode == TEXT || s.opCode == BINARY || s.opCode == CLOSE || s.opCode == PING || s.opCode == PONG
  }

  /** The sum is one of 64 bits. */
  predicate IsValidFrame(s: State) {
    s.maskKey != [] && CheckOpCode(s) && (|s.payload| + s.payloadLen) % TWO64 <= MAX_LENGTH
  }

  function ResetCurrentFrame(s: State): State {
    s.(headerComplete := false, fin := false, payloadLen := 0, offset := 0, inputCache := [])
  }

  predicate Ready(s: State)
    requires s.offset <= |s.inputCache|
  {
    HaveBytes(s, s.payloadLen)
  }

  function ProcessPayload(s: State): State
    requires s.offset <= |s.inputCache| && |s.maskKey| == 4
  {
    if !Ready(s) then s
    else
      var data := s.inputCache[s.offset..s.offset + s.payloadLen];
      ResetCurrentFrame(s.(payload := s.payload + Masked(data, s.maskKey), complete := s.fin))
  }

  /** What every reachable parser keeps.  A header that is complete is the header of the cache. */
  predicate StateOk(s: State) {
    && s.offset <= |s.inputCache|
    && (|s.maskKey| == 0 || |s.maskKey| == 4)
    && |s.payload| <= MAX_LENGTH
    && (s.headerComplete ==> Header(s) == (s, true))
  }

  /** Parse: the new state, and whether the frame is acceptable so far. */
  function Parsed(s: State, data: Bytes): (r: (State, bool))
    requires StateOk(s)
  {
    if data == [] then (s, true)
    else
      var s1 := s.(inputCache := s.inputCache + data);
      var h := if s1.headerComplete then (s1, true) else Header(s1);
      var s2 := h.0.(headerComplete := h.1);
      if !s2.headerComplete then (s2, true)
      else if !IsValidFrame(s2) then (s2, false)
      else
        KeyLength(s1);
        (ProcessPayload(s2), true)
  }

  lemma KeyLength(s: State)
    requires |s.maskKey| == 0 || |s.maskKey| == 4
    ensures var k := Header(s).0.maskKey; |k| == 0 || |k| == 4
  {
    hide LengthOf;
  }

  /** What is known of a header from its beginning stays so. */
  lemma HeaderPrefix(c: Bytes, data: Bytes)
    ensures var d := c + data;
      && Stage(c) <= Stage(d)
      && (Stage(c) >= 1 ==> d[0] == c[0])
      && (Stage(c) >= 2 ==> d[1] == c[1] && LengthEnd(d) == LengthEnd(c) && HeaderEnd(d) == HeaderEnd(c) && (HasKey(c) <==> HasKey(d)))
      && (Stage(c) >= 3 ==> LengthOf(d) == LengthOf(c))
      && (Stage(c) == 4 ==> d[LengthEnd(c)..HeaderEnd(c)] == c[LengthEnd(c)..HeaderEnd(c)])
  {
    hide BigEndian;
    var d := c + data;
    if Stage(c) >= 3 {
      assert d[2..LengthEnd(c)] == c[2..LengthEnd(c)];
    }
  }

  /** A header is that of its bytes, whatever is known from a shorter beginning. */
  lemma HeaderAgain(s: State, data: Bytes)
    ensures var t := Header(s).0.(inputCache := s.inputCache + data);
      Header(t) == Header(s.(inputCache := s.inputCache + data))
  {
    hide LengthOf, HeaderEnd, LengthEnd, HasKey;
    HeaderPrefix(s.inputCache, data);
  }

  /** More bytes do not change a header that is complete. */
  lemma HeaderStays(s: State, data: Bytes)
    requires Header(s).1
    ensures Header(s.(inputCache := s.inputCache + data)) ==
      (Header(s).0.(inputCache := s.inputCache + data), true)
  {
    hide LengthOf, HeaderEnd, LengthEnd, HasKey;
    HeaderPrefix(s.inputCache, data);
  }

  // ---- The class ------------------------------------------------------------------------------

  class WebSocketParser {
    var complete: bool
    var headerComplete: bool
    var fin: bool
    var opCode: int
    var payloadLen: nat
    var offset: nat
    var maskKey: Bytes
    var inputCache: Bytes
    var payload: Bytes

    ghost function View(): State
      reads this
    {
      State(complete, headerComplete, fin, opCode, payloadLen, offset, maskKey, inputCache, payload)
    }

    constructor ()
      ensures View() == INITIAL && StateOk(View())
    {
      complete, headerComplete, fin, opCode, payloadLen, offset := false, false, false, 0, 0, 0;
      maskKey, inputCache, payload := [], [], [];
    }

    /** Parse.  The size of the cache stays below 2^63, as the size of every string does. */
    method Parse(data: Bytes) returns (ok: bool)
      requires StateOk(View()) && |inputCache| + |data| < TWO64 / 2
      modifies this
      ensures (View(), ok) == Parsed(old(View()), data)
    {
      hide Header, Masked;
      if |data| == 0 {
        return true;
      }
      inputCache := inputCache + data;
      ghost var s1 := View();
      KeyLength(s1);
      if !headerComplete {
        headerComplete := ParseHeader();
      }
      if !headerComplete {
        return true;
      }
      var valid := IsValid();
      if !valid {
        return false;
      }
      Process();
      ok := true;
    }

    method ParseHeader() returns (done: bool)
      modifies this
      ensures (View(), done) == Header(old(View()))
    {
      hide BigEndian;
      offset := 0;
      if |inputCache| - offset < 1 {
        return false;
      }
      opCode := inputCache[offset] % 16;
      fin := inputCache[offset] >= 128;
      offset := offset + 1;
      if |inputCache| - offset < 1 {
        return false;
      }
      var mask := inputCache[offset] >= 128;
      payloadLen := inputCache[offset] % 128;
      offset := offset + 1;
      if payloadLen == 126 {
        if |inputCache| - offset < 2 {
          return false;
        }
        payloadLen := BigEndian(inputCache[offset..offset + 2]);
        offset := offset + 2;
      } else if payloadLen == 127 {
        if |inputCache| - offset < 8 {
          return false;
        }
        payloadLen := BigEndian(inputCache[offset..offset + 8]);
        offset := offset + 8;
      }
      maskKey := [];
      if mask {
        if |inputCache| - offset < 4 {
          return false;
        }
        maskKey := inputCache[offset..offset + 4];
        offset := offset + 4;
      }
      done := true;
    }

    method IsValid() returns (valid: bool)
      ensures valid <==> IsValidFrame(View())
    {
      if |maskKey| == 0 {
        return false;
      }
      var known := KnownOpCode();
      if !known {
        return false;
      }
      valid := (|payload| + payloadLen) % TWO64 <= MAX_LENGTH;
    }

    method KnownOpCode() returns (known: bool)
      ensures known <==> CheckOpCode(View())
    {
      if opCode == CONTINUE && |payload| == 0 {
        return false;
      }
      known := opCode == CONTINUE || opCode == TEXT || opCode == BINARY || opCode == CLOSE || opCode == PING || opCode == PONG;
    }

    /** ProcessPayload, with its loop over the bytes. */
    method Process()
      requires offset <= |inputCache| && |maskKey| == 4
      modifies this
      ensures View() == ProcessPayload(old(View()))
    {
      hide Xor, Masked;
      if |inputCache| - offset < payloadLen {
        return;
      }
      ghost var s := View();
      ghost var data := inputCache[offset..offset + payloadLen];
      ghost var masked := Masked(data, s.maskKey);
      var i := 0;
      while i < payloadLen
        invariant 0 <= i <= payloadLen == |masked|
        invariant View() == s.(offset := s.offset + i, payload := s.payload + masked[..i])
      {
        assert data[i] == inputCache[offset];
        MaskedAt(data, s.maskKey, i);
        payload := payload + [Xor(inputCache[offset], maskKey[i % |maskKey|])];
        i, offset := i + 1, offset + 1;
      }
      assert masked[..i] == masked;
      complete := fin;
      ResetFrame();
    }

    method ResetFrame()
      modifies this
      ensures View() == ResetCurrentFrame(old(View()))
    {
      headerComplete, fin, payloadLen, offset, inputCache := false, false, 0, 0, [];
    }

    method Reset()
      modifies this
      ensures View() == ResetCurrentFrame(old(View())).(complete := false, payload := [])
    {
      ResetFrame();
      complete, payload := false, [];
    }
  }

  // ---- What every state keeps ----------------------------------------------------------------

  /** Every call keeps the invariant: the offset stays inside the cache and the payload within
      10MB.  The sum that is checked is one of 64 bits and can wrap, but a length that makes it
      wrap is more than the cache can hold. */
  lemma ParsedKeeps(s: State, data: Bytes)
    requires StateOk(s) && |s.inputCache| + |data| < TWO64 / 2
    ensures StateOk(Parsed(s, data).0)
  {
    hide LengthOf, BigEndian, Masked;
    if data != [] {
      var s1 := s.(inputCache := s.inputCache + data);
      KeyLength(s1);
      if s.headerComplete {
        HeaderStays(s, data);
      }
      var h := if s1.headerComplete then (s1, true) else Header(s1);
      var s2 := h.0.(headerComplete := h.1);
      HeaderTwice(s1);
      if s2.headerComplete && IsValidFrame(s2) && Ready(s2) {
        NoWrap(s2);
      }
    }
  }

  /** A complete header is found again. */
  lemma HeaderTwice(s: State)
    ensures Header(s).1 ==> Header(Header(s).0.(headerComplete := true)) == (Header(s).0.(headerComplete := true), true)
  {
    hide LengthOf, BigEndian;
  }

  /** When the whole payload is there, the sum did not wrap. */
  lemma NoWrap(s: State)
    requires s.offset <= |s.inputCache| < TWO64 / 2 && |s.payload| <= MAX_LENGTH && IsValidFrame(s) && Ready(s)
    ensures |s.payload| + s.payloadLen <= MAX_LENGTH
  {
    assert |s.payload| + s.payloadLen < TWO64;
  }
}
