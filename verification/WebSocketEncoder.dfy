/** The WebSocket encoder: a message goes out in frames of a given size (RFC 6455, sections 5.2 to
    5.4).  The four random bytes of each masking key are given from outside. */
module WebSocketEncoders {
  import opened WebSocketParsers

  /** The encoder as a value; `data` is what the pointer still points to. */
  datatype Encoder = Encoder(isClient: bool, opCode: int, frameSize: nat, data: Bytes, len: nat, offset: nat, outputBuf: Bytes)

  predicate EncoderOk(e: Encoder) { e.offset <= e.len && |e.data| == e.len - e.offset && 0 <= e.opCode < 128 }

  /** The frame has the rest of the message, and it is marked as the last. */
  predicate IsLast(e: Encoder)
    requires EncoderOk(e)
  {
    e.frameSize > e.len - e.offset
  }

  function SizeNow(e: Encoder): (n: nat)
    requires EncoderOk(e)
    ensures n <= |e.data|
  {
    if IsLast(e) then e.len - e.offset else e.frameSize
  }

  function OpCodeNow(e: Encoder): int { if e.offset != 0 then CONTINUE else e.opCode }

  /** The length field; a long one is the upper half of the eight bytes, and no more. */
  function LengthField(n: nat, masked: bool): Bytes
    requires n < TWO64
  {
    var bit := if masked then 128 else 0;
    if n > 0xFFFF then [bit + 127, n / 0x100_0000_0000_0000, n / 0x1_0000_0000_0000 % 256, n / 0x100_0000_0000 % 256, n / 0x1_0000_0000 % 256]
    else if n > 126 then [bit + 126, n / 256, n % 256]
    else [bit + n]
  }

  /** One frame. */
  function Frame(fin: bool, opCode: int, payload: Bytes, client: bool, key: Bytes): Bytes
    requires 0 <= opCode < 128 && |key| == 4 && |payload| < TWO64
  {
    [(if fin then 128 else 0) + opCode] + LengthField(|payload|, client)
    + (if client then key + Masked(payload, key) else payload)
  }

  /** Encode */
  function Encoded(e: Encoder, key: Bytes): Encoder
    requires EncoderOk(e) && |key| == 4 && |e.data| < TWO64
  {
    var n := SizeNow(e);
    e.(opCode := OpCodeNow(e), data := e.data[n..], offset := e.offset + n,
       outputBuf := Frame(IsLast(e), OpCodeNow(e), e.data[..n], e.isClient, key))
  }

  class WebSocketEncoder {
    const isClient: bool
    var opCode: int
    var frameSize: nat
    var data: Bytes
    var len: nat
    var offset: nat
    var outputBuf: Bytes

    ghost function View(): Encoder
      reads this
    {
      Encoder(isClient, opCode, frameSize, data, len, offset, outputBuf)
    }

    constructor (isClient: bool)
      ensures View() == Encoder(isClient, BINARY, 1446, [], 0, 0, []) && EncoderOk(View())
    {
      this.isClient := isClient;
      opCode, frameSize, data, len, offset, outputBuf := BINARY, 1446, [], 0, 0, [];
    }

    /** The offset of an earlier message is not set back. */
    method SetPayload(payload: Bytes)
      modifies this
      ensures View() == old(View()).(data := payload, len := |payload|)
    {
      data, len := payload, |payload|;
    }

    method SetOpCode(code: int)
      modifies this
      ensures View() == old(View()).(opCode := code)
    {
      opCode := code;
    }

    method SetFrameSize(size: nat)
      modifies this
      ensures View() == old(View()).(frameSize := size)
    {
      frameSize := size;
    }

    method IsComplete() returns (complete: bool)
      ensures complete <==> offset == len
    {
      complete := offset == len;
    }

    method GetFrame(key: Bytes) returns (frame: Bytes)
      requires EncoderOk(View()) && |key| == 4 && len < TWO64
      modifies this
      ensures EncoderOk(View()) && View() == Encoded(old(View()), key) && frame == outputBuf
    {
      Encode(key);
      frame := outputBuf;
    }

    method Encode(key: Bytes)
      requires EncoderOk(View()) && |key| == 4 && len < TWO64
      modifies this
      ensures EncoderOk(View()) && View() == Encoded(old(View()), key)
    {
      hide Masked, LengthField;
      outputBuf := [];
      if offset != 0 {
        opCode := CONTINUE;
      }
      var fin := 0;
      var size := frameSize;
      if frameSize > len - offset {
        size := len - offset;
        fin := 128;
      }
      outputBuf := outputBuf + [fin + opCode];
      PutLength(size);
      if !isClient {
        outputBuf := outputBuf + data[..size];
      } else {
        PutMasked(size, key);
      }
      data := data[size..];
      offset := offset + size;
    }

    method PutLength(size: nat)
      requires size < TWO64
      modifies this`outputBuf
      ensures outputBuf == old(outputBuf) + LengthField(size, isClient)
    {
      var bit := if isClient then 128 else 0;
      if size > 0xFFFF {
        outputBuf := outputBuf + [bit + 127];
        outputBuf := outputBuf + [size / 0x100_0000_0000_0000, size / 0x1_0000_0000_0000 % 256, size / 0x100_0000_0000 % 256, size / 0x1_0000_0000 % 256];
      } else if size > 126 {
        outputBuf := outputBuf + [bit + 126];
        outputBuf := outputBuf + [size / 256, size % 256];
      } else {
        outputBuf := outputBuf + [bit + size];
      }
    }

    /** The key, and each byte under it. */
    method PutMasked(size: nat, key: Bytes)
      requires size <= |data| && |key| == 4
      modifies this`outputBuf
      ensures outputBuf == old(outputBuf) + (key + Masked(data[..size], key))
    {
      hide Xor, Masked;
      ghost var head, masked := outputBuf, Masked(data[..size], key);
      outputBuf := outputBuf + key;
      var i := 0;
      while i < size
        invariant 0 <= i <= size == |masked|
        invariant outputBuf == head + key + masked[..i]
      {
        MaskedAt(data[..size], key, i);
        assert masked[..i + 1] == masked[..i] + [masked[i]];
        outputBuf := outputBuf + [Xor(data[i], key[i % 4])];
        i := i + 1;
      }
      assert masked[..i] == masked;
      assert head + key + masked == head + (key + masked);
    }
  }
}
