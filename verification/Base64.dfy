/** The base64 codec (RFC 4648, section 4): bits collected in a 32-bit word that overflows. */
module Base64 {

  type Byte = x: int | 0 <= x < 256
  type Sextet = x: int | 0 <= x < 64

  const TWO32: int := 0x1_0000_0000
  const TWO64: int := 0x1_0000_0000_0000_0000

  datatype Result<+T> = Ok(value: T) | TooLong | IllegalCharacter

  /** The reverse table, 64 where there is no digit; it has 128 entries. */
  function Reverse(c: char): (v: int)
    ensures 0 <= v <= 64
  {
    if 'A' <= c <= 'Z' then c as int - 'A' as int
    else if 'a' <= c <= 'z' then c as int - 'a' as int + 26
    else if '0' <= c <= '9' then c as int - '0' as int + 52
    else if c == '+' then 62
    else if c == '/' then 63
    else 64
  }

  /** The table of digits: A to Z, a to z, 0 to 9, plus and slash. */
  function Digit(v: Sextet): char {
    if v < 26 then ('A' as int + v) as char
    else if v < 52 then ('a' as int + (v - 26)) as char
    else if v < 62 then ('0' as int + (v - 52)) as char
    else if v == 62 then '+' else '/'
  }

  predicate IsSkipped(c: char) {
    c == ' ' || c == '\t' || c == '\n' || c == '\U{0B}' || c == '\U{0C}' || c == '\r' || c == '='
  }

  /** A digit is read back as its value, and is never skipped. */
  lemma DigitBack(v: Sextet)
    ensures Reverse(Digit(v)) == v && !IsSkipped(Digit(v))
  {
  }

  // ---- What the text means -----------------------------------------------------------------

  /** The byte at `i`, 0 behind the end. */
  function ByteAt(s: seq<Byte>, i: nat): Byte { if i < |s| then s[i] else 0 }

  /** Of the three bytes from `i` on, the `r`th group of six bits. */
  function SextetIn(s: seq<Byte>, i: nat, r: nat): Sextet {
    if r == 0 then ByteAt(s, i) / 4
    else if r == 1 then ByteAt(s, i) % 4 * 16 + ByteAt(s, i + 1) / 16
    else if r == 2 then ByteAt(s, i + 1) % 16 * 4 + ByteAt(s, i + 2) / 64
    else ByteAt(s, i + 2) % 64
  }

  /** The `k`th group of six bits of a byte string that is followed by zeros. */
  function SextetAt(s: seq<Byte>, k: nat): Sextet { SextetIn(s, k / 4 * 3, k % 4) }

  /** How many groups `n` bytes fill, the last with zeros. */
  function SextetCount(n: nat): nat { (8 * n + 5) / 6 }

  function EncodedLength(n: nat): nat { (n + 2) / 3 * 4 }

  lemma CountFits(n: nat)
    ensures SextetCount(n) <= EncodedLength(n) <= SextetCount(n) + 2
  {
    var g, r := n / 3, n % 3;
    assert n == 3 * g + r;
  }

  function Sextets(s: seq<Byte>): (q: seq<Sextet>) { seq(SextetCount(|s|), k requires 0 <= k => SextetAt(s, k)) }

  function Encoding(s: seq<Byte>): (t: string) {
    seq(EncodedLength(|s|), k requires 0 <= k => if k < SextetCount(|s|) then Digit(SextetAt(s, k)) else '=')
  }

  function SextetOr0(q: seq<Sextet>, k: nat): Sextet { if k < |q| then q[k] else 0 }

  /** Of the four groups from `k` on, the `r`th group of eight bits. */
  function OctetIn(q: seq<Sextet>, k: nat, r: nat): Byte {
    if r == 0 then SextetOr0(q, k) * 4 + SextetOr0(q, k + 1) / 16
    else if r == 1 then SextetOr0(q, k + 1) % 16 * 16 + SextetOr0(q, k + 2) / 4
    else SextetOr0(q, k + 2) % 4 * 64 + SextetOr0(q, k + 3)
  }

  function OctetAt(q: seq<Sextet>, j: nat): Byte { OctetIn(q, j / 3 * 4, j % 3) }

  function OctetCount(m: nat): nat { 6 * m / 8 }

  /** The whole bytes that the groups make; what is left over is dropped. */
  function Octets(q: seq<Sextet>): seq<Byte> { seq(OctetCount(|q|), j requires 0 <= j => OctetAt(q, j)) }

  /** The digits of a text, white space and padding left out; an illegal character has no value. */
  function Digits(t: string): Result<seq<Sextet>> {
    if t == "" then Ok([])
    else
      var before, c := Digits(t[..|t| - 1]), t[|t| - 1];
      if !before.Ok? || IsSkipped(c) then before
      else if Reverse(c) > 63 then IllegalCharacter
      else Ok(before.value + [Reverse(c)])
  }

  function Decoding(t: string): Result<seq<Byte>> {
    match Digits(t)
    case Ok(q) => Ok(Octets(q))
    case _ => IllegalCharacter
  }

  // ---- The round trip ------------------------------------------------------------------------

  lemma CountBack(n: nat)
    ensures OctetCount(SextetCount(n)) == n
  {
    var g, r := n / 3, n % 3;
    assert n == 3 * g + r;
  }

  lemma InGroups(g: nat, r: nat)
    ensures r < 4 ==> (4 * g + r) / 4 == g && (4 * g + r) % 4 == r
    ensures r < 3 ==> (3 * g + r) / 3 == g && (3 * g + r) % 3 == r
  {
  }

  /** The `r`th group made of the `g`th three bytes, where it is found. */
  lemma SextetPlace(s: seq<Byte>, g: nat, r: nat)
    requires r < 4 && 4 * g + r < SextetCount(|s|)
    ensures SextetOr0(Sextets(s), 4 * g + r) == SextetIn(s, 3 * g, r)
  {
    hide SextetIn;
    InGroups(g, r);
  }

  /** Taking two bytes apart and putting the first together again. */
  lemma Reassembled(b: Byte, c: Byte)
    ensures b / 4 * 4 + (b % 4 * 16 + c / 16) / 16 == b
    ensures (b % 4 * 16 + c / 16) % 16 == c / 16 && (b % 16 * 4 + c / 64) / 4 == b % 16 && b / 16 * 16 + b % 16 == b
    ensures (b % 16 * 4 + c / 64) % 4 == c / 64 && b / 64 * 64 + b % 64 == b
  {
  }

  lemma OctetBack(s: seq<Byte>, j: nat)
    requires j < |s|
    ensures OctetAt(Sextets(s), j) == s[j]
  {
    hide Sextets, OctetIn;
    var g, r := j / 3, j % 3;
    assert j == 3 * g + r;
    EnoughSextets(|s|, g, r);
    SextetPlace(s, g, r);
    SextetPlace(s, g, r + 1);
    OctetInBack(s, Sextets(s), 3 * g, 4 * g, r);
  }

  lemma OctetInBack(s: seq<Byte>, q: seq<Sextet>, i: nat, k: nat, r: nat)
    requires r < 3 && i + r < |s|
    requires SextetOr0(q, k + r) == SextetIn(s, i, r) && SextetOr0(q, k + r + 1) == SextetIn(s, i, r + 1)
    ensures OctetIn(q, k, r) == s[i + r]
  {
    hide SextetOr0;
    Reassembled(s[i + r], ByteAt(s, i + r + 1));
    if r > 0 {
      Reassembled(ByteAt(s, i + r - 1), s[i + r]);
    }
  }

  /** A byte is spread over two groups that are both there. */
  lemma EnoughSextets(n: nat, g: nat, r: nat)
    requires r < 3 && 3 * g + r < n
    ensures 4 * g + r + 1 < SextetCount(n)
  {
  }

  lemma SextetsLength(s: seq<Byte>)
    ensures |Sextets(s)| == SextetCount(|s|)
  {
  }

  lemma OctetsBack(s: seq<Byte>)
    ensures Octets(Sextets(s)) == s
  {
    hide OctetAt, Sextets;
    CountBack(|s|);
    assert |Sextets(s)| == SextetCount(|s|) by { SextetsLength(s); }
    forall j: nat | j < |s|
      ensures Octets(Sextets(s))[j] == s[j]
    {
      OctetBack(s, j);
    }
  }

  /** The digits of an encoded text, up to a place in it. */
  lemma {:induction false} EncodingDigits(s: seq<Byte>, k: nat)
    requires k <= EncodedLength(|s|)
    ensures Digits(Encoding(s)[..k]) == Ok(Sextets(s)[..if k < SextetCount(|s|) then k else SextetCount(|s|)])
  {
    hide Digit, Reverse, IsSkipped, SextetAt;
    CountFits(|s|);
    var t, q := Encoding(s), Sextets(s);
    if k > 0 {
      EncodingDigits(s, k - 1);
      assert t[..k][..k - 1] == t[..k - 1];
      if k <= |q| {
        DigitBack(q[k - 1]);
        assert q[..k] == q[..k - 1] + [q[k - 1]];
      } else {
        assert IsSkipped('=') by { PaddingSkipped(); }
      }
    }
  }

  lemma PaddingSkipped()
    ensures IsSkipped('=')
  {
  }

  /** `t` is `u` with more characters in it, all of which are skipped. */
  predicate HasMore(t: string, u: string) {
    if t == "" then u == ""
    else
      var n, m := |t| - 1, |u| - 1;
      (IsSkipped(t[n]) && HasMore(t[..n], u)) || (u != "" && t[n] == u[m] && HasMore(t[..n], u[..m]))
  }

  lemma {:induction false} MoreDigits(t: string, u: string)
    requires HasMore(t, u)
    ensures Digits(t) == Digits(u)
  {
    hide Reverse, IsSkipped;
    if t != "" {
      var n, m := |t| - 1, |u| - 1;
      if IsSkipped(t[n]) && HasMore(t[..n], u) {
        MoreDigits(t[..n], u);
      } else {
        MoreDigits(t[..n], u[..m]);
      }
    }
  }

  /** Decoding undoes encoding, whatever white space and padding is put in between. */
  lemma RoundTrip(s: seq<Byte>, t: string)
    requires HasMore(t, Encoding(s))
    ensures Decoding(t) == Ok(s)
  {
    hide Digits, HasMore, Octets, SextetAt, Digit;
    CountFits(|s|);
    MoreDigits(t, Encoding(s));
    EncodingDigits(s, |Encoding(s)|);
    assert Encoding(s)[..|Encoding(s)|] == Encoding(s);
    assert Sextets(s)[..|Sextets(s)|] == Sextets(s);
    OctetsBack(s);
  }

  lemma {:induction false} HasMoreSelf(u: string)
    ensures HasMore(u, u)
  {
    if u != "" {
      HasMoreSelf(u[..|u| - 1]);
    }
  }

  /** No two byte strings have the same text. */
  lemma EncodingInjective(s: seq<Byte>, u: seq<Byte>)
    requires Encoding(s) == Encoding(u)
    ensures s == u
  {
    hide Encoding, Decoding, HasMore;
    HasMoreSelf(Encoding(s));
    RoundTrip(s, Encoding(s));
    RoundTrip(u, Encoding(u));
  }

  // ---- The algorithms ------------------------------------------------------------------------

  /** 2 to the power of the number of bits that can wait. */
  function Shift(bits: nat): (p: nat)
    ensures p > 0
  {
    if bits == 0 then 1 else if bits == 2 then 4 else if bits == 4 then 16 else if bits == 6 then 64 else 256
  }

  /** The bits of the last byte that no group has yet, after `i` bytes. */
  function WaitingBits(i: nat): nat { i % 3 * 2 }

  /** The low bits of the word are those of `value`.  The other bits are of no interest: some have
      been used, and some may have been lost at the upper end of the word. */
  predicate Holds(accumulator: int, bits: nat, value: int) {
    0 <= accumulator < TWO32 && accumulator % Shift(bits) == value % Shift(bits)
  }

  /** What a byte shifted in makes of the word: the upper bits are lost. */
  function Shifted(accumulator: int, b: Byte): int { accumulator * 256 % TWO32 + b }

  // Division by the powers of two that occur.

  lemma Split4(h: int, r: int)
    requires 0 <= r < 4
    ensures (4 * h + r) / 4 == h && (4 * h + r) % 4 == r
  {
  }

  lemma Split16(h: int, r: int)
    requires 0 <= r < 16
    ensures (16 * h + r) / 16 == h && (16 * h + r) % 16 == r
  {
  }

  lemma Split64(h: int, r: int)
    requires 0 <= r < 64
    ensures (64 * h + r) / 64 == h && (64 * h + r) % 64 == r
  {
  }

  lemma Split256(h: int, r: int)
    requires 0 <= r < 256
    ensures (256 * h + r) / 256 == h && (256 * h + r) % 256 == r
  {
  }

  lemma Split32(h: int, r: int)
    requires 0 <= r < TWO32
    ensures (TWO32 * h + r) % TWO32 == r
  {
  }

  lemma ShiftedIs(accumulator: int, b: Byte)
    requires 0 <= accumulator < TWO32
    ensures Shifted(accumulator, b) == accumulator % 0x100_0000 * 256 + b
  {
    Split32(accumulator / 0x100_0000, accumulator % 0x100_0000 * 256);
  }

  lemma ByteIn0(accumulator: int, b: Byte)
    requires 0 <= accumulator < TWO32
    ensures var a := Shifted(accumulator, b); a / 4 % 64 == b / 4 && a % 4 == b % 4
  {
    hide Shifted;
    ShiftedIs(accumulator, b);
    var h := accumulator % 0x100_0000;
    Split4(64 * h + b / 4, b % 4);
    Split64(h, b / 4);
  }

  /** The low bits of the word, and what of the word is behind them when it is shifted. */
  lemma Low(accumulator: int, k: int) returns (h: int)
    requires 0 <= accumulator && k in {4, 16}
    ensures accumulator % 0x100_0000 == h * k + accumulator % k && h >= 0
  {
    var q, m := accumulator / 0x100_0000, accumulator % 0x100_0000;
    h := m / k;
    if k == 4 {
      Split4(q * 0x40_0000 + h, m % 4);
    } else {
      Split16(q * 0x10_0000 + h, m % 16);
    }
  }

  lemma ByteIn2(accumulator: int, b: Byte)
    requires 0 <= accumulator < TWO32
    ensures var a := Shifted(accumulator, b); a / 16 % 64 == accumulator % 4 * 16 + b / 16 && a % 16 == b % 16
  {
    hide Shifted;
    ShiftedIs(accumulator, b);
    var h := Low(accumulator, 4);
    var w := accumulator % 4;
    Split16(64 * h + 16 * w + b / 16, b % 16);
    Split64(h, 16 * w + b / 16);
  }

  lemma ByteIn4(accumulator: int, b: Byte)
    requires 0 <= accumulator < TWO32
    ensures var a := Shifted(accumulator, b); a / 64 % 64 == accumulator % 16 * 4 + b / 64 && a % 64 == b % 64
  {
    hide Shifted;
    ShiftedIs(accumulator, b);
    var h := Low(accumulator, 16);
    var w := accumulator % 16;
    Split64(64 * h + 4 * w + b / 64, b % 64);
    Split64(h, 4 * w + b / 64);
  }

  lemma ShiftedSmall(accumulator: int, b: Byte)
    requires 0 <= accumulator < TWO32
    ensures 0 <= Shifted(accumulator, b) < TWO32
  {
    hide Shifted;
    ShiftedIs(accumulator, b);
  }

  /** How many groups are written after `i` bytes. */
  function Written(i: nat): nat { i / 3 * 4 + i % 3 }

  function Last(s: seq<Byte>, i: nat): Byte
    requires i <= |s|
  {
    if i == 0 then 0 else s[i - 1]
  }

  /** One byte completes one group, and each third byte a second one. */
  lemma ByteTaken(s: seq<Byte>, i: nat, accumulator: int)
    requires i < |s| && Holds(accumulator, WaitingBits(i), Last(s, i))
    ensures var a := Shifted(accumulator, s[i]);
      && a / Shift(WaitingBits(i) + 2) % 64 == SextetAt(s, Written(i))
      && (i % 3 == 2 ==> a % 64 == SextetAt(s, Written(i) + 1))
      && Holds(a, WaitingBits(i + 1), s[i]) && 0 <= a
  {
    hide Shifted;
    var g, r := i / 3, i % 3;
    assert i == 3 * g + r;
    InGroups(g, r);
    InGroups(g, r + 1);
    ShiftedSmall(accumulator, s[i]);
    if r == 0 {
      ByteIn0(accumulator, s[i]);
    } else if r == 1 {
      ByteIn2(accumulator, s[i]);
    } else {
      ByteIn4(accumulator, s[i]);
    }
  }

  /** The bits left over at the end make one more group. */
  lemma LastGroup(s: seq<Byte>, accumulator: int)
    requires Holds(accumulator, WaitingBits(|s|), Last(s, |s|))
    ensures |s| % 3 == 0 ==> Written(|s|) == SextetCount(|s|)
    ensures |s| % 3 != 0 ==> Written(|s|) + 1 == SextetCount(|s|)
    ensures |s| % 3 == 1 ==> accumulator * 16 % TWO32 % 64 == SextetAt(s, Written(|s|))
    ensures |s| % 3 == 2 ==> accumulator * 4 % TWO32 % 64 == SextetAt(s, Written(|s|))
  {
    var g, r := |s| / 3, |s| % 3;
    assert |s| == 3 * g + r;
    InGroups(g, r);
    if r == 1 {
      LowBits16(accumulator);
    } else if r == 2 {
      LowBits4(accumulator);
    }
  }

  lemma LowBits16(x: int)
    requires 0 <= x
    ensures x * 16 % TWO32 % 64 == x % 4 * 16
  {
    var q, h := x / 0x1000_0000, x % 0x1000_0000;
    Split32(q, h * 16);
    Split64(h / 4, h % 4 * 16);
    Split4(q * 0x400_0000 + h / 4, h % 4);
  }

  lemma LowBits4(x: int)
    requires 0 <= x
    ensures x * 4 % TWO32 % 64 == x % 16 * 4
  {
    var q, h := x / 0x4000_0000, x % 0x4000_0000;
    Split32(q, h * 4);
    Split64(h / 16, h % 16 * 4);
    Split16(q * 0x400_0000 + h / 16, h % 16);
  }

  ghost predicate Filled(a: array<char>, s: seq<Byte>, outpos: nat)
    reads a
  {
    forall k | 0 <= k < a.Length :: a[k] == if k < outpos then Digit(SextetAt(s, k)) else '='
  }

  /** base64_encode.  Every write is inside the string that was made beforehand. */
  method Encode(bindata: seq<Byte>) returns (r: Result<string>)
    ensures r == if |bindata| > (TWO64 - 1) / 4 * 3 then TooLong else Ok(Encoding(bindata))
  {
    hide Digit, SextetAt, Shift, Shifted, Written, WaitingBits, Holds, EncodedLength, SextetCount, Encoding;
    if |bindata| > (TWO64 - 1) / 4 * 3 {
      return TooLong;
    }
    var retval := new char[EncodedLength(|bindata|)](_ => '=');
    var outpos, bits, accumulator := 0, 0, 0;
    CountFits(|bindata|);
    HoldsNothing();
    NothingWritten();
    var i := 0;
    while i < |bindata|
      invariant 0 <= i <= |bindata| && bits == WaitingBits(i) && outpos == Written(i)
      invariant Holds(accumulator, bits, Last(bindata, i)) && Filled(retval, bindata, outpos)
    {
      ByteTaken(bindata, i, accumulator);
      WrittenFits(i, |bindata|);
      accumulator := Shifted(accumulator, bindata[i]);
      bits := bits + 8;
      bits, outpos := TakeGroups(retval, accumulator, bits, outpos, bindata, i);
      i := i + 1;
    }
    assert accumulator >= 0 by { HoldsNatural(accumulator, bits, Last(bindata, i)); }
    outpos := TakeRest(retval, accumulator, bits, outpos, bindata);
    assert bindata != [] ==> outpos >= retval.Length - 2;
    assert outpos <= retval.Length;
    FilledIsEncoding(retval, bindata);
    r := Ok(retval[..]);
  }

  /** The bits that are left over, if any, fill one more group with zeros. */
  method TakeRest(retval: array<char>, accumulator: nat, bits: nat, outpos0: nat, ghost s: seq<Byte>) returns (outpos: nat)
    requires Holds(accumulator, bits, Last(s, |s|)) && bits == WaitingBits(|s|) && outpos0 == Written(|s|)
    requires retval.Length == EncodedLength(|s|) && Filled(retval, s, outpos0)
    modifies retval
    ensures outpos == SextetCount(|s|) && Filled(retval, s, outpos)
  {
    hide Digit, SextetAt, Written, Holds, EncodedLength, SextetCount;
    LastGroup(s, accumulator);
    CountFits(|s|);
    outpos := outpos0;
    if bits > 0 {
      assert bits < 6;
      var last := accumulator * (if bits == 2 then 16 else 4) % TWO32;
      retval[outpos] := Digit(last % 64);
      outpos := outpos + 1;
    }
  }

  lemma FilledIsEncoding(a: array<char>, s: seq<Byte>)
    requires a.Length == EncodedLength(|s|) && Filled(a, s, SextetCount(|s|))
    ensures a[..] == Encoding(s)
  {
    hide Digit, SextetAt, EncodedLength, SextetCount;
  }

  /** The inner loop: groups are taken out while there are six bits. */
  method TakeGroups(retval: array<char>, accumulator: nat, bits0: nat, outpos0: nat, ghost s: seq<Byte>, ghost i: nat)
    returns (bits: nat, outpos: nat)
    requires i < |s| && bits0 == WaitingBits(i) + 8 && outpos0 == Written(i) && Written(i + 1) <= retval.Length
    requires accumulator / Shift(WaitingBits(i) + 2) % 64 == SextetAt(s, Written(i))
    requires i % 3 == 2 ==> accumulator % 64 == SextetAt(s, Written(i) + 1)
    requires Filled(retval, s, outpos0)
    modifies retval
    ensures bits == WaitingBits(i + 1) && outpos == Written(i + 1) && Filled(retval, s, outpos)
  {
    hide Digit, SextetAt, Shift, Written;
    WrittenFits(i, |s|);
    bits, outpos := bits0, outpos0;
    while bits >= 6
      invariant bits == bits0 - 6 * (outpos - outpos0) && outpos0 <= outpos
      invariant Filled(retval, s, outpos)
    {
      bits := bits - 6;
      GroupNow(s, i, accumulator, bits, outpos);
      retval[outpos] := Digit(accumulator / Shift(bits) % 64);
      outpos := outpos + 1;
    }
  }

  lemma HoldsNatural(accumulator: int, bits: nat, value: int)
    requires Holds(accumulator, bits, value)
    ensures accumulator >= 0
  {
  }

  lemma NothingWritten()
    ensures WaitingBits(0) == 0 && Written(0) == 0
  {
  }

  lemma HoldsNothing()
    ensures Holds(0, 0, 0)
  {
  }

  lemma WrittenFits(i: nat, n: nat)
    requires i < n
    ensures Written(i + 1) <= SextetCount(n) && Written(i) + 1 <= Written(i + 1) <= Written(i) + 2
    ensures Written(i + 1) == Written(i) + (if i % 3 == 2 then 2 else 1)
    ensures WaitingBits(i + 1) == WaitingBits(i) + 8 - 6 * (Written(i + 1) - Written(i))
  {
    var g, r := i / 3, i % 3;
    assert i == 3 * g + r;
    InGroups(g, r);
    InGroups(g, r + 1);
    assert r == 2 ==> i + 1 == 3 * (g + 1);
  }

  /** The group that the inner loop takes out at a place. */
  lemma GroupNow(s: seq<Byte>, i: nat, a: int, bits: int, outpos: nat)
    requires i < |s| && 0 <= bits && bits == WaitingBits(i) + 2 - 6 * (outpos - Written(i)) && Written(i) <= outpos
    requires a / Shift(WaitingBits(i) + 2) % 64 == SextetAt(s, Written(i))
    requires i % 3 == 2 ==> a % 64 == SextetAt(s, Written(i) + 1)
    ensures a / Shift(bits) % 64 == SextetAt(s, outpos)
    ensures outpos < Written(i + 1)
  {
    hide SextetAt, Written;
    WrittenFits(i, i + 1);
    assert bits == WaitingBits(i) + 2 || (bits == 0 && i % 3 == 2 && outpos == Written(i) + 1);
    assert Shift(0) == 1;
  }

  // The other way.

  /** The bits that wait after `k` digits: those of the last digit that no byte has yet. */
  function DigitBits(k: nat): nat { if k % 4 == 0 then 0 else 8 - k % 4 * 2 }

  function LastDigit(q: seq<Sextet>): Sextet { if q == [] then 0 else q[|q| - 1] }

  function ShiftedSix(accumulator: int, v: Sextet): int { accumulator * 64 % TWO32 + v }

  lemma ShiftedSixIs(accumulator: int, v: Sextet)
    requires 0 <= accumulator < TWO32
    ensures ShiftedSix(accumulator, v) == accumulator % 0x400_0000 * 64 + v
    ensures 0 <= ShiftedSix(accumulator, v) < TWO32
  {
    Split32(accumulator / 0x400_0000, accumulator % 0x400_0000 * 64);
  }

  lemma LowSix(accumulator: int, k: int) returns (h: int)
    requires 0 <= accumulator && k in {4, 16, 64}
    ensures accumulator % 0x400_0000 == h * k + accumulator % k && h >= 0
  {
    var q, m := accumulator / 0x400_0000, accumulator % 0x400_0000;
    h := m / k;
    if k == 4 {
      Split4(q * 0x100_0000 + h, m % 4);
    } else if k == 16 {
      Split16(q * 0x40_0000 + h, m % 16);
    } else {
      Split64(q * 0x10_0000 + h, m % 64);
    }
  }

  lemma DigitIn6(accumulator: int, v: Sextet)
    requires 0 <= accumulator < TWO32
    ensures var a := ShiftedSix(accumulator, v); a / 16 % 256 == accumulator % 64 * 4 + v / 16 && a % 16 == v % 16 && a % 64 == v
  {
    hide ShiftedSix;
    ShiftedSixIs(accumulator, v);
    var h := LowSix(accumulator, 64);
    var w := accumulator % 64;
    Split16(256 * h + 4 * w + v / 16, v % 16);
    Split256(h, 4 * w + v / 16);
    Split64(64 * h + w, v);
  }

  lemma DigitIn4(accumulator: int, v: Sextet)
    requires 0 <= accumulator < TWO32
    ensures var a := ShiftedSix(accumulator, v); a / 4 % 256 == accumulator % 16 * 16 + v / 4 && a % 4 == v % 4
  {
    hide ShiftedSix;
    ShiftedSixIs(accumulator, v);
    var h := LowSix(accumulator, 16);
    var w := accumulator % 16;
    Split4(256 * h + 16 * w + v / 4, v % 4);
    Split256(h, 16 * w + v / 4);
  }

  lemma DigitIn2(accumulator: int, v: Sextet)
    requires 0 <= accumulator < TWO32
    ensures var a := ShiftedSix(accumulator, v); a % 256 == accumulator % 4 * 64 + v
  {
    hide ShiftedSix;
    ShiftedSixIs(accumulator, v);
    var h := LowSix(accumulator, 4);
    Split256(h, accumulator % 4 * 64 + v);
  }

  /** What one more digit does: it completes a byte, except after each fourth. */
  predicate Takes(q: seq<Sextet>, accumulator: int, v: Sextet) {
    var a, bits, next := ShiftedSix(accumulator, v), DigitBits(|q|) + 6, q + [v];
    && Holds(a, DigitBits(|next|), v)
    && if bits >= 8 then bits - 8 == DigitBits(|next|) && Octets(next) == Octets(q) + [a / Shift(bits - 8) % 256]
       else bits == DigitBits(|next|) && Octets(next) == Octets(q)
  }

  lemma DigitTaken(q: seq<Sextet>, accumulator: int, v: Sextet)
    requires Holds(accumulator, DigitBits(|q|), LastDigit(q))
    ensures Takes(q, accumulator, v)
  {
    hide Takes, Octets, Holds, DigitBits, LastDigit;
    HoldsNatural(accumulator, DigitBits(|q|), LastDigit(q));
    if |q| % 4 == 0 {
      DigitTaken0(q, accumulator, v);
    } else if |q| % 4 == 1 {
      DigitTaken1(q, accumulator, v);
    } else if |q| % 4 == 2 {
      DigitTaken2(q, accumulator, v);
    } else {
      DigitTaken3(q, accumulator, v);
    }
  }

  lemma DigitTaken0(q: seq<Sextet>, accumulator: int, v: Sextet)
    requires Holds(accumulator, DigitBits(|q|), LastDigit(q)) && |q| % 4 == 0
    ensures Takes(q, accumulator, v)
  {
    hide ShiftedSix, Octets;
    ShiftedSixIs(accumulator, v);
    DigitIn6(accumulator, v);
    OctetsGrow(q, v);
    NextDigit(|q|);
  }

  lemma DigitTaken1(q: seq<Sextet>, accumulator: int, v: Sextet)
    requires Holds(accumulator, DigitBits(|q|), LastDigit(q)) && |q| % 4 == 1
    ensures Takes(q, accumulator, v)
  {
    hide ShiftedSix, Octets, Holds;
    OneLeft(q, accumulator);
    ShiftedSixIs(accumulator, v);
    DigitIn6(accumulator, v);
    OctetsGrow(q, v);
    NextDigit(|q|);
    FourWait(ShiftedSix(accumulator, v), v);
  }

  lemma OneLeft(q: seq<Sextet>, accumulator: int)
    requires |q| % 4 == 1 && Holds(accumulator, DigitBits(|q|), LastDigit(q))
    ensures accumulator % 64 == q[|q| - 1] && 0 <= accumulator < TWO32
  {
  }

  lemma FourWait(a: int, v: Sextet)
    requires 0 <= a < TWO32 && a % 16 == v % 16
    ensures Holds(a, 4, v) && Shift(4) == 16
  {
  }

  lemma DigitTaken2(q: seq<Sextet>, accumulator: int, v: Sextet)
    requires Holds(accumulator, DigitBits(|q|), LastDigit(q)) && |q| % 4 == 2
    ensures Takes(q, accumulator, v)
  {
    hide ShiftedSix, Octets;
    ShiftedSixIs(accumulator, v);
    DigitIn4(accumulator, v);
    OctetsGrow(q, v);
    NextDigit(|q|);
  }

  lemma DigitTaken3(q: seq<Sextet>, accumulator: int, v: Sextet)
    requires Holds(accumulator, DigitBits(|q|), LastDigit(q)) && |q| % 4 == 3
    ensures Takes(q, accumulator, v)
  {
    hide ShiftedSix, Octets;
    ShiftedSixIs(accumulator, v);
    DigitIn2(accumulator, v);
    OctetsGrow(q, v);
    NextDigit(|q|);
  }

  lemma NextDigit(k: nat)
    ensures (k + 1) % 4 == if k % 4 == 3 then 0 else k % 4 + 1
  {
  }

  /** The byte that a digit completes. */
  lemma OctetsGrow(q: seq<Sextet>, v: Sextet)
    ensures var k, next := |q|, q + [v];
      && (k % 4 == 0 ==> Octets(next) == Octets(q))
      && (k % 4 == 1 ==> Octets(next) == Octets(q) + [q[k - 1] * 4 + v / 16])
      && (k % 4 == 2 ==> Octets(next) == Octets(q) + [q[k - 1] % 16 * 16 + v / 4])
      && (k % 4 == 3 ==> Octets(next) == Octets(q) + [q[k - 1] % 4 * 64 + v])
  {
    hide OctetAt;
    var k, next := |q|, q + [v];
    var g, r := k / 4, k % 4;
    assert k == 4 * g + r;
    assert OctetCount(k) == 3 * g + (if r == 0 then 0 else r - 1);
    assert OctetCount(k + 1) == 3 * g + r;
    forall j: nat | j < OctetCount(k)
      ensures OctetAt(next, j) == OctetAt(q, j)
    {
      OctetSame(q, v, j);
    }
    if r > 0 {
      OctetNew(q, v, g, r);
    }
  }

  lemma OctetSame(q: seq<Sextet>, v: Sextet, j: nat)
    requires j < OctetCount(|q|)
    ensures OctetAt(q + [v], j) == OctetAt(q, j)
  {
    var g, r := j / 3, j % 3;
    assert j == 3 * g + r;
    assert 4 * g + r + 1 < |q|;
    assert forall k: nat | k < |q| :: SextetOr0(q + [v], k) == SextetOr0(q, k);
  }

  lemma OctetNew(q: seq<Sextet>, v: Sextet, g: nat, r: nat)
    requires |q| == 4 * g + r && 1 <= r <= 3
    ensures OctetAt(q + [v], 3 * g + r - 1) ==
      if r == 1 then q[|q| - 1] * 4 + v / 16 else if r == 2 then q[|q| - 1] % 16 * 16 + v / 4 else q[|q| - 1] % 4 * 64 + v
  {
    InGroups(g, r - 1);
    assert 3 * g + r - 1 == 3 * g + (r - 1);
    assert SextetOr0(q + [v], 4 * g + r) == v && SextetOr0(q + [v], 4 * g + r - 1) == q[|q| - 1];
  }

  /** base64_decode */
  method Decode(ascdata: string) returns (r: Result<seq<Byte>>)
    ensures r == Decoding(ascdata)
  {
    hide Shift, ShiftedSix, Octets, Reverse, IsSkipped;
    var retval: seq<Byte> := [];
    var bits, accumulator := 0, 0;
    ghost var q: seq<Sextet> := [];
    HoldsNothing();
    NoOctets();
    var i := 0;
    while i < |ascdata|
      invariant 0 <= i <= |ascdata| && Digits(ascdata[..i]) == Ok(q) && retval == Octets(q)
      invariant bits == DigitBits(|q|) && Holds(accumulator, bits, LastDigit(q))
    {
      assert ascdata[..i + 1][..i] == ascdata[..i];
      var c := ascdata[i];
      if !IsSkipped(c) {
        if Reverse(c) > 63 {
          BadDigit(ascdata, i + 1);
          return IllegalCharacter;
        }
        DigitTaken(q, accumulator, Reverse(c));
        q := q + [Reverse(c)];
        accumulator := ShiftedSix(accumulator, Reverse(c));
        bits := bits + 6;
        if bits >= 8 {
          bits := bits - 8;
          retval := retval + [accumulator / Shift(bits) % 256];
        }
      }
      i := i + 1;
    }
    assert ascdata[..i] == ascdata;
    r := Ok(retval);
  }

  lemma NoOctets()
    ensures Octets([]) == []
  {
  }

  /** An illegal character makes the whole text illegal. */
  lemma {:induction false} BadDigit(t: string, i: nat)
    requires i <= |t| && !Digits(t[..i]).Ok?
    ensures Decoding(t) == IllegalCharacter
    decreases |t|
  {
    hide Octets, Reverse, IsSkipped;
    if i < |t| {
      var n := |t| - 1;
      assert t[..n][..i] == t[..i];
      BadDigit(t[..n], i);
    } else {
      assert t[..i] == t;
    }
  }

  // ---- An assertion that does not hold ------------------------------------------------------

  /** `outpos >= retval.size() - 2`, in the 64-bit arithmetic of sizes. */
  predicate EndAssertion(outpos: nat, size: nat) { outpos >= (size - 2) % TWO64 }

  /** The assertion at the end of encoding holds exactly when there was something to encode. */
  lemma EndAssertionExact(n: nat)
    requires n <= (TWO64 - 1) / 4 * 3
    ensures EndAssertion(SextetCount(n), EncodedLength(n)) <==> n > 0
  {
    CountFits(n);
  }
}
