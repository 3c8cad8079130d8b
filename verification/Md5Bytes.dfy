/** Conversions between the bytes and the `long`s of MD5.java. */
module Md5Bytes {
  import opened BlockFold
  import opened Md5Arithmetic
  import Rfc = Rfc1321

  /** `b2iu`: Java bytes are signed, and `&` binds more weakly than `+`. */
  function UnsignedByte(b: Byte): (r: Long)
    ensures r == b as Long
  {
    if b & 0x80 != 0 then SignExtend((b as Int | 0xffff_ff00) & (0x7f + 128)) else b as Long
  }

  /** One word as `Decode` assembles it. */
  function DecodedWord(b0: Byte, b1: Byte, b2: Byte, b3: Byte): Long {
    UnsignedByte(b0) | (UnsignedByte(b1) << 8) | (UnsignedByte(b2) << 16) | (UnsignedByte(b3) << 24)
  }

  lemma DecodedRaw(b0: Byte, b1: Byte, b2: Byte, b3: Byte, w: Long)
    requires w == b0 as Long | (b1 as Long << 8) | (b2 as Long << 16) | (b3 as Long << 24)
    ensures (w & 0xffff_ffff) as Int == b0 as Int | (b1 as Int << 8) | (b2 as Int << 16) | (b3 as Int << 24)
  {}

  lemma LowDecoded(b0: Byte, b1: Byte, b2: Byte, b3: Byte)
    ensures Low(DecodedWord(b0, b1, b2, b3)) == Rfc.WordOf(b0, b1, b2, b3)
  {
    DecodedRaw(b0, b1, b2, b3, DecodedWord(b0, b1, b2, b3));
  }

  /** The four bytes that `Encode` takes from one `long` of the state. */
  function EncodedWord(x: Long): (s: seq<Byte>)
    ensures |s| == 4
  {
    [(x & 0xff) as Byte, ((x >> 8) & 0xff) as Byte, ((x >> 16) & 0xff) as Byte, ((x >> 24) & 0xff) as Byte]
  }

  lemma ByteRaw(x: Long, w: Int)
    requires w == (x & 0xffff_ffff) as Int
    ensures (x & 0xff) as Byte == (w & 0xff) as Byte
    ensures ((x >> 8) & 0xff) as Byte == ((w >> 8) & 0xff) as Byte
    ensures ((x >> 16) & 0xff) as Byte == ((w >> 16) & 0xff) as Byte
    ensures ((x >> 24) & 0xff) as Byte == ((w >> 24) & 0xff) as Byte
  {}

  /** The upper half of a state word never reaches the digest. */
  lemma EncodedLow(x: Long)
    ensures EncodedWord(x) == Rfc.WordBytes(Low(x))
  {
    ByteRaw(x, Low(x));
  }

  lemma WordBytesRaw(b0: Byte, b1: Byte, b2: Byte, b3: Byte, w: Int)
    requires w == b0 as Int | (b1 as Int << 8) | (b2 as Int << 16) | (b3 as Int << 24)
    ensures (w & 0xff) as Byte == b0 && ((w >> 8) & 0xff) as Byte == b1
    ensures ((w >> 16) & 0xff) as Byte == b2 && ((w >> 24) & 0xff) as Byte == b3
  {}

  /** `Encode` undoes `Decode`, and the other way round up to the upper half. */
  lemma DecodeEncode(b0: Byte, b1: Byte, b2: Byte, b3: Byte)
    ensures EncodedWord(DecodedWord(b0, b1, b2, b3)) == [b0, b1, b2, b3]
  {
    LowDecoded(b0, b1, b2, b3);
    EncodedLow(DecodedWord(b0, b1, b2, b3));
    var w := Rfc.WordOf(b0, b1, b2, b3);
    WordBytesOf(b0, b1, b2, b3, w);
  }

  lemma WordBytesOf(b0: Byte, b1: Byte, b2: Byte, b3: Byte, w: Int)
    requires w == Rfc.WordOf(b0, b1, b2, b3)
    ensures Rfc.WordBytes(w) == [b0, b1, b2, b3]
  {
    WordBytesRaw(b0, b1, b2, b3, w);
  }

  lemma WordOfRaw(x: Long, w: Int)
    requires w == (x & 0xffff_ffff) as Int
    ensures (((x & 0xff) as Byte) as Int) | ((((x >> 8) & 0xff) as Byte) as Int << 8)
            | ((((x >> 16) & 0xff) as Byte) as Int << 16) | ((((x >> 24) & 0xff) as Byte) as Int << 24) == w
  {}

  lemma EncodeDecode(x: Long)
    ensures var s := EncodedWord(x); Low(DecodedWord(s[0], s[1], s[2], s[3])) == Low(x)
  {
    var s := EncodedWord(x);
    LowDecoded(s[0], s[1], s[2], s[3]);
    WordOfRaw(x, Low(x));
  }

  function HexDigit(n: Byte): char {
    if n == 0 then '0' else if n == 1 then '1' else if n == 2 then '2' else if n == 3 then '3'
    else if n == 4 then '4' else if n == 5 then '5' else if n == 6 then '6' else if n == 7 then '7'
    else if n == 8 then '8' else if n == 9 then '9' else if n == 10 then 'a' else if n == 11 then 'b'
    else if n == 12 then 'c' else if n == 13 then 'd' else if n == 14 then 'e' else 'f'
  }

  /** `byteHEX`. */
  function ByteHex(b: Byte): (s: string)
    ensures |s| == 2
  {
    [HexDigit((b >> 4) & 0x0f), HexDigit(b & 0x0f)]
  }

  function Hex(s: seq<Byte>): (h: string)
    ensures |h| == 2 * |s|
  {
    if |s| == 0 then "" else Hex(s[..|s| - 1]) + ByteHex(s[|s| - 1])
  }

  /** The value of a hexadecimal digit, letters in lower case. */
  function Value(c: char): int { if c <= '9' then c as int - '0' as int else c as int - 'a' as int + 10 }

  predicate IsDigit(c: char) { '0' <= c <= '9' || 'a' <= c <= 'f' }

  lemma DigitReads(n: Byte)
    requires n <= 15
    ensures IsDigit(HexDigit(n)) && Value(HexDigit(n)) == n as nat
  {}

  /** Read as a hexadecimal number, the two digits are the byte. */
  lemma HexReads(b: Byte)
    ensures var h := ByteHex(b);
            IsDigit(h[0]) && IsDigit(h[1]) && 16 * Value(h[0]) + Value(h[1]) == b as nat
  {
    NibblesRaw(b, b);
    DigitReads((b >> 4) & 0x0f);
    DigitReads(b & 0x0f);
    NibblesValue(b);
  }

  lemma NibblesValue(b: Byte)
    ensures 16 * (((b >> 4) & 0x0f) as nat) + ((b & 0x0f) as nat) == b as nat
  {}

  lemma DigitInjective(m: Byte, n: Byte)
    requires m <= 15 && n <= 15 && HexDigit(m) == HexDigit(n)
    ensures m == n
  {}

  lemma NibblesRaw(b: Byte, c: Byte)
    ensures (b >> 4) & 0x0f <= 15 && b & 0x0f <= 15
    ensures (b >> 4) & 0x0f == (c >> 4) & 0x0f && b & 0x0f == c & 0x0f ==> b == c
  {}

  lemma ByteHexInjective(b: Byte, c: Byte)
    requires ByteHex(b) == ByteHex(c)
    ensures b == c
  {
    assert ByteHex(b)[0] == ByteHex(c)[0] && ByteHex(b)[1] == ByteHex(c)[1];
    NibblesRaw(b, c);
    NibblesRaw(c, b);
    DigitInjective((b >> 4) & 0x0f, (c >> 4) & 0x0f);
    DigitInjective(b & 0x0f, c & 0x0f);
  }

  /** Different byte strings, in particular different digests, have different renderings. */
  lemma {:induction false} HexInjective(s: seq<Byte>, t: seq<Byte>)
    requires Hex(s) == Hex(t)
    ensures s == t
  {
    assert |Hex(s)| == 2 * |s| && |Hex(t)| == 2 * |t|;
    if |s| > 0 {
      var m := |s| - 1;
      var b, c := s[m], t[m];
      assert Hex(s)[..2 * m] == Hex(s[..m]) && Hex(t)[..2 * m] == Hex(t[..m]);
      assert Hex(s)[2 * m..] == ByteHex(b) && Hex(t)[2 * m..] == ByteHex(c);
      HexInjective(s[..m], t[..m]);
      ByteHexInjective(b, c);
      assert s == s[..m] + [b] && t == t[..m] + [c];
    }
  }
}
