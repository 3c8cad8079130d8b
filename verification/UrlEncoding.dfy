/** The encoding of `URLEncoder.encode(s, "UTF-8")` for code points, and a decoder that undoes it. */
module UrlEncoding {

  /** The characters that are kept; a space becomes a plus sign, all others the bytes of their UTF-8 form. */
  predicate Kept(c: char) {
    'a' <= c <= 'z' || 'A' <= c <= 'Z' || '0' <= c <= '9' || c == '.' || c == '-' || c == '*' || c == '_'
  }

  type Byte = b: int | 0 <= b < 256

  /** Section 3 of RFC 3629. */
  function Utf8(c: char): (bs: seq<Byte>)
    ensures |bs| > 0
  {
    var n := c as int;
    if n < 0x80 then [n]
    else if n < 0x800 then [0xC0 + n / 64, 0x80 + n % 64]
    else if n < 0x1_0000 then [0xE0 + n / 4096, 0x80 + n / 64 % 64, 0x80 + n % 64]
    else [0xF0 + n / 262144, 0x80 + n / 4096 % 64, 0x80 + n / 64 % 64, 0x80 + n % 64]
  }

  function Digit(d: int): char
    requires 0 <= d < 16
  {
    "0123456789ABCDEF"[d]
  }

  function Value(c: char): (d: int)
    ensures 0 <= d < 16
  {
    if '0' <= c <= '9' then c as int - '0' as int
    else if 'A' <= c <= 'F' then c as int - 'A' as int + 10
    else 0
  }

  function Percent(b: Byte): (s: string)
    ensures |s| == 3
  {
    ['%', Digit(b / 16), Digit(b % 16)]
  }

  function Percents(bs: seq<Byte>): (s: string)
    ensures |s| == 3 * |bs|
  {
    if |bs| == 0 then "" else Percent(bs[0]) + Percents(bs[1..])
  }

  function EncodeChar(c: char): (s: string)
    ensures |s| > 0
  {
    if Kept(c) then [c] else if c == ' ' then "+" else Percents(Utf8(c))
  }

  function Encode(s: string): string {
    if |s| == 0 then "" else EncodeChar(s[0]) + Encode(s[1..])
  }

  /** The byte written at the given place of a text, if it is long enough. */
  function ByteAt(s: string, i: nat): (b: Byte) {
    if i + 2 < |s| then 16 * Value(s[i + 1]) + Value(s[i + 2]) else 0
  }

  /** The number of bytes that a first byte announces. */
  function Announced(b: Byte): (n: nat)
    ensures 1 <= n <= 4
  {
    if b < 0x80 then 1 else if b < 0xE0 then 2 else if b < 0xF0 then 3 else 4
  }

  /** The code point written as one to four bytes. */
  function CodeOf(b: Byte, c: Byte, d: Byte, e: Byte): int {
    match Announced(b)
    case 1 => b
    case 2 => (b - 0xC0) * 64 + (c - 0x80)
    case 3 => (b - 0xE0) * 4096 + (c - 0x80) * 64 + (d - 0x80)
    case _ => (b - 0xF0) * 262144 + (c - 0x80) * 4096 + (d - 0x80) * 64 + (e - 0x80)
  }

  function CodePoint(s: string): int { CodeOf(ByteAt(s, 0), ByteAt(s, 3), ByteAt(s, 6), ByteAt(s, 9)) }

  predicate IsCodePoint(n: int) { 0 <= n < 0xD800 || 0xE000 <= n < 0x11_0000 }

  /** Text that no encoding yields decodes to something or other. */
  function Decode(s: string): string {
    if |s| == 0 then ""
    else if s[0] == '+' then " " + Decode(s[1..])
    else if s[0] != '%' then [s[0]] + Decode(s[1..])
    else
      var n := 3 * Announced(ByteAt(s, 0));
      if n > |s| || !IsCodePoint(CodePoint(s)) then "" else [CodePoint(s) as char] + Decode(s[n..])
  }

  lemma DigitValue(d: int)
    requires 0 <= d < 16
    ensures Value(Digit(d)) == d
  {}

  lemma {:induction false} PercentsAt(bs: seq<Byte>, t: string, i: nat)
    requires i < |bs|
    ensures ByteAt(Percents(bs) + t, 3 * i) == bs[i]
  {
    if i == 0 {
      DigitValue(bs[0] / 16);
      DigitValue(bs[0] % 16);
    } else {
      PercentsAt(bs[1..], t, i - 1);
      assert forall k :: 3 <= k < |Percents(bs) + t| ==> (Percents(bs) + t)[k] == (Percents(bs[1..]) + t)[k - 3];
    }
  }

  lemma SixBits(n: int)
    requires 0 <= n < 0x11_0000
    ensures n == n / 64 * 64 + n % 64 && n / 64 == n / 4096 * 64 + n / 64 % 64
    ensures n / 4096 == n / 262144 * 64 + n / 4096 % 64
  {}

  lemma CodeBack(c: char, x: Byte, y: Byte, z: Byte)
    ensures var bs := Utf8(c);
            && Announced(bs[0]) == |bs|
            && CodeOf(bs[0], if |bs| > 1 then bs[1] else x, if |bs| > 2 then bs[2] else y,
                      if |bs| > 3 then bs[3] else z) == c as int
  {
    SixBits(c as int);
  }

  lemma ReadBack(c: char, t: string)
    ensures var s := Percents(Utf8(c)) + t;
            && 3 * Announced(ByteAt(s, 0)) == |Percents(Utf8(c))| && CodePoint(s) == c as int
  {
    var bs := Utf8(c);
    var s := Percents(bs) + t;
    forall i | 0 <= i < |bs| ensures ByteAt(s, 3 * i) == bs[i] {
      PercentsAt(bs, t, i);
    }
    assert ByteAt(s, 3 * 0) == bs[0];
    assert |bs| > 1 ==> ByteAt(s, 3 * 1) == bs[1];
    assert |bs| > 2 ==> ByteAt(s, 3 * 2) == bs[2];
    assert |bs| > 3 ==> ByteAt(s, 3 * 3) == bs[3];
    CodeBack(c, ByteAt(s, 3), ByteAt(s, 6), ByteAt(s, 9));
  }

  lemma DecodeChar(c: char, t: string)
    ensures Decode(EncodeChar(c) + t) == [c] + Decode(t)
  {
    var e := EncodeChar(c);
    assert (e + t)[|e|..] == t && (e + t)[0] == e[0];
    if !Kept(c) && c != ' ' {
      ReadBack(c, t);
      assert e[0] == '%';
    }
  }

  /** The decoder undoes the encoding of every text. */
  lemma {:induction false} RoundTrip(s: string)
    ensures Decode(Encode(s)) == s
  {
    if |s| > 0 {
      RoundTrip(s[1..]);
      DecodeChar(s[0], Encode(s[1..]));
    }
  }

  // ---------------------------------------------------------------- the form of encoded text

  /** Bit by bit: a first byte that tells how many follow, and six bits in each of these. */
  lemma Utf8Form(c: char)
    ensures var bs, n := Utf8(c), c as int;
            if n < 128 then bs == [n]
            else if n < 2048 then |bs| == 2 && 192 <= bs[0] < 224 && n == Bits(bs[0] as int - 192, bs[1..])
            else if n < 65536 then |bs| == 3 && 224 <= bs[0] < 240 && n == Bits(bs[0] as int - 224, bs[1..])
            else |bs| == 4 && 240 <= bs[0] < 248 && n == Bits(bs[0] as int - 240, bs[1..])
    ensures forall i :: 1 <= i < |Utf8(c)| ==> 128 <= Utf8(c)[i] < 192
  {
    var bs, n := Utf8(c), c as int;
    SixBits(n);
    if n >= 128 {
      BitsOf(bs[0] as int - (if n < 2048 then 192 else if n < 65536 then 224 else 240), bs[1..]);
    }
  }

  lemma BitsOf(n: int, bs: seq<Byte>)
    ensures |bs| == 1 ==> Bits(n, bs) == 64 * n + (bs[0] as int - 128)
    ensures |bs| == 2 ==> Bits(n, bs) == 4096 * n + 64 * (bs[0] as int - 128) + (bs[1] as int - 128)
    ensures |bs| == 3 ==>
      Bits(n, bs) == 262144 * n + 4096 * (bs[0] as int - 128) + 64 * (bs[1] as int - 128) + (bs[2] as int - 128)
    decreases |bs|
  {
    if 2 <= |bs| <= 3 {
      BitsOf(64 * n + (bs[0] as int - 128), bs[1..]);
    }
  }

  /** Six more bits from each byte. */
  function Bits(n: int, bs: seq<Byte>): int
    decreases |bs|
  {
    if |bs| == 0 then n else Bits(64 * n + (bs[0] as int - 128), bs[1..])
  }

  predicate UpperHex(c: char) { '0' <= c <= '9' || 'A' <= c <= 'F' }

  lemma {:induction false} PercentForm(bs: seq<Byte>, i: nat)
    requires i < |bs|
    ensures var s := Percents(bs);
            && s[3 * i] == '%' && UpperHex(s[3 * i + 1]) && UpperHex(s[3 * i + 2])
            && ByteAt(s, 3 * i) == bs[i]
  {
    var s, t := Percents(bs), Percents(bs[1..]);
    assert forall k :: 3 <= k < |s| ==> s[k] == t[k - 3];
    if i == 0 {
      DigitValue(bs[0] / 16);
      DigitValue(bs[0] % 16);
    } else {
      PercentForm(bs[1..], i - 1);
    }
  }

  /**
    Letters, digits and the four marks `. - * _` stay, a space becomes a plus sign, and of every other character each
    byte of its UTF-8 form becomes a percent sign and two hexadecimal digits in upper case.
   */
  lemma CharForm(c: char)
    ensures var e, bs := EncodeChar(c), Utf8(c);
            if 'a' <= c <= 'z' || 'A' <= c <= 'Z' || '0' <= c <= '9' || c in ".-*_" then e == [c]
            else if c == ' ' then e == "+"
            else
              && |e| == 3 * |bs|
              && forall i :: 0 <= i < |bs| ==>
                   && e[3 * i] == '%' && UpperHex(e[3 * i + 1]) && UpperHex(e[3 * i + 2])
                   && ByteAt(e, 3 * i) == bs[i]
  {
    assert c in ".-*_" <==> c == '.' || c == '-' || c == '*' || c == '_' by {
      var m := ".-*_";
      assert m[0] in m && m[1] in m && m[2] in m && m[3] in m;
    }
    forall i | 0 <= i < |Utf8(c)| {
      PercentForm(Utf8(c), i);
    }
  }

  lemma {:induction false} PercentsPlain(bs: seq<Byte>)
    ensures forall c :: c in Percents(bs) ==> c == '%' || Kept(c)
  {
    if |bs| > 0 {
      PercentsPlain(bs[1..]);
      forall c | c in Percent(bs[0]) ensures c == '%' || Kept(c) {
        assert Kept(Digit(bs[0] / 16)) && Kept(Digit(bs[0] % 16));
      }
    }
  }

  /** Encoded text consists of kept characters, plus and percent signs. */
  lemma {:induction false} EncodedPlain(s: string)
    ensures forall c :: c in Encode(s) ==> c == '+' || c == '%' || Kept(c)
  {
    if |s| > 0 {
      EncodedPlain(s[1..]);
      PercentsPlain(Utf8(s[0]));
    }
  }

  lemma EncodedFree(s: string, c: char)
    requires c != '+' && c != '%' && !Kept(c)
    ensures c !in Encode(s)
  {
    EncodedPlain(s);
  }
}
