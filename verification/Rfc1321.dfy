/** Left folds over 64-byte blocks. */
module BlockFold {

  type Byte = bv8

  type Block = b: seq<Byte> | |b| == 64 witness seq(64, _ => 0)

  function Fold<Q>(f: (Q, Block) -> Q, q: Q, s: seq<Byte>): Q
    requires |s| % 64 == 0
  {
    if |s| == 0 then q else f(Fold(f, q, s[..|s| - 64]), s[|s| - 64..])
  }

  /** Folding a concatenation is folding the parts in order, whatever the number of blocks in each. */
  lemma {:induction false} FoldConcat<Q>(f: (Q, Block) -> Q, q: Q, s: seq<Byte>, t: seq<Byte>, u: seq<Byte>)
    requires |s| % 64 == 0 && |t| % 64 == 0 && u == s + t
    ensures |u| % 64 == 0 && Fold(f, q, u) == Fold(f, Fold(f, q, s), t)
    decreases |t|
  {
    if |t| == 0 {
      assert u == s;
    } else {
      var t0, block := t[..|t| - 64], t[|t| - 64..];
      FoldConcat(f, q, s, t0, s + t0);
      FoldOne(f, q, s + t0, block);
      FoldOne(f, Fold(f, q, s), t0, block);
      assert t == t0 + block && u == s + t0 + block;
    }
  }

  lemma FoldOne<Q>(f: (Q, Block) -> Q, q: Q, s: seq<Byte>, block: Block)
    requires |s| % 64 == 0
    ensures |s + block| % 64 == 0
    ensures Fold(f, q, s + block) == f(Fold(f, q, s), block)
  {
    assert (s + block)[..|s + block| - 64] == s;
    assert (s + block)[|s + block| - 64..] == block;
  }
}

/** Sixteen operations on four registers, each rewriting one register from all four. */
module Rounds {

  datatype Quad<W> = Quad(a: W, b: W, c: W, d: W)

  /**
    The first `n` operations of a round. Each writes the register in role `a`; the roles then move on by one, so
    that the register just written is `b`.
   */
  function Round<W>(op: (nat, W, W, W, W) -> W, n: nat, q: Quad<W>): Quad<W> {
    if n == 0 then q
    else
      var p := Round(op, n - 1, q);
      Quad(p.d, op(n - 1, p.a, p.b, p.c, p.d), p.b, p.c)
  }

  /** `h` lists the initial a, d, c, b and then what the operations wrote: this is what operation `j` wrote. */
  ghost predicate Wrote<W>(op: (nat, W, W, W, W) -> W, h: seq<W>, j: nat)
    requires j + 4 < |h|
  {
    h[j + 4] == op(j, h[j], h[j + 3], h[j + 2], h[j + 1])
  }

  lemma {:induction false} RoundHistory<W>(op: (nat, W, W, W, W) -> W, n: nat, h: seq<W>)
    requires |h| == n + 4
    requires forall j :: 0 <= j < n ==> Wrote(op, h, j)
    ensures Round(op, n, Quad(h[0], h[3], h[2], h[1])) == Quad(h[n], h[n + 3], h[n + 2], h[n + 1])
  {
    if n > 0 {
      var g := h[..n + 3];
      forall j | 0 <= j < n - 1 ensures Wrote(op, g, j) {
        assert Wrote(op, h, j);
      }
      RoundHistory(op, n - 1, g);
      assert Wrote(op, h, n - 1);
    }
  }

  /** Sixteen straight-line assignments, the registers written in the order a, d, c, b, are a whole round. */
  lemma Sixteen<W>(op: (nat, W, W, W, W) -> W, a: W, b: W, c: W, d: W,
                   a1: W, d1: W, c1: W, b1: W, a2: W, d2: W, c2: W, b2: W,
                   a3: W, d3: W, c3: W, b3: W, a4: W, d4: W, c4: W, b4: W)
    requires a1 == op(0, a, b, c, d) && d1 == op(1, d, a1, b, c)
    requires c1 == op(2, c, d1, a1, b) && b1 == op(3, b, c1, d1, a1)
    requires a2 == op(4, a1, b1, c1, d1) && d2 == op(5, d1, a2, b1, c1)
    requires c2 == op(6, c1, d2, a2, b1) && b2 == op(7, b1, c2, d2, a2)
    requires a3 == op(8, a2, b2, c2, d2) && d3 == op(9, d2, a3, b2, c2)
    requires c3 == op(10, c2, d3, a3, b2) && b3 == op(11, b2, c3, d3, a3)
    requires a4 == op(12, a3, b3, c3, d3) && d4 == op(13, d3, a4, b3, c3)
    requires c4 == op(14, c3, d4, a4, b3) && b4 == op(15, b3, c4, d4, a4)
    ensures Round(op, 16, Quad(a, b, c, d)) == Quad(a4, b4, c4, d4)
  {
    RoundHistory(op, 16, [a, d, c, b, a1, d1, c1, b1, a2, d2, c2, b2, a3, d3, c3, b3, a4, d4, c4, b4]);
  }
}

/**
  The MD5 message-digest function of RFC 1321, written functionally on byte sequences and 32-bit words.
  Section numbers in comments are those of RFC 1321.
 */
module Rfc1321 {
  import opened BlockFold
  import opened Rounds

  type Word = bv32

  /** The four-word state A, B, C, D of section 3.3. */
  type State = Quad<Word>

  const INITIAL: State := Quad(0x67452301, 0xefcdab89, 0x98badcfe, 0x10325476)

  // ---------------------------------------------------------------- section 3.4: one block

  function F(x: Word, y: Word, z: Word): Word { (x & y) | (!x & z) }

  function G(x: Word, y: Word, z: Word): Word { (x & z) | (y & !z) }

  function H(x: Word, y: Word, z: Word): Word { x ^ y ^ z }

  function I(x: Word, y: Word, z: Word): Word { y ^ (x | !z) }

  function Left(x: Word, s: bv6): Word
    requires s <= 32
  {
    x << s
  }

  function Right(x: Word, s: bv6): Word
    requires s <= 32
  {
    x >> s
  }

  function Or(x: Word, y: Word): Word { x | y }

  function Rotate(x: Word, s: bv6): Word
    requires 0 < s < 32
  {
    Or(Left(x, s), Right(x, 32 - s))
  }

  function Sum4(a: Word, f: Word, x: Word, t: Word): Word { a + f + x + t }

  function Plus(x: Word, y: Word): Word { x + y }

  /** b + ((a + f + X[k] + T[i]) <<< s), where f is F, G, H or I of b, c and d. */
  function Operation(a: Word, b: Word, f: Word, xk: Word, s: bv6, ti: Word): Word
    requires 0 < s < 32
  {
    Plus(b, Rotate(Sum4(a, f, xk, ti), s))
  }

  // The table T[1..64]: T[i] is the integer part of 4294967296 times abs(sin(i)), i in radians.
  function Sine1(j: nat): Word
    requires j < 16
  {
    match j
    case 0 => 0xd76aa478
    case 1 => 0xe8c7b756
    case 2 => 0x242070db
    case 3 => 0xc1bdceee
    case 4 => 0xf57c0faf
    case 5 => 0x4787c62a
    case 6 => 0xa8304613
    case 7 => 0xfd469501
    case 8 => 0x698098d8
    case 9 => 0x8b44f7af
    case 10 => 0xffff5bb1
    case 11 => 0x895cd7be
    case 12 => 0x6b901122
    case 13 => 0xfd987193
    case 14 => 0xa679438e
    case _ => 0x49b40821
  }

  function Sine2(j: nat): Word
    requires j < 16
  {
    match j
    case 0 => 0xf61e2562
    case 1 => 0xc040b340
    case 2 => 0x265e5a51
    case 3 => 0xe9b6c7aa
    case 4 => 0xd62f105d
    case 5 => 0x02441453
    case 6 => 0xd8a1e681
    case 7 => 0xe7d3fbc8
    case 8 => 0x21e1cde6
    case 9 => 0xc33707d6
    case 10 => 0xf4d50d87
    case 11 => 0x455a14ed
    case 12 => 0xa9e3e905
    case 13 => 0xfcefa3f8
    case 14 => 0x676f02d9
    case _ => 0x8d2a4c8a
  }

  function Sine3(j: nat): Word
    requires j < 16
  {
    match j
    case 0 => 0xfffa3942
    case 1 => 0x8771f681
    case 2 => 0x6d9d6122
    case 3 => 0xfde5380c
    case 4 => 0xa4beea44
    case 5 => 0x4bdecfa9
    case 6 => 0xf6bb4b60
    case 7 => 0xbebfbc70
    case 8 => 0x289b7ec6
    case 9 => 0xeaa127fa
    case 10 => 0xd4ef3085
    case 11 => 0x04881d05
    case 12 => 0xd9d4d039
    case 13 => 0xe6db99e5
    case 14 => 0x1fa27cf8
    case _ => 0xc4ac5665
  }

  function Sine4(j: nat): Word
    requires j < 16
  {
    match j
    case 0 => 0xf4292244
    case 1 => 0x432aff97
    case 2 => 0xab9423a7
    case 3 => 0xfc93a039
    case 4 => 0x655b59c3
    case 5 => 0x8f0ccc92
    case 6 => 0xffeff47d
    case 7 => 0x85845dd1
    case 8 => 0x6fa87e4f
    case 9 => 0xfe2ce6e0
    case 10 => 0xa3014314
    case 11 => 0x4e0811a1
    case 12 => 0xf7537e82
    case 13 => 0xbd3af235
    case 14 => 0x2ad7d2bb
    case _ => 0xeb86d391
  }

  function Mix(round: nat, x: Word, y: Word, z: Word): Word {
    match round
    case 0 => F(x, y, z)
    case 1 => G(x, y, z)
    case 2 => H(x, y, z)
    case _ => I(x, y, z)
  }

  /** 1, 6, 11, ...: steps of 5 modulo 16. */
  function Index2(j: nat): (k: nat)
    ensures k < 16
  {
    match j
    case 0 => 1
    case 1 => 6
    case 2 => 11
    case 3 => 0
    case 4 => 5
    case 5 => 10
    case 6 => 15
    case 7 => 4
    case 8 => 9
    case 9 => 14
    case 10 => 3
    case 11 => 8
    case 12 => 13
    case 13 => 2
    case 14 => 7
    case _ => 12
  }

  /** 5, 8, 11, ...: steps of 3 modulo 16. */
  function Index3(j: nat): (k: nat)
    ensures k < 16
  {
    match j
    case 0 => 5
    case 1 => 8
    case 2 => 11
    case 3 => 14
    case 4 => 1
    case 5 => 4
    case 6 => 7
    case 7 => 10
    case 8 => 13
    case 9 => 0
    case 10 => 3
    case 11 => 6
    case 12 => 9
    case 13 => 12
    case 14 => 15
    case _ => 2
  }

  /** 0, 7, 14, ...: steps of 7 modulo 16. */
  function Index4(j: nat): (k: nat)
    ensures k < 16
  {
    match j
    case 0 => 0
    case 1 => 7
    case 2 => 14
    case 3 => 5
    case 4 => 12
    case 5 => 3
    case 6 => 10
    case 7 => 1
    case 8 => 8
    case 9 => 15
    case 10 => 6
    case 11 => 13
    case 12 => 4
    case 13 => 11
    case 14 => 2
    case _ => 9
  }

  /** Which message word operation `j` of a round reads. */
  function Index(round: nat, j: nat): (k: nat)
    ensures k < 16
  {
    match round
    case 0 => j % 16
    case 1 => Index2(j)
    case 2 => Index3(j)
    case _ => Index4(j)
  }

  function Shift(round: nat, j: nat): (s: bv6)
    ensures 0 < s < 32
  {
    match round
    case 0 => (match j % 4 case 0 => 7 case 1 => 12 case 2 => 17 case _ => 22)
    case 1 => (match j % 4 case 0 => 5 case 1 => 9 case 2 => 14 case _ => 20)
    case 2 => (match j % 4 case 0 => 4 case 1 => 11 case 2 => 16 case _ => 23)
    case _ => (match j % 4 case 0 => 6 case 1 => 10 case 2 => 15 case _ => 21)
  }

  function Sine(round: nat, j: nat): Word
    requires j < 16
  {
    match round
    case 0 => Sine1(j)
    case 1 => Sine2(j)
    case 2 => Sine3(j)
    case _ => Sine4(j)
  }

  /** What operation `j` of a round writes, given registers a, b, c, d in the roles the RFC's notation gives them. */
  function Operations(round: nat, x: seq<Word>): (nat, Word, Word, Word, Word) -> Word
    requires |x| == 16
  {
    (j: nat, a: Word, b: Word, c: Word, d: Word) =>
      if j < 16 then Operation(a, b, Mix(round, b, c, d), x[Index(round, j)], Shift(round, j), Sine(round, j)) else a
  }

  function WordOf(b0: Byte, b1: Byte, b2: Byte, b3: Byte): Word {
    b0 as Word | (b1 as Word << 8) | (b2 as Word << 16) | (b3 as Word << 24)
  }

  /** A 64-byte block as sixteen words, low-order byte first (section 2). */
  function Words(block: seq<Byte>): (x: seq<Word>)
    requires |block| == 64
    ensures |x| == 16
  {
    seq(16, k requires 0 <= k < 16 => WordOf(block[4 * k], block[4 * k + 1], block[4 * k + 2], block[4 * k + 3]))
  }

  function Add(p: State, q: State): State { Quad(Plus(q.a, p.a), Plus(q.b, p.b), Plus(q.c, p.c), Plus(q.d, p.d)) }

  function Compress(q: State, block: Block): State {
    var x := Words(block);
    Add(q, Round(Operations(3, x), 16,
                 Round(Operations(2, x), 16, Round(Operations(1, x), 16, Round(Operations(0, x), 16, q)))))
  }

  /** All whole blocks of `s`, folded from the left. */
  function Absorb(q: State, s: seq<Byte>): State
    requires |s| % 64 == 0
  {
    Fold(Compress, q, s)
  }

  // ---------------------------------------------------------------- sections 3.1, 3.2 and 3.5

  /** The low-order `k` base-256 digits of `v`, low-order digit first. */
  function Digits(v: nat, k: nat): (s: seq<nat>)
    ensures |s| == k && forall i :: 0 <= i < k ==> s[i] < 256
  {
    if k == 0 then [] else [v % 256] + Digits(v / 256, k - 1)
  }

  function ToBytes(digits: seq<nat>): (s: seq<Byte>)
    requires forall i :: 0 <= i < |digits| ==> digits[i] < 256
    ensures |s| == |digits|
  {
    seq(|digits|, i requires 0 <= i < |digits| => digits[i] as Byte)
  }

  /** The low-order `k` bytes of `v`, low-order byte first. */
  function LittleEndian(v: nat, k: nat): (s: seq<Byte>)
    ensures |s| == k
  {
    ToBytes(Digits(v, k))
  }

  /** Section 3.2: the low-order 64 bits of the message length in bits, as two words, low-order word first. */
  function LengthBytes(n: nat): (s: seq<Byte>)
    ensures |s| == 8
  {
    LittleEndian(8 * n % 0x1_0000_0000, 4) + LittleEndian(8 * n / 0x1_0000_0000 % 0x1_0000_0000, 4)
  }

  /** Section 3.1: how many bytes bring a message of `n` bytes to 56 modulo 64; at least one. */
  function PadLength(n: nat): (k: nat)
    ensures 1 <= k <= 64 && (n + k) % 64 == 56
  {
    if n % 64 < 56 then 56 - n % 64 else 120 - n % 64
  }

  function Padding(n: nat): (p: seq<Byte>)
    ensures |p| == PadLength(n)
  {
    [0x80] + seq(PadLength(n) - 1, _ => 0)
  }

  function WordBytes(w: Word): (s: seq<Byte>)
    ensures |s| == 4
  {
    [(w & 0xff) as Byte, ((w >> 8) & 0xff) as Byte, ((w >> 16) & 0xff) as Byte, ((w >> 24) & 0xff) as Byte]
  }

  function StateBytes(q: State): (s: seq<Byte>)
    ensures |s| == 16
  {
    WordBytes(q.a) + WordBytes(q.b) + WordBytes(q.c) + WordBytes(q.d)
  }

  /** The digest of `msg` when `length` is what goes in the length field. */
  function DigestWith(msg: seq<Byte>, length: seq<Byte>): (s: seq<Byte>)
    requires |length| == 8
    ensures |s| == 16
  {
    StateBytes(Absorb(INITIAL, msg + Padding(|msg|) + length))
  }

  function Digest(msg: seq<Byte>): (s: seq<Byte>)
    ensures |s| == 16
  {
    DigestWith(msg, LengthBytes(|msg|))
  }
}
