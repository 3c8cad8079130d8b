/**
  The word arithmetic of MD5.java. A Java `long` is a 64-bit vector here; the code keeps 32-bit words in
  `long`s, lets carries and sign extensions fill the upper halves, and only rotates through `(int)` casts.
  `Low` is the word such a `long` stands for.
 */
module Md5Arithmetic {
  import Rfc = Rfc1321

  type Long = bv64

  type Int = bv32

  function Low(x: Long): Int { (x & 0xffff_ffff) as Int }

  /** Widening an `int` to a `long` copies the sign bit. */
  function SignExtend(i: Int): Long {
    if i & 0x8000_0000 == 0 then i as Long else i as Long | 0xffff_ffff_0000_0000
  }

  // An `int` shifted by a `long` distance uses the low five bits of the distance.

  function ShiftLeft(i: Int, s: Long): Int { Rfc.Left(i, (s & 0x1f) as bv6) }

  function ShiftRight(i: Int, s: Long): Int { Rfc.Right(i, (s & 0x1f) as bv6) }

  function RotateInt(a: Long, s: Long): Long {
    SignExtend(Rfc.Or(ShiftLeft(Low(a), s), ShiftRight(Low(a), 32 - s)))
  }

  function F(x: Long, y: Long, z: Long): Long { (x & y) | (!x & z) }

  function G(x: Long, y: Long, z: Long): Long { (x & z) | (y & !z) }

  function H(x: Long, y: Long, z: Long): Long { x ^ y ^ z }

  function I(x: Long, y: Long, z: Long): Long { y ^ (x | !z) }

  function Plus(x: Long, y: Long): Long { x + y }

  function Sum4(a: Long, f: Long, x: Long, ac: Long): Long { a + (f + x + ac) }

  // ---------------------------------------------------------------- taking the low word

  lemma LowWidened(x: Long)
    requires x <= 0xffff_ffff
    ensures Low(x) as Long == x
  {}

  // The solver decides a closed bit-vector identity by rewriting and carries it to an instance by congruence,
  // but not both at once: a `Raw` lemma is the identity, and the lemma after it the instance.

  lemma PlusRaw(x: Long, y: Long, z: Int)
    requires z == ((x + y) & 0xffff_ffff) as Int
    ensures z == Rfc.Plus((y & 0xffff_ffff) as Int, (x & 0xffff_ffff) as Int)
  {}

  lemma LowPlus(x: Long, y: Long)
    ensures Low(Plus(x, y)) == Rfc.Plus(Low(y), Low(x))
  {
    PlusRaw(x, y, Low(Plus(x, y)));
  }

  lemma Sum4Raw(a: Long, f: Long, x: Long, t: Long, z: Int)
    requires z == ((a + (f + x + t)) & 0xffff_ffff) as Int
    ensures z == Rfc.Sum4((a & 0xffff_ffff) as Int, (f & 0xffff_ffff) as Int, (x & 0xffff_ffff) as Int,
                          (t & 0xffff_ffff) as Int)
  {}

  lemma LowSum4(a: Long, f: Long, x: Long, t: Long)
    ensures Low(Sum4(a, f, x, t)) == Rfc.Sum4(Low(a), Low(f), Low(x), Low(t))
  {
    Sum4Raw(a, f, x, t, Low(Sum4(a, f, x, t)));
  }

  lemma FRaw(x: Long, y: Long, z: Long)
    ensures (((x & y) | (!x & z)) & 0xffff_ffff) as Int
         == ((x & 0xffff_ffff) as Int & (y & 0xffff_ffff) as Int)
            | (!((x & 0xffff_ffff) as Int) & (z & 0xffff_ffff) as Int)
  {}

  lemma LowF(x: Long, y: Long, z: Long)
    ensures Low(F(x, y, z)) == Rfc.F(Low(x), Low(y), Low(z))
  {
    FRaw(x, y, z);
  }

  lemma GRaw(x: Long, y: Long, z: Long)
    ensures (((x & z) | (y & !z)) & 0xffff_ffff) as Int
         == ((x & 0xffff_ffff) as Int & (z & 0xffff_ffff) as Int)
            | ((y & 0xffff_ffff) as Int & !((z & 0xffff_ffff) as Int))
  {}

  lemma LowG(x: Long, y: Long, z: Long)
    ensures Low(G(x, y, z)) == Rfc.G(Low(x), Low(y), Low(z))
  {
    GRaw(x, y, z);
  }

  lemma HRaw(x: Long, y: Long, z: Long)
    ensures ((x ^ y ^ z) & 0xffff_ffff) as Int
         == (x & 0xffff_ffff) as Int ^ (y & 0xffff_ffff) as Int ^ (z & 0xffff_ffff) as Int
  {}

  lemma LowH(x: Long, y: Long, z: Long)
    ensures Low(H(x, y, z)) == Rfc.H(Low(x), Low(y), Low(z))
  {
    HRaw(x, y, z);
  }

  lemma IRaw(x: Long, y: Long, z: Long)
    ensures ((y ^ (x | !z)) & 0xffff_ffff) as Int
         == (y & 0xffff_ffff) as Int ^ ((x & 0xffff_ffff) as Int | !((z & 0xffff_ffff) as Int))
  {}

  lemma LowI(x: Long, y: Long, z: Long)
    ensures Low(I(x, y, z)) == Rfc.I(Low(x), Low(y), Low(z))
  {
    IRaw(x, y, z);
  }

  lemma SameLow(l: Long, m: Long)
    requires l == m
    ensures (l & 0xffff_ffff) as Int == (m & 0xffff_ffff) as Int
  {}

  lemma SignParts(i: Int, l: Long, r: Int)
    requires l == i as Long || l == i as Long | 0xffff_ffff_0000_0000
    requires r == (l & 0xffff_ffff) as Int
    ensures r == i
  {
    if l == i as Long {
      SameLow(l, i as Long);
    } else {
      SameLow(l, i as Long | 0xffff_ffff_0000_0000);
    }
  }

  lemma LowSign(i: Int)
    ensures Low(SignExtend(i)) == i
  {
    SignParts(i, SignExtend(i), Low(SignExtend(i)));
  }

  lemma DistanceRaw(s: Long)
    requires 0 < s < 32
    ensures s <= 63 && 0 < s as bv6 < 32
    ensures (s & 0x1f) as bv6 == s as bv6 && ((32 - s) & 0x1f) as bv6 == 32 - s as bv6
  {}

  lemma RotateParts(i: Int, s: bv6, d: bv6, e: bv6, r: Int)
    requires 0 < s < 32 && d == s && e == 32 - s
    requires r == Rfc.Or(Rfc.Left(i, d), Rfc.Right(i, e))
    ensures r == Rfc.Rotate(i, s)
  {}

  /** The two-shift expression of FF, GG, HH and II rotates the low word, whatever the upper half holds. */
  lemma LowRotate(a: Long, s: Long)
    requires 0 < s < 32
    ensures 0 < s as bv6 < 32 && Low(RotateInt(a, s)) == Rfc.Rotate(Low(a), s as bv6)
  {
    DistanceRaw(s);
    var i := Low(a);
    var r := Rfc.Or(ShiftLeft(i, s), ShiftRight(i, 32 - s));
    LowSign(r);
    RotateParts(i, s as bv6, (s & 0x1f) as bv6, ((32 - s) & 0x1f) as bv6, r);
  }

  // ---------------------------------------------------------------- one operation

  /** The three assignments that FF, GG, HH and II share; `f` is what their auxiliary function returned. */
  function Operate(a: Long, b: Long, f: Long, x: Long, s: Long, ac: Long): Long {
    Plus(RotateInt(Sum4(a, f, x, ac), s), b)
  }

  lemma LowOperate(a: Long, b: Long, f: Long, x: Long, s: Long, ac: Long)
    requires 0 < s < 32
    ensures 0 < s as bv6 < 32
    ensures Low(Operate(a, b, f, x, s, ac))
         == Rfc.Operation(Low(a), Low(b), Low(f), Low(x), s as bv6, Low(ac))
  {
    LowSum4(a, f, x, ac);
    LowRotate(Sum4(a, f, x, ac), s);
    LowPlus(RotateInt(Sum4(a, f, x, ac), s), b);
  }
}
