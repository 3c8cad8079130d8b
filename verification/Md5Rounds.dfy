/** The four rounds of MD5.java as straight-line code, and the rounds of RFC 1321 on low words. */
module Md5Rounds {
  import opened Md5Arithmetic
  import Rfc = Rfc1321
  import opened Rounds

  function LowQuad(a: Long, b: Long, c: Long, d: Long): Rfc.State {
    Quad(Low(a), Low(b), Low(c), Low(d))
  }

  /** A round of section 3.4 of RFC 1321 over given message words, its operations kept as a function. */
  datatype Plan = Plan(round: nat, op: (nat, Int, Int, Int, Int) -> Int, w: seq<Int>)

  ghost predicate IsRound(p: Plan) {
    |p.w| == 16
    && forall j: nat, a, b, c, d {:trigger p.op(j, a, b, c, d), Rfc.Mix(p.round, b, c, d)} :: j < 16 ==>
      p.op(j, a, b, c, d) == Rfc.Operation(a, b, Rfc.Mix(p.round, b, c, d),
                                           p.w[Rfc.Index(p.round, j)], Rfc.Shift(p.round, j), Rfc.Sine(p.round, j))
  }

  lemma Distance(s: Long, t: bv6)
    requires s == t as Long && 0 < t < 32
    ensures 0 < s < 32 && s as bv6 == t
  {}

  const ZEROS: seq<Int> := seq(16, _ => 0)

  type RoundPlan = p: Plan | IsRound(p) ghost witness Plan(0, Rfc.Operations(0, ZEROS), ZEROS)

  /** A round over the words of a block. */
  ghost function PlanOf(round: nat, w: seq<Int>): (p: RoundPlan)
    requires |w| == 16
    ensures p.round == round && p.w == w && p.op == Rfc.Operations(round, w)
  {
    Plan(round, Rfc.Operations(round, w), w)
  }

  lemma Meets(p: RoundPlan, j: nat, a: Int, b: Int, c: Int, d: Int, f: Int, x: Int, s: bv6, t: Int, r: Int)
    requires j < 16 && f == Rfc.Mix(p.round, b, c, d) && x == p.w[Rfc.Index(p.round, j)]
    requires s == Rfc.Shift(p.round, j) && t == Rfc.Sine(p.round, j)
    requires r == Rfc.Operation(a, b, f, x, s, t)
    ensures r == p.op(j, a, b, c, d)
  {
    assert p.op(j, a, b, c, d) == Rfc.Operation(a, b, Rfc.Mix(p.round, b, c, d), x, s, t);
  }

  lemma MeetsLow(p: RoundPlan, j: nat, i: nat, a: Long, b: Long, c: Long, d: Long, f: Long, x: Long, s: Long, ac: Long)
    requires j < 16 && Low(f) == Rfc.Mix(p.round, Low(b), Low(c), Low(d))
    requires i == Rfc.Index(p.round, j) && Low(x) == p.w[i]
    requires s == Rfc.Shift(p.round, j) as Long && Low(ac) == Rfc.Sine(p.round, j)
    ensures Low(Operate(a, b, f, x, s, ac)) == p.op(j, Low(a), Low(b), Low(c), Low(d))
  {
    Distance(s, Rfc.Shift(p.round, j));
    LowOperate(a, b, f, x, s, ac);
    Meets(p, j, Low(a), Low(b), Low(c), Low(d), Low(f), Low(x), s as bv6, Low(ac), Low(Operate(a, b, f, x, s, ac)));
  }

  /** Sixteen results, the registers written in the order a, d, c, b, are a round of the plan. */
  lemma RoundDone(p: RoundPlan, a: Long, b: Long, c: Long, d: Long,
                  a1: Long, b1: Long, c1: Long, d1: Long, a2: Long, b2: Long, c2: Long, d2: Long,
                  a3: Long, b3: Long, c3: Long, d3: Long, a4: Long, b4: Long, c4: Long, d4: Long)
    requires Low(a1) == p.op(0, Low(a), Low(b), Low(c), Low(d)) && Low(d1) == p.op(1, Low(d), Low(a1), Low(b), Low(c))
    requires Low(c1) == p.op(2, Low(c), Low(d1), Low(a1), Low(b))
    requires Low(b1) == p.op(3, Low(b), Low(c1), Low(d1), Low(a1))
    requires Low(a2) == p.op(4, Low(a1), Low(b1), Low(c1), Low(d1))
    requires Low(d2) == p.op(5, Low(d1), Low(a2), Low(b1), Low(c1))
    requires Low(c2) == p.op(6, Low(c1), Low(d2), Low(a2), Low(b1))
    requires Low(b2) == p.op(7, Low(b1), Low(c2), Low(d2), Low(a2))
    requires Low(a3) == p.op(8, Low(a2), Low(b2), Low(c2), Low(d2))
    requires Low(d3) == p.op(9, Low(d2), Low(a3), Low(b2), Low(c2))
    requires Low(c3) == p.op(10, Low(c2), Low(d3), Low(a3), Low(b2))
    requires Low(b3) == p.op(11, Low(b2), Low(c3), Low(d3), Low(a3))
    requires Low(a4) == p.op(12, Low(a3), Low(b3), Low(c3), Low(d3))
    requires Low(d4) == p.op(13, Low(d3), Low(a4), Low(b3), Low(c3))
    requires Low(c4) == p.op(14, Low(c3), Low(d4), Low(a4), Low(b3))
    requires Low(b4) == p.op(15, Low(b3), Low(c4), Low(d4), Low(a4))
    ensures LowQuad(a4, b4, c4, d4) == Round(p.op, 16, LowQuad(a, b, c, d))
  {
    Sixteen(p.op, Low(a), Low(b), Low(c), Low(d), Low(a1), Low(d1), Low(c1), Low(b1),
            Low(a2), Low(d2), Low(c2), Low(b2), Low(a3), Low(d3), Low(c3), Low(b3), Low(a4), Low(d4), Low(c4), Low(b4));
  }

  method FF(a: Long, b: Long, c: Long, d: Long, x: Long, s: Long, ac: Long,
            ghost p: RoundPlan, ghost j: nat, ghost i: nat)
    returns (r: Long)
    requires p.round == 0 && j < 16 && i == Rfc.Index(0, j) && Low(x) == p.w[i]
    requires s == Rfc.Shift(0, j) as Long && ac == Rfc.Sine1(j) as Long
    ensures Low(r) == p.op(j, Low(a), Low(b), Low(c), Low(d))
  {
    r := Sum4(a, F(b, c, d), x, ac);
    r := RotateInt(r, s);
    r := Plus(r, b);
    LowF(b, c, d);
    LowWidened(ac);
    MeetsLow(p, j, i, a, b, c, d, F(b, c, d), x, s, ac);
  }

  method GG(a: Long, b: Long, c: Long, d: Long, x: Long, s: Long, ac: Long,
            ghost p: RoundPlan, ghost j: nat, ghost i: nat)
    returns (r: Long)
    requires p.round == 1 && j < 16 && i == Rfc.Index2(j) && Low(x) == p.w[i]
    requires s == Rfc.Shift(1, j) as Long && ac == Rfc.Sine2(j) as Long
    ensures Low(r) == p.op(j, Low(a), Low(b), Low(c), Low(d))
  {
    r := Sum4(a, G(b, c, d), x, ac);
    r := RotateInt(r, s);
    r := Plus(r, b);
    LowG(b, c, d);
    LowWidened(ac);
    MeetsLow(p, j, i, a, b, c, d, G(b, c, d), x, s, ac);
  }

  method HH(a: Long, b: Long, c: Long, d: Long, x: Long, s: Long, ac: Long,
            ghost p: RoundPlan, ghost j: nat, ghost i: nat)
    returns (r: Long)
    requires p.round == 2 && j < 16 && i == Rfc.Index3(j) && Low(x) == p.w[i]
    requires s == Rfc.Shift(2, j) as Long && ac == Rfc.Sine3(j) as Long
    ensures Low(r) == p.op(j, Low(a), Low(b), Low(c), Low(d))
  {
    r := Sum4(a, H(b, c, d), x, ac);
    r := RotateInt(r, s);
    r := Plus(r, b);
    LowH(b, c, d);
    LowWidened(ac);
    MeetsLow(p, j, i, a, b, c, d, H(b, c, d), x, s, ac);
  }

  method II(a: Long, b: Long, c: Long, d: Long, x: Long, s: Long, ac: Long,
            ghost p: RoundPlan, ghost j: nat, ghost i: nat)
    returns (r: Long)
    requires p.round == 3 && j < 16 && i == Rfc.Index4(j) && Low(x) == p.w[i]
    requires s == Rfc.Shift(3, j) as Long && ac == Rfc.Sine4(j) as Long
    ensures Low(r) == p.op(j, Low(a), Low(b), Low(c), Low(d))
  {
    r := Sum4(a, I(b, c, d), x, ac);
    r := RotateInt(r, s);
    r := Plus(r, b);
    LowI(b, c, d);
    LowWidened(ac);
    MeetsLow(p, j, i, a, b, c, d, I(b, c, d), x, s, ac);
  }

  method Round1(a0: Long, b0: Long, c0: Long, d0: Long, x: seq<Long>, ghost p: RoundPlan)
    returns (a: Long, b: Long, c: Long, d: Long)
    requires p.round == 0
    requires |x| == 16 && forall k {:trigger x[k]} :: 0 <= k < 16 ==> Low(x[k]) == p.w[k]
    ensures LowQuad(a, b, c, d) == Round(p.op, 16, LowQuad(a0, b0, c0, d0))
  {
    a, b, c, d := a0, b0, c0, d0;
    a := FF(a, b, c, d, x[0], 7, 0xd76aa478, p, 0, 0);
    d := FF(d, a, b, c, x[1], 12, 0xe8c7b756, p, 1, 1);
    c := FF(c, d, a, b, x[2], 17, 0x242070db, p, 2, 2);
    b := FF(b, c, d, a, x[3], 22, 0xc1bdceee, p, 3, 3);
    ghost var a1, b1, c1, d1 := a, b, c, d;
    a := FF(a, b, c, d, x[4], 7, 0xf57c0faf, p, 4, 4);
    d := FF(d, a, b, c, x[5], 12, 0x4787c62a, p, 5, 5);
    c := FF(c, d, a, b, x[6], 17, 0xa8304613, p, 6, 6);
    b := FF(b, c, d, a, x[7], 22, 0xfd469501, p, 7, 7);
    ghost var a2, b2, c2, d2 := a, b, c, d;
    a := FF(a, b, c, d, x[8], 7, 0x698098d8, p, 8, 8);
    d := FF(d, a, b, c, x[9], 12, 0x8b44f7af, p, 9, 9);
    c := FF(c, d, a, b, x[10], 17, 0xffff5bb1, p, 10, 10);
    b := FF(b, c, d, a, x[11], 22, 0x895cd7be, p, 11, 11);
    ghost var a3, b3, c3, d3 := a, b, c, d;
    a := FF(a, b, c, d, x[12], 7, 0x6b901122, p, 12, 12);
    d := FF(d, a, b, c, x[13], 12, 0xfd987193, p, 13, 13);
    c := FF(c, d, a, b, x[14], 17, 0xa679438e, p, 14, 14);
    b := FF(b, c, d, a, x[15], 22, 0x49b40821, p, 15, 15);
    RoundDone(p, a0, b0, c0, d0, a1, b1, c1, d1, a2, b2, c2, d2, a3, b3, c3, d3, a, b, c, d);
  }

  method Round2(a0: Long, b0: Long, c0: Long, d0: Long, x: seq<Long>, ghost p: RoundPlan)
    returns (a: Long, b: Long, c: Long, d: Long)
    requires p.round == 1
    requires |x| == 16 && forall k {:trigger x[k]} :: 0 <= k < 16 ==> Low(x[k]) == p.w[k]
    ensures LowQuad(a, b, c, d) == Round(p.op, 16, LowQuad(a0, b0, c0, d0))
  {
    a, b, c, d := a0, b0, c0, d0;
    a := GG(a, b, c, d, x[1], 5, 0xf61e2562, p, 0, 1);
    d := GG(d, a, b, c, x[6], 9, 0xc040b340, p, 1, 6);
    c := GG(c, d, a, b, x[11], 14, 0x265e5a51, p, 2, 11);
    b := GG(b, c, d, a, x[0], 20, 0xe9b6c7aa, p, 3, 0);
    ghost var a1, b1, c1, d1 := a, b, c, d;
    a := GG(a, b, c, d, x[5], 5, 0xd62f105d, p, 4, 5);
    d := GG(d, a, b, c, x[10], 9, 0x2441453, p, 5, 10);
    c := GG(c, d, a, b, x[15], 14, 0xd8a1e681, p, 6, 15);
    b := GG(b, c, d, a, x[4], 20, 0xe7d3fbc8, p, 7, 4);
    ghost var a2, b2, c2, d2 := a, b, c, d;
    a := GG(a, b, c, d, x[9], 5, 0x21e1cde6, p, 8, 9);
    d := GG(d, a, b, c, x[14], 9, 0xc33707d6, p, 9, 14);
    c := GG(c, d, a, b, x[3], 14, 0xf4d50d87, p, 10, 3);
    b := GG(b, c, d, a, x[8], 20, 0x455a14ed, p, 11, 8);
    ghost var a3, b3, c3, d3 := a, b, c, d;
    a := GG(a, b, c, d, x[13], 5, 0xa9e3e905, p, 12, 13);
    d := GG(d, a, b, c, x[2], 9, 0xfcefa3f8, p, 13, 2);
    c := GG(c, d, a, b, x[7], 14, 0x676f02d9, p, 14, 7);
    b := GG(b, c, d, a, x[12], 20, 0x8d2a4c8a, p, 15, 12);
    RoundDone(p, a0, b0, c0, d0, a1, b1, c1, d1, a2, b2, c2, d2, a3, b3, c3, d3, a, b, c, d);
  }

  method Round3(a0: Long, b0: Long, c0: Long, d0: Long, x: seq<Long>, ghost p: RoundPlan)
    returns (a: Long, b: Long, c: Long, d: Long)
    requires p.round == 2
    requires |x| == 16 && forall k {:trigger x[k]} :: 0 <= k < 16 ==> Low(x[k]) == p.w[k]
    ensures LowQuad(a, b, c, d) == Round(p.op, 16, LowQuad(a0, b0, c0, d0))
  {
    a, b, c, d := a0, b0, c0, d0;
    a := HH(a, b, c, d, x[5], 4, 0xfffa3942, p, 0, 5);
    d := HH(d, a, b, c, x[8], 11, 0x8771f681, p, 1, 8);
    c := HH(c, d, a, b, x[11], 16, 0x6d9d6122, p, 2, 11);
    b := HH(b, c, d, a, x[14], 23, 0xfde5380c, p, 3, 14);
    ghost var a1, b1, c1, d1 := a, b, c, d;
    a := HH(a, b, c, d, x[1], 4, 0xa4beea44, p, 4, 1);
    d := HH(d, a, b, c, x[4], 11, 0x4bdecfa9, p, 5, 4);
    c := HH(c, d, a, b, x[7], 16, 0xf6bb4b60, p, 6, 7);
    b := HH(b, c, d, a, x[10], 23, 0xbebfbc70, p, 7, 10);
    ghost var a2, b2, c2, d2 := a, b, c, d;
    a := HH(a, b, c, d, x[13], 4, 0x289b7ec6, p, 8, 13);
    d := HH(d, a, b, c, x[0], 11, 0xeaa127fa, p, 9, 0);
    c := HH(c, d, a, b, x[3], 16, 0xd4ef3085, p, 10, 3);
    b := HH(b, c, d, a, x[6], 23, 0x4881d05, p, 11, 6);
    ghost var a3, b3, c3, d3 := a, b, c, d;
    a := HH(a, b, c, d, x[9], 4, 0xd9d4d039, p, 12, 9);
    d := HH(d, a, b, c, x[12], 11, 0xe6db99e5, p, 13, 12);
    c := HH(c, d, a, b, x[15], 16, 0x1fa27cf8, p, 14, 15);
    b := HH(b, c, d, a, x[2], 23, 0xc4ac5665, p, 15, 2);
    RoundDone(p, a0, b0, c0, d0, a1, b1, c1, d1, a2, b2, c2, d2, a3, b3, c3, d3, a, b, c, d);
  }

  method Round4(a0: Long, b0: Long, c0: Long, d0: Long, x: seq<Long>, ghost p: RoundPlan)
    returns (a: Long, b: Long, c: Long, d: Long)
    requires p.round == 3
    requires |x| == 16 && forall k {:trigger x[k]} :: 0 <= k < 16 ==> Low(x[k]) == p.w[k]
    ensures LowQuad(a, b, c, d) == Round(p.op, 16, LowQuad(a0, b0, c0, d0))
  {
    a, b, c, d := a0, b0, c0, d0;
    a := II(a, b, c, d, x[0], 6, 0xf4292244, p, 0, 0);
    d := II(d, a, b, c, x[7], 10, 0x432aff97, p, 1, 7);
    c := II(c, d, a, b, x[14], 15, 0xab9423a7, p, 2, 14);
    b := II(b, c, d, a, x[5], 21, 0xfc93a039, p, 3, 5);
    ghost var a1, b1, c1, d1 := a, b, c, d;
    a := II(a, b, c, d, x[12], 6, 0x655b59c3, p, 4, 12);
    d := II(d, a, b, c, x[3], 10, 0x8f0ccc92, p, 5, 3);
    c := II(c, d, a, b, x[10], 15, 0xffeff47d, p, 6, 10);
    b := II(b, c, d, a, x[1], 21, 0x85845dd1, p, 7, 1);
    ghost var a2, b2, c2, d2 := a, b, c, d;
    a := II(a, b, c, d, x[8], 6, 0x6fa87e4f, p, 8, 8);
    d := II(d, a, b, c, x[15], 10, 0xfe2ce6e0, p, 9, 15);
    c := II(c, d, a, b, x[6], 15, 0xa3014314, p, 10, 6);
    b := II(b, c, d, a, x[13], 21, 0x4e0811a1, p, 11, 13);
    ghost var a3, b3, c3, d3 := a, b, c, d;
    a := II(a, b, c, d, x[4], 6, 0xf7537e82, p, 12, 4);
    d := II(d, a, b, c, x[11], 10, 0xbd3af235, p, 13, 11);
    c := II(c, d, a, b, x[2], 15, 0x2ad7d2bb, p, 14, 2);
    b := II(b, c, d, a, x[9], 21, 0xeb86d391, p, 15, 9);
    RoundDone(p, a0, b0, c0, d0, a1, b1, c1, d1, a2, b2, c2, d2, a3, b3, c3, d3, a, b, c, d);
  }

}
