/**
  The table of section 3.4 of RFC 1321 by its definition there: entry i is the integer part of 4294967296 times
  abs(sin(i)), i in radians.
 */
module SineTable {
  import Rfc = Rfc1321

  // ---------------------------------------------------------------- sine and cosine

  /** The sum of the first terms of a series, and the term that comes next. */
  datatype Series = Series(sum: real, next: real)

  /** 1 - 1/3! + 1/5! - ...: `k` terms of the series of sine at one. */
  function Sine(k: nat): Series {
    if k == 0 then Series(0.0, 1.0)
    else
      var p := Sine(k - 1);
      Series(p.sum + p.next, -p.next / ((2 * k) * (2 * k + 1)) as real)
  }

  /** 1 - 1/2! + 1/4! - ...: `k` terms of the series of cosine at one. */
  function Cosine(k: nat): Series {
    if k == 0 then Series(0.0, 1.0)
    else
      var p := Cosine(k - 1);
      Series(p.sum + p.next, -p.next / ((2 * k - 1) * (2 * k)) as real)
  }

  /** Both lie between the sums of `2 * k` and of `2 * k + 1` terms. */
  predicate Between(s: real, c: real, k: nat) {
    Sine(2 * k).sum <= s <= Sine(2 * k + 1).sum && Cosine(2 * k).sum <= c <= Cosine(2 * k + 1).sum
  }

  /** `s` and `c` are sine and cosine of one. */
  ghost predicate OfOne(s: real, c: real) { forall k: nat :: Between(s, c, k) }

  datatype Point = Point(sine: real, cosine: real)

  /** Sine and cosine of `n`, by the addition theorems. */
  function At(s: real, c: real, n: nat): Point {
    if n == 0 then Point(0.0, 1.0)
    else Onward(At(s, c, n - 1), s, c)
  }

  function Onward(p: Point, s: real, c: real): Point {
    Point(p.sine * c + p.cosine * s, p.cosine * c - p.sine * s)
  }

  function Abs(x: real): real { if x < 0.0 then -x else x }

  // ---------------------------------------------------------------- sine and cosine of one

  const SINE := 0.84147098480789650665250232
  const COSINE := 0.54030230586813971740093661
  const MARGIN := 0.000000000000000000000001

  lemma SineNext(k: nat, d: int, t: real, t1: real, lo: real, hi: real, lo1: real, hi1: real)
    requires k > 0 && d == (2 * k) * (2 * k + 1) && Sine(k - 1).next == t && lo <= Sine(k - 1).sum <= hi
    requires t1 == -t / d as real && lo1 <= lo + t && hi + t <= hi1
    ensures Sine(k).next == t1 && lo1 <= Sine(k).sum <= hi1
  {}

  lemma CosineNext(k: nat, d: int, t: real, t1: real, lo: real, hi: real, lo1: real, hi1: real)
    requires k > 0 && d == (2 * k - 1) * (2 * k) && Cosine(k - 1).next == t && lo <= Cosine(k - 1).sum <= hi
    requires t1 == -t / d as real && lo1 <= lo + t && hi + t <= hi1
    ensures Cosine(k).next == t1 && lo1 <= Cosine(k).sum <= hi1
  {}

  lemma SineBetween(s: real, c: real, k: nat, n: nat)
    requires OfOne(s, c) && n == 2 * k
    ensures Sine(n).sum <= s <= Sine(n + 1).sum
  {
    assert Between(s, c, k);
  }

  lemma CosineBetween(s: real, c: real, k: nat, n: nat)
    requires OfOne(s, c) && n == 2 * k
    ensures Cosine(n).sum <= c <= Cosine(n + 1).sum
  {
    assert Between(s, c, k);
  }

  lemma SineStart(z: nat)
    requires z == 0
    ensures Sine(z + 7).next == -1.0 / 1307674368000.0
    ensures 0.8414709848086584197695308799 <= Sine(z + 7).sum <= 0.8414709848086584197695308815
  {
    SineNext(z + 1, 6, 1.0 / 1.0, -1.0 / 6.0,
             0.0, 0.0,
             0.9999999999999999999999999999, 1.0000000000000000000000000003);
    SineNext(z + 2, 20, -1.0 / 6.0, 1.0 / 120.0,
             0.9999999999999999999999999999, 1.0000000000000000000000000003,
             0.8333333333333333333333333331, 0.8333333333333333333333333337);
    SineNext(z + 3, 42, 1.0 / 120.0, -1.0 / 5040.0,
             0.8333333333333333333333333331, 0.8333333333333333333333333337,
             0.8416666666666666666666666663, 0.8416666666666666666666666671);
    SineNext(z + 4, 72, -1.0 / 5040.0, 1.0 / 362880.0,
             0.8416666666666666666666666663, 0.8416666666666666666666666671,
             0.8414682539682539682539682535, 0.8414682539682539682539682545);
    SineNext(z + 5, 110, 1.0 / 362880.0, -1.0 / 39916800.0,
             0.8414682539682539682539682535, 0.8414682539682539682539682545,
             0.8414710097001763668430335092, 0.8414710097001763668430335104);
    SineNext(z + 6, 156, -1.0 / 39916800.0, 1.0 / 6227020800.0,
             0.8414710097001763668430335092, 0.8414710097001763668430335104,
             0.8414709846480679814013147340, 0.8414709846480679814013147354);
    SineNext(z + 7, 210, 1.0 / 6227020800.0, -1.0 / 1307674368000.0,
             0.8414709846480679814013147340, 0.8414709846480679814013147354,
             0.8414709848086584197695308799, 0.8414709848086584197695308815);
  }

  lemma SineNear(s: real, c: real, z: nat)
    requires OfOne(s, c) && z == 0
    ensures Abs(s - SINE) <= MARGIN
  {
    SineStart(z);
    SineNext(z + 8, 272, -1.0 / 1307674368000.0, 1.0 / 355687428096000.0,
             0.8414709848086584197695308799, 0.8414709848086584197695308815,
             0.8414709848078937033963488981, 0.8414709848078937033963488999);
    SineNext(z + 9, 342, 1.0 / 355687428096000.0, -1.0 / 121645100408832000.0,
             0.8414709848078937033963488981, 0.8414709848078937033963488999,
             0.8414709848078965148536032436, 0.8414709848078965148536032456);
    SineNext(z + 10, 420, -1.0 / 121645100408832000.0, 1.0 / 51090942171709440000.0,
             0.8414709848078965148536032436, 0.8414709848078965148536032456,
             0.8414709848078965066329679968, 0.8414709848078965066329679990);
    SineNext(z + 11, 506, 1.0 / 51090942171709440000.0, -1.0 / 25852016738884976640000.0,
             0.8414709848078965066329679968, 0.8414709848078965066329679990,
             0.8414709848078965066525409378, 0.8414709848078965066525409402);
    SineNext(z + 12, 600, -1.0 / 25852016738884976640000.0, 1.0 / 15511210043330985984000000.0,
             0.8414709848078965066525409378, 0.8414709848078965066525409402,
             0.8414709848078965066525022560, 0.8414709848078965066525022586);
    SineNext(z + 13, 702, 1.0 / 15511210043330985984000000.0, -1.0 / 10888869450418352160768000000.0,
             0.8414709848078965066525022560, 0.8414709848078965066525022586,
             0.8414709848078965066525023204, 0.8414709848078965066525023232);
    SineBetween(s, c, 6, z + 12);
  }

  lemma CosineStart(z: nat)
    requires z == 0
    ensures Cosine(z + 7).next == -1.0 / 87178291200.0
    ensures 0.5403023058795628240072684510 <= Cosine(z + 7).sum <= 0.5403023058795628240072684526
  {
    CosineNext(z + 1, 2, 1.0 / 1.0, -1.0 / 2.0,
               0.0, 0.0,
               0.9999999999999999999999999999, 1.0000000000000000000000000003);
    CosineNext(z + 2, 12, -1.0 / 2.0, 1.0 / 24.0,
               0.9999999999999999999999999999, 1.0000000000000000000000000003,
               0.4999999999999999999999999998, 0.5000000000000000000000000004);
    CosineNext(z + 3, 30, 1.0 / 24.0, -1.0 / 720.0,
               0.4999999999999999999999999998, 0.5000000000000000000000000004,
               0.5416666666666666666666666663, 0.5416666666666666666666666671);
    CosineNext(z + 4, 56, -1.0 / 720.0, 1.0 / 40320.0,
               0.5416666666666666666666666663, 0.5416666666666666666666666671,
               0.5402777777777777777777777773, 0.5402777777777777777777777783);
    CosineNext(z + 5, 90, 1.0 / 40320.0, -1.0 / 3628800.0,
               0.5402777777777777777777777773, 0.5402777777777777777777777783,
               0.5403025793650793650793650788, 0.5403025793650793650793650800);
    CosineNext(z + 6, 132, -1.0 / 3628800.0, 1.0 / 479001600.0,
               0.5403025793650793650793650788, 0.5403025793650793650793650800,
               0.5403023037918871252204585531, 0.5403023037918871252204585545);
    CosineNext(z + 7, 182, 1.0 / 479001600.0, -1.0 / 87178291200.0,
               0.5403023037918871252204585531, 0.5403023037918871252204585545,
               0.5403023058795628240072684510, 0.5403023058795628240072684526);
  }

  lemma CosineNear(s: real, c: real, z: nat)
    requires OfOne(s, c) && z == 0
    ensures Abs(c - COSINE) <= MARGIN
  {
    CosineStart(z);
    CosineNext(z + 8, 240, -1.0 / 87178291200.0, 1.0 / 20922789888000.0,
               0.5403023058795628240072684510, 0.5403023058795628240072684526,
               0.5403023058680920784095387261, 0.5403023058680920784095387279);
    CosineNext(z + 9, 306, 1.0 / 20922789888000.0, -1.0 / 6402373705728000.0,
               0.5403023058680920784095387261, 0.5403023058680920784095387279,
               0.5403023058681398731828625999, 0.5403023058681398731828626019);
    CosineNext(z + 10, 380, -1.0 / 6402373705728000.0, 1.0 / 2432902008176640000.0,
               0.5403023058681398731828625999, 0.5403023058681398731828626019,
               0.5403023058681397169907929139, 0.5403023058681397169907929161);
    CosineNext(z + 11, 462, 1.0 / 2432902008176640000.0, -1.0 / 1124000727777607680000.0,
               0.5403023058681397169907929139, 0.5403023058681397169907929161,
               0.5403023058681397174018246762, 0.5403023058681397174018246786);
    CosineNext(z + 12, 552, -1.0 / 1124000727777607680000.0, 1.0 / 620448401733239439360000.0,
               0.5403023058681397174018246762, 0.5403023058681397174018246786,
               0.5403023058681397174009349969, 0.5403023058681397174009349995);
    CosineNext(z + 13, 650, 1.0 / 620448401733239439360000.0, -1.0 / 403291461126605635584000000.0,
               0.5403023058681397174009349969, 0.5403023058681397174009349995,
               0.5403023058681397174009366086, 0.5403023058681397174009366114);
    CosineNext(z + 14, 756, -1.0 / 403291461126605635584000000.0, 1.0 / 304888344611713860501504000000.0,
               0.5403023058681397174009366086, 0.5403023058681397174009366114,
               0.5403023058681397174009366060, 0.5403023058681397174009366090);
    CosineBetween(s, c, 6, z + 12);
    CosineBetween(s, c, 7, z + 14);
  }

  // ---------------------------------------------------------------- one radian further

  lemma Times(x: real, y: real, z: real)
    requires x <= y && 0.0 <= z
    ensures x * z <= y * z
  {}

  lemma AbsProduct(u: real, v: real, bound: real, e: real, w: real)
    requires Abs(u) <= bound && Abs(v) <= e && w == u * v
    ensures Abs(w) <= bound * e
  {
    var p, r := Abs(u), Abs(v);
    Times(p, bound, r);
    Times(r, e, bound);
    assert p * r == w || p * r == -w;
    assert 0.0 <= p * r;
  }

  lemma Split(x: real, a: real, c: real, q: real)
    ensures x * c - a * q == x * (c - q) + q * (x - a)
  {}

  lemma Sums(u: real, v: real, du: real, dv: real)
    requires Abs(u) <= du && Abs(v) <= dv
    ensures Abs(u + v) <= du + dv
  {}

  /** A product of two numbers known to within `e` and `d`. */
  lemma ProductNear(x: real, a: real, e: real, c: real, q: real, d: real, xc: real, aq: real, qe: real)
    requires Abs(x - a) <= e <= 1.0 && Abs(c - q) <= d && Abs(a) <= 1.0 && 0.0 <= q
    requires xc == x * c && aq == a * q && qe == q * e
    ensures Abs(xc - aq) <= 2.0 * d + qe
  {
    var u, v := x * (c - q), q * (x - a);
    AbsProduct(x, c - q, 2.0, d, u);
    AbsProduct(q, x - a, q, e, v);
    Split(x, a, c, q);
    Sums(u, v, 2.0 * d, qe);
  }

  /** The sum of two products. */
  lemma SumNear(xc: real, aq: real, qe: real, ys: real, bp: real, pe: real, d: real, e: real, a1: real, e1: real)
    requires Abs(xc - aq) <= 2.0 * d + qe && Abs(ys - bp) <= 2.0 * d + pe && qe + pe <= 1.4 * e
    requires Abs(aq + bp - a1) <= e1 - (4.0 * d + 1.4 * e)
    ensures Abs(xc + ys - a1) <= e1
  {}

  lemma DifferenceNear(yc: real, bq: real, qe: real, xs: real, ap: real, pe: real, d: real, e: real, b1: real, e1: real)
    requires Abs(yc - bq) <= 2.0 * d + qe && Abs(xs - ap) <= 2.0 * d + pe && qe + pe <= 1.4 * e
    requires Abs(bq - ap - b1) <= e1 - (4.0 * d + 1.4 * e)
    ensures Abs(yc - xs - b1) <= e1
  {}

  lemma Shares(e: real, p: real, q: real, pe: real, qe: real)
    requires 0.0 <= e && p + q <= 1.4 && pe == p * e && qe == q * e
    ensures qe + pe <= 1.4 * e
  {
    Times(p + q, 1.4, e);
    assert (p + q) * e == p * e + q * e;
  }

  // ---------------------------------------------------------------- the table

  /** Sine and cosine of `n` are `a` and `b` to within `e`. */
  ghost predicate Near(s: real, c: real, n: nat, a: real, b: real, e: real) {
    Close(At(s, c, n), a, b, e)
  }

  /** Entry `n` is `t`. */
  ghost predicate Entry(s: real, c: real, n: nat, t: int) {
    t as real <= 4294967296.0 * Abs(At(s, c, n).sine) < t as real + 1.0
  }

  ghost predicate Close(p: Point, a: real, b: real, e: real) {
    Abs(p.sine - a) <= e && Abs(p.cosine - b) <= e
  }

  lemma SineClose(x: real, y: real, s: real, c: real, a: real, b: real, e: real, u: real, v: real, d: real,
                  z: real, z0: real, a1: real, e1: real)
    requires Abs(x - a) <= e <= 1.0 && Abs(y - b) <= e && Abs(a) <= 1.0 && Abs(b) <= 1.0
    requires Abs(s - u) <= d && Abs(c - v) <= d && 0.0 <= u && 0.0 <= v && u + v <= 1.4
    requires z == x * c + y * s && z0 == a * v + b * u && Abs(z0 - a1) <= e1 - (4.0 * d + 1.4 * e)
    ensures Abs(z - a1) <= e1
  {
    var xc, ys, av, bu, ve, ue := x * c, y * s, a * v, b * u, v * e, u * e;
    ProductNear(x, a, e, c, v, d, xc, av, ve);
    ProductNear(y, b, e, s, u, d, ys, bu, ue);
    Shares(e, u, v, ue, ve);
    assert z0 == av + bu && z == xc + ys;
    SumNear(xc, av, ve, ys, bu, ue, d, e, a1, e1);
  }

  lemma CosineClose(x: real, y: real, s: real, c: real, a: real, b: real, e: real, u: real, v: real, d: real,
                    z: real, z0: real, b1: real, e1: real)
    requires Abs(x - a) <= e <= 1.0 && Abs(y - b) <= e && Abs(a) <= 1.0 && Abs(b) <= 1.0
    requires Abs(s - u) <= d && Abs(c - v) <= d && 0.0 <= u && 0.0 <= v && u + v <= 1.4
    requires z == y * c - x * s && z0 == b * v - a * u && Abs(z0 - b1) <= e1 - (4.0 * d + 1.4 * e)
    ensures Abs(z - b1) <= e1
  {
    var yc, xs, bv, au, ve, ue := y * c, x * s, b * v, a * u, v * e, u * e;
    ProductNear(y, b, e, c, v, d, yc, bv, ve);
    ProductNear(x, a, e, s, u, d, xs, au, ue);
    Shares(e, u, v, ue, ve);
    assert z0 == bv - au && z == yc - xs;
    DifferenceNear(yc, bv, ve, xs, au, ue, d, e, b1, e1);
  }

  /** Rough values of sine and cosine of one, and how far off they may be. */
  predicate Rough(s: real, c: real, u: real, v: real, d: real) {
    Abs(s - u) <= d && Abs(c - v) <= d && 0.0 <= u && 0.0 <= v && u + v <= 1.4
  }

  lemma TurnSine(p: Point, q: Point, s: real, c: real, u: real, v: real, d: real, a: real, b: real, e: real,
                 z: real, a1: real, e1: real)
    requires q.sine == p.sine * c + p.cosine * s && Rough(s, c, u, v, d) && z == a * v + b * u
    requires Close(p, a, b, e) && e <= 1.0 && Abs(a) <= 1.0 && Abs(b) <= 1.0
    requires Abs(z - a1) <= e1 - (4.0 * d + 1.4 * e)
    ensures Abs(q.sine - a1) <= e1
  {
    SineClose(p.sine, p.cosine, s, c, a, b, e, u, v, d, q.sine, z, a1, e1);
  }

  lemma TurnCosine(p: Point, q: Point, s: real, c: real, u: real, v: real, d: real, a: real, b: real, e: real,
                   z: real, b1: real, e1: real)
    requires q.cosine == p.cosine * c - p.sine * s && Rough(s, c, u, v, d) && z == b * v - a * u
    requires Close(p, a, b, e) && e <= 1.0 && Abs(a) <= 1.0 && Abs(b) <= 1.0
    requires Abs(z - b1) <= e1 - (4.0 * d + 1.4 * e)
    ensures Abs(q.cosine - b1) <= e1
  {
    CosineClose(p.sine, p.cosine, s, c, a, b, e, u, v, d, q.cosine, z, b1, e1);
  }

  lemma Turned(p: Point, s: real, c: real)
    ensures Onward(p, s, c).sine == p.sine * c + p.cosine * s && Onward(p, s, c).cosine == p.cosine * c - p.sine * s
  {}

  lemma SineAfter(s: real, c: real, n: nat, u: real, v: real, d: real, a: real, b: real, e: real,
                 z: real, a1: real, e1: real)
    requires Rough(s, c, u, v, d) && z == a * v + b * u && Near(s, c, n, a, b, e)
    requires e <= 1.0 && Abs(a) <= 1.0 && Abs(b) <= 1.0 && Abs(z - a1) <= e1 - (4.0 * d + 1.4 * e)
    ensures Abs(At(s, c, n + 1).sine - a1) <= e1
  {
    Turned(At(s, c, n), s, c);
    TurnSine(At(s, c, n), At(s, c, n + 1), s, c, u, v, d, a, b, e, z, a1, e1);
  }

  lemma CosineAfter(s: real, c: real, n: nat, u: real, v: real, d: real, a: real, b: real, e: real,
                 z: real, b1: real, e1: real)
    requires Rough(s, c, u, v, d) && z == b * v - a * u && Near(s, c, n, a, b, e)
    requires e <= 1.0 && Abs(a) <= 1.0 && Abs(b) <= 1.0 && Abs(z - b1) <= e1 - (4.0 * d + 1.4 * e)
    ensures Abs(At(s, c, n + 1).cosine - b1) <= e1
  {
    Turned(At(s, c, n), s, c);
    TurnCosine(At(s, c, n), At(s, c, n + 1), s, c, u, v, d, a, b, e, z, b1, e1);
  }

  lemma NearNext(s: real, c: real, n: nat, a: real, b: real, e: real, a1: real, b1: real, e1: real)
    requires OfOne(s, c) && Near(s, c, n, a, b, e) && e <= 1.0 && Abs(a) <= 1.0 && Abs(b) <= 1.0
    requires Abs(a * COSINE + b * SINE - a1) <= e1 - (4.0 * MARGIN + 1.4 * e)
    requires Abs(b * COSINE - a * SINE - b1) <= e1 - (4.0 * MARGIN + 1.4 * e)
    ensures Near(s, c, n + 1, a1, b1, e1)
  {
    SineNear(s, c, 0);
    CosineNear(s, c, 0);
    SineAfter(s, c, n, SINE, COSINE, MARGIN, a, b, e, a * COSINE + b * SINE, a1, e1);
    CosineAfter(s, c, n, SINE, COSINE, MARGIN, a, b, e, b * COSINE - a * SINE, b1, e1);
  }

  /** From `n` to the next number, whose sine decides entry `t`. */
  lemma Row(s: real, c: real, n: nat, a: real, b: real, e: real, a1: real, b1: real, e1: real, t: int)
    requires OfOne(s, c) && Near(s, c, n, a, b, e) && e <= 1.0 && Abs(a) <= 1.0 && Abs(b) <= 1.0
    requires Abs(a * COSINE + b * SINE - a1) <= e1 - (4.0 * MARGIN + 1.4 * e)
    requires Abs(b * COSINE - a * SINE - b1) <= e1 - (4.0 * MARGIN + 1.4 * e)
    requires t as real + 4294967296.0 * e1 <= 4294967296.0 * Abs(a1) < t as real + 1.0 - 4294967296.0 * e1
    ensures Near(s, c, n + 1, a1, b1, e1) && Entry(s, c, n + 1, t)
  {
    NearNext(s, c, n, a, b, e, a1, b1, e1);
  }

  lemma Rows1(s: real, c: real)
    requires OfOne(s, c)
    ensures Near(s, c, 16, -0.28790331666506529478445625, -0.95765948032338464189963723, 0.00000000000000000000217197)
    ensures Entry(s, c, 1, 0xd76aa478) && Entry(s, c, 2, 0xe8c7b756) && Entry(s, c, 3, 0x242070db)
    ensures Entry(s, c, 4, 0xc1bdceee) && Entry(s, c, 5, 0xf57c0faf) && Entry(s, c, 6, 0x4787c62a)
    ensures Entry(s, c, 7, 0xa8304613) && Entry(s, c, 8, 0xfd469501) && Entry(s, c, 9, 0x698098d8)
    ensures Entry(s, c, 10, 0x8b44f7af) && Entry(s, c, 11, 0xffff5bb1) && Entry(s, c, 12, 0x895cd7be)
    ensures Entry(s, c, 13, 0x6b901122) && Entry(s, c, 14, 0xfd987193) && Entry(s, c, 15, 0xa679438e)
    ensures Entry(s, c, 16, 0x49b40821)
  {
    Row(s, c, 0, 0.00000000000000000000000000, 1.00000000000000000000000000, 0.00000000000000000000000000,
        0.84147098480789650665250232, 0.54030230586813971740093661, 0.00000000000000000000000400, 0xd76aa478);
    Row(s, c, 1, 0.84147098480789650665250232, 0.54030230586813971740093661, 0.00000000000000000000000400,
        0.90929742682568169539601987, -0.41614683654714238699756823, 0.00000000000000000000000961, 0xe8c7b756);
    Row(s, c, 2, 0.90929742682568169539601987, -0.41614683654714238699756823, 0.00000000000000000000000961,
        0.14112000805986722210074480, -0.98999249660044545727157279, 0.00000000000000000000001747, 0x242070db);
    Row(s, c, 3, 0.14112000805986722210074480, -0.98999249660044545727157279, 0.00000000000000000000001747,
        -0.75680249530792825137263909, -0.65364362086361191463916818, 0.00000000000000000000002846, 0xc1bdceee);
    Row(s, c, 4, -0.75680249530792825137263909, -0.65364362086361191463916818, 0.00000000000000000000002846,
        -0.95892427466313846889315441, 0.28366218546322626446663917, 0.00000000000000000000004386, 0xf57c0faf);
    Row(s, c, 5, -0.95892427466313846889315441, 0.28366218546322626446663917, 0.00000000000000000000004386,
        -0.27941549819892587281155545, 0.96017028665036602054565230, 0.00000000000000000000006541, 0x4787c62a);
    Row(s, c, 6, -0.27941549819892587281155545, 0.96017028665036602054565230, 0.00000000000000000000006541,
        0.65698659871878909039699909, 0.75390225434330463814119752, 0.00000000000000000000009559, 0xa8304613);
    Row(s, c, 7, 0.65698659871878909039699909, 0.75390225434330463814119752, 0.00000000000000000000009559,
        0.98935824662338177780812360, -0.14550003380861352586884138, 0.00000000000000000000013783, 0xfd469501);
    Row(s, c, 8, 0.98935824662338177780812360, -0.14550003380861352586884138, 0.00000000000000000000013783,
        0.41211848524175656975627257, -0.91113026188467698836829471, 0.00000000000000000000019697, 0x698098d8);
    Row(s, c, 9, 0.41211848524175656975627257, -0.91113026188467698836829471, 0.00000000000000000000019697,
        -0.54402111088936981340474766, -0.83907152907645245225886395, 0.00000000000000000000027977, 0x8b44f7af);
    Row(s, c, 10, -0.54402111088936981340474766, -0.83907152907645245225886395, 0.00000000000000000000027977,
        -0.99999020655070345705156490, 0.00442569798805078574835502, 0.00000000000000000000039568, 0xffff5bb1);
    Row(s, c, 11, -0.99999020655070345705156490, 0.00442569798805078574835502, 0.00000000000000000000039568,
        -0.53657291800043497166537423, 0.84385395873249210465395529, 0.00000000000000000000055796, 0x895cd7be);
    Row(s, c, 12, -0.53657291800043497166537423, 0.84385395873249210465395529, 0.00000000000000000000055796,
        0.42016703682664092186895504, 0.90744678145019621385268616, 0.00000000000000000000078516, 0x6b901122);
    Row(s, c, 13, 0.42016703682664092186895504, 0.90744678145019621385268616, 0.00000000000000000000078516,
        0.99060735569487030787535480, 0.13673721820783359424892888, 0.00000000000000000000110324, 0xfd987193);
    Row(s, c, 14, 0.99060735569487030787535480, 0.13673721820783359424892888, 0.00000000000000000000110324,
        0.65028784015711686582974027, -0.75968791285882127384814640, 0.00000000000000000000154854, 0xa679438e);
    Row(s, c, 15, 0.65028784015711686582974027, -0.75968791285882127384814640, 0.00000000000000000000154854,
        -0.28790331666506529478445625, -0.95765948032338464189963723, 0.00000000000000000000217197, 0x49b40821);
  }

  lemma Rows2(s: real, c: real)
    requires OfOne(s, c)
    requires Near(s, c, 16, -0.28790331666506529478445625, -0.95765948032338464189963723, 0.00000000000000000000217197)
    ensures Near(s, c, 32, 0.55142668124169055066155817, 0.83422336050651027221552647, 0.00000000000000000047521903)
    ensures Entry(s, c, 17, 0xf61e2562) && Entry(s, c, 18, 0xc040b340) && Entry(s, c, 19, 0x265e5a51)
    ensures Entry(s, c, 20, 0xe9b6c7aa) && Entry(s, c, 21, 0xd62f105d) && Entry(s, c, 22, 0x2441453)
    ensures Entry(s, c, 23, 0xd8a1e681) && Entry(s, c, 24, 0xe7d3fbc8) && Entry(s, c, 25, 0x21e1cde6)
    ensures Entry(s, c, 26, 0xc33707d6) && Entry(s, c, 27, 0xf4d50d87) && Entry(s, c, 28, 0x455a14ed)
    ensures Entry(s, c, 29, 0xa9e3e905) && Entry(s, c, 30, 0xfcefa3f8) && Entry(s, c, 31, 0x676f02d9)
    ensures Entry(s, c, 32, 0x8d2a4c8a)
  {
    Row(s, c, 16, -0.28790331666506529478445625, -0.95765948032338464189963723, 0.00000000000000000000217197,
        -0.96139749187955685726163694, -0.27516333805159692222034266, 0.00000000000000000000304477, 0xf61e2562);
    Row(s, c, 17, -0.96139749187955685726163694, -0.27516333805159692222034266, 0.00000000000000000000304477,
        -0.75098724677167610375015608, 0.66031670824408014481610004, 0.00000000000000000000426669, 0xc040b340);
    Row(s, c, 18, -0.75098724677167610375015608, 0.66031670824408014481610004, 0.00000000000000000000426669,
        0.14987720966295232975423932, 0.98870461818666925289835286, 0.00000000000000000000597738, 0x265e5a51);
    Row(s, c, 19, 0.14987720966295232975423932, 0.98870461818666925289835286, 0.00000000000000000000597738,
        0.91294525072762765437609998, 0.40808206181339198606226786, 0.00000000000000000000837234, 0xe9b6c7aa);
    Row(s, c, 20, 0.91294525072762765437609998, 0.40808206181339198606226786, 0.00000000000000000000837234,
        0.83665563853605603186648077, -0.54772926022426842138427113, 0.00000000000000000001172528, 0xd62f105d);
    Row(s, c, 21, 0.83665563853605603186648077, -0.54772926022426842138427113, 0.00000000000000000001172528,
        -0.00885130929040387592169026, -0.99996082639463712645417474, 0.00000000000000000001641941, 0x2441453);
    Row(s, c, 22, -0.00885130929040387592169026, -0.99996082639463712645417474, 0.00000000000000000001641941,
        -0.84622040417517063524132627, -0.53283302033339755521575766, 0.00000000000000000002299118, 0xd8a1e681);
    Row(s, c, 23, -0.84622040417517063524132627, -0.53283302033339755521575766, 0.00000000000000000002299118,
        -0.90557836200662384513579336, 0.42417900733699697593705094, 0.00000000000000000003219166, 0xe7d3fbc8);
    Row(s, c, 24, -0.90557836200662384513579336, 0.42417900733699697593705094, 0.00000000000000000003219166,
        -0.13235175009777302890200509, 0.99120281186347359808329472, 0.00000000000000000004507234, 0x21e1cde6);
    Row(s, c, 25, -0.13235175009777302890200509, 0.99120281186347359808329472, 0.00000000000000000004507234,
        0.76255845047960273751582329, 0.64691932232864034272138390, 0.00000000000000000006310529, 0xc33707d6);
    Row(s, c, 26, 0.76255845047960273751582329, 0.64691932232864034272138390, 0.00000000000000000006310529,
        0.95637592840450301343234056, -0.29213880873383619337140484, 0.00000000000000000008835142, 0xf4d50d87);
    Row(s, c, 27, 0.95637592840450301343234056, -0.29213880873383619337140484, 0.00000000000000000008835142,
        0.27090578830786901998634309, -0.96260586631356660197545306, 0.00000000000000000012369600, 0x455a14ed);
    Row(s, c, 28, 0.27090578830786901998634309, -0.96260586631356660197545306, 0.00000000000000000012369600,
        -0.66363388421296750215117334, -0.74805752968900035176519179, 0.00000000000000000017317841, 0xa9e3e905);
    Row(s, c, 29, -0.66363388421296750215117334, -0.74805752968900035176519179, 0.00000000000000000017317841,
        -0.98803162409286178998774891, 0.15425144988758405071866215, 0.00000000000000000024245378, 0xfcefa3f8);
    Row(s, c, 30, -0.98803162409286178998774891, 0.15425144988758405071866215, 0.00000000000000000024245378,
        -0.40403764532306500604877090, 0.91474235780453127896243583, 0.00000000000000000033943930, 0x676f02d9);
    Row(s, c, 31, -0.40403764532306500604877090, 0.91474235780453127896243583, 0.00000000000000000033943930,
        0.55142668124169055066155817, 0.83422336050651027221552647, 0.00000000000000000047521903, 0x8d2a4c8a);
  }

  lemma Rows3(s: real, c: real)
    requires OfOne(s, c)
    requires Near(s, c, 32, 0.55142668124169055066155817, 0.83422336050651027221552647, 0.00000000000000000047521903)
    ensures Near(s, c, 48, -0.76825466132366679904496566, -0.64014433946919973131294142, 0.00000000000000010350266023)
    ensures Entry(s, c, 33, 0xfffa3942) && Entry(s, c, 34, 0x8771f681) && Entry(s, c, 35, 0x6d9d6122)
    ensures Entry(s, c, 36, 0xfde5380c) && Entry(s, c, 37, 0xa4beea44) && Entry(s, c, 38, 0x4bdecfa9)
    ensures Entry(s, c, 39, 0xf6bb4b60) && Entry(s, c, 40, 0xbebfbc70) && Entry(s, c, 41, 0x289b7ec6)
    ensures Entry(s, c, 42, 0xeaa127fa) && Entry(s, c, 43, 0xd4ef3085) && Entry(s, c, 44, 0x4881d05)
    ensures Entry(s, c, 45, 0xd9d4d039) && Entry(s, c, 46, 0xe6db99e5) && Entry(s, c, 47, 0x1fa27cf8)
    ensures Entry(s, c, 48, 0xc4ac5665)
  {
    Row(s, c, 32, 0.55142668124169055066155817, 0.83422336050651027221552647, 0.00000000000000000047521903,
        0.99991186010726714572808438, -0.01327674722305947891522003, 0.00000000000000000066531065, 0xfffa3942);
    Row(s, c, 33, 0.99991186010726714572808438, -0.01327674722305947891522003, 0.00000000000000000066531065,
        0.52908268612002382083248713, -0.84857027478460518659997209, 0.00000000000000000093143892, 0x8771f681);
    Row(s, c, 34, 0.52908268612002382083248713, -0.84857027478460518659997209, 0.00000000000000000093143892,
        -0.42818266949615100440675289, -0.90369220509150675984730457, 0.00000000000000000130401850, 0x6d9d6122);
    Row(s, c, 35, -0.42818266949615100440675289, -0.90369220509150675984730457, 0.00000000000000000130401850,
        -0.99177885344311573683528897, -0.12796368962740468102832798, 0.00000000000000000182562991, 0xfde5380c);
    Row(s, c, 36, -0.99177885344311573683528897, -0.12796368962740468102832798, 0.00000000000000000182562991,
        -0.64353813335699946068567002, 0.76541405194534335649108129, 0.00000000000000000255588588, 0xa4beea44);
    Row(s, c, 37, -0.64353813335699946068567002, 0.76541405194534335649108129, 0.00000000000000000255588588,
        0.29636857870938531739229665, 0.95507364404729485758653624, 0.00000000000000000357824424, 0x4bdecfa9);
    Row(s, c, 38, 0.29636857870938531739229665, 0.95507364404729485758653624, 0.00000000000000000357824424,
        0.96379538628408775326066497, 0.26664293235993725152682579, 0.00000000000000000500954595, 0xf6bb4b60);
    Row(s, c, 39, 0.96379538628408775326066497, 0.26664293235993725152682579, 0.00000000000000000500954595,
        0.74511316047934878698770940, -0.66693806165226184438409278, 0.00000000000000000701336834, 0xbebfbc70);
    Row(s, c, 40, 0.74511316047934878698770940, -0.66693806165226184438409278, 0.00000000000000000701336834,
        -0.15862266880470898710331701, -0.98733927752382645822882513, 0.00000000000000000981871968, 0x289b7ec6);
    Row(s, c, 41, -0.15862266880470898710331701, -0.98733927752382645822882513, 0.00000000000000000981871968,
        -0.91652154791563378589898916, -0.39998531498835129395470734, 0.00000000000000001374621156, 0xeaa127fa);
    Row(s, c, 42, -0.91652154791563378589898916, -0.39998531498835129395470734, 0.00000000000000001374621156,
        -0.83177474262859828820957826, 0.55511330152062567704487944, 0.00000000000000001924470019, 0xd4ef3085);
    Row(s, c, 43, -0.83177474262859828820957826, 0.55511330152062567704487944, 0.00000000000000001924470019,
        0.01770192510541357780795405, 0.99984330864769122006900902, 0.00000000000000002694258427, 0x4881d05);
    Row(s, c, 44, 0.01770192510541357780795405, 0.99984330864769122006900902, 0.00000000000000002694258427,
        0.85090352453411842486237968, 0.52532198881772969604746440, 0.00000000000000003771962199, 0xd9d4d039);
    Row(s, c, 45, 0.85090352453411842486237968, 0.52532198881772969604746440, 0.00000000000000003771962199,
        0.90178834764880918503329304, -0.43217794488477829495277652, 0.00000000000000005280747480, 0xe6db99e5);
    Row(s, c, 46, 0.90178834764880918503329304, -0.43217794488477829495277652, 0.00000000000000005280747480,
        0.12357312274522400406152935, -0.99233546915092871827975242, 0.00000000000000007393046873, 0x1fa27cf8);
    Row(s, c, 47, 0.12357312274522400406152935, -0.99233546915092871827975242, 0.00000000000000007393046873,
        -0.76825466132366679904496566, -0.64014433946919973131294142, 0.00000000000000010350266023, 0xc4ac5665);
  }

  lemma Rows4(s: real, c: real)
    requires OfOne(s, c)
    requires Near(s, c, 48, -0.76825466132366679904496566, -0.64014433946919973131294142, 0.00000000000000010350266023)
    ensures Near(s, c, 64, 0.92002603819679068335153660, 0.39185723042955000516170986, 0.00000000000002254239860514)
    ensures Entry(s, c, 49, 0xf4292244) && Entry(s, c, 50, 0x432aff97) && Entry(s, c, 51, 0xab9423a7)
    ensures Entry(s, c, 52, 0xfc93a039) && Entry(s, c, 53, 0x655b59c3) && Entry(s, c, 54, 0x8f0ccc92)
    ensures Entry(s, c, 55, 0xffeff47d) && Entry(s, c, 56, 0x85845dd1) && Entry(s, c, 57, 0x6fa87e4f)
    ensures Entry(s, c, 58, 0xfe2ce6e0) && Entry(s, c, 59, 0xa3014314) && Entry(s, c, 60, 0x4e0811a1)
    ensures Entry(s, c, 61, 0xf7537e82) && Entry(s, c, 62, 0xbd3af235) && Entry(s, c, 63, 0x2ad7d2bb)
    ensures Entry(s, c, 64, 0xeb86d391)
  {
    Row(s, c, 48, -0.76825466132366679904496566, -0.64014433946919973131294142, 0.00000000000000010350266023,
        -0.95375265275947181836042356, 0.30059254374363708368702600, 0.00000000000000014490372833, 0xf4292244);
    Row(s, c, 49, -0.95375265275947181836042356, 0.30059254374363708368702600, 0.00000000000000014490372833,
        -0.26237485370392878591439365, 0.96496602849211327406895706, 0.00000000000000020286522367, 0x432aff97);
    Row(s, c, 50, -0.26237485370392878591439365, 0.96496602849211327406895706, 0.00000000000000020286522367,
        0.67022917584337473449434507, 0.74215419681378253946737718, 0.00000000000000028401131714, 0xab9423a7);
    Row(s, c, 51, 0.67022917584337473449434507, 0.74215419681378253946737718, 0.00000000000000028401131714,
        0.98662759204048529658756893, -0.16299078079570548100332982, 0.00000000000000039761584802, 0xfc93a039);
    Row(s, c, 52, 0.98662759204048529658756893, -0.16299078079570548100332982, 0.00000000000000039761584802,
        0.39592515018183418150338614, -0.91828278621211889119972632, 0.00000000000000055666219124, 0x655b59c3);
    Row(s, c, 53, 0.39592515018183418150338614, -0.91828278621211889119972632, 0.00000000000000055666219124,
        -0.55878904885161624581787132, -0.82930983286315014772785004, 0.00000000000000077932707175, 0x8f0ccc92);
    Row(s, c, 54, -0.55878904885161624581787132, -0.82930983286315014772785004, 0.00000000000000077932707175,
        -0.99975517335861983659863168, 0.02212675626195573456356426, 0.00000000000000109105790446, 0xffeff47d);
    Row(s, c, 55, -0.99975517335861983659863168, 0.02212675626195573456356426, 0.00000000000000109105790446,
        -0.52155100208691188018741002, 0.85322010772258411396968123, 0.00000000000000152748107025, 0x85845dd1);
    Row(s, c, 56, -0.52155100208691188018741002, 0.85322010772258411396968123, 0.00000000000000152748107025,
        0.43616475524782495908053479, 0.89986682696919378650300040, 0.00000000000000213847350236, 0x6fa87e4f);
    Row(s, c, 57, 0.43616475524782495908053479, 0.89986682696919378650300040, 0.00000000000000213847350236,
        0.99287264808453711816508816, 0.11918013544881928543584361, 0.00000000000000299386290731, 0xfe2ce6e0);
    Row(s, c, 58, 0.99287264808453711816508816, 0.11918013544881928543584361, 0.00000000000000299386290731,
        0.63673800713913788077123349, -0.77108022297584522938743530, 0.00000000000000419140807425, 0xa3014314);
    Row(s, c, 59, 0.63673800713913788077123349, -0.77108022297584522938743530, 0.00000000000000419140807425,
        -0.30481062110221670562564947, -0.95241298041515629269381660, 0.00000000000000586797130796, 0x4e0811a1);
    Row(s, c, 60, -0.30481062110221670562564947, -0.95241298041515629269381660, 0.00000000000000586797130796,
        -0.96611777000839294701828799, -0.25810163593826744570120735, 0.00000000000000821515983515, 0xf7537e82);
    Row(s, c, 61, -0.96611777000839294701828799, -0.25810163593826744570120735, 0.00000000000000821515983515,
        -0.73918069664922286727601693, 0.67350716232358625288783341, 0.00000000000001150122377322, 0xbd3af235);
    Row(s, c, 62, -0.73918069664922286727601693, 0.67350716232358625288783341, 0.00000000000001150122377322,
        0.16735570030280692152783837, 0.98589658158254969743863576, 0.00000000000001610171328652, 0x2ad7d2bb);
    Row(s, c, 63, 0.16735570030280692152783837, 0.98589658158254969743863576, 0.00000000000001610171328652,
        0.92002603819679068335153660, 0.39185723042955000516170986, 0.00000000000002254239860514, 0xeb86d391);
  }

  lemma EntryOf1(s: real, c: real, j: nat)
    requires OfOne(s, c) && j < 16
    ensures Entry(s, c, j + 1, Rfc.Sine1(j) as int)
  {
    Rows1(s, c);
    match j
    case 0 =>
    case 1 =>
    case 2 =>
    case 3 =>
    case 4 =>
    case 5 =>
    case 6 =>
    case 7 =>
    case 8 =>
    case 9 =>
    case 10 =>
    case 11 =>
    case 12 =>
    case 13 =>
    case 14 =>
    case _ =>
  }

  lemma EntryOf2(s: real, c: real, j: nat)
    requires OfOne(s, c) && j < 16
    ensures Entry(s, c, 16 + j + 1, Rfc.Sine2(j) as int)
  {
    Rows1(s, c);
    Rows2(s, c);
    match j
    case 0 =>
    case 1 =>
    case 2 =>
    case 3 =>
    case 4 =>
    case 5 =>
    case 6 =>
    case 7 =>
    case 8 =>
    case 9 =>
    case 10 =>
    case 11 =>
    case 12 =>
    case 13 =>
    case 14 =>
    case _ =>
  }

  lemma EntryOf3(s: real, c: real, j: nat)
    requires OfOne(s, c) && j < 16
    ensures Entry(s, c, 32 + j + 1, Rfc.Sine3(j) as int)
  {
    Rows1(s, c);
    Rows2(s, c);
    Rows3(s, c);
    match j
    case 0 =>
    case 1 =>
    case 2 =>
    case 3 =>
    case 4 =>
    case 5 =>
    case 6 =>
    case 7 =>
    case 8 =>
    case 9 =>
    case 10 =>
    case 11 =>
    case 12 =>
    case 13 =>
    case 14 =>
    case _ =>
  }

  lemma EntryOf4(s: real, c: real, j: nat)
    requires OfOne(s, c) && j < 16
    ensures Entry(s, c, 48 + j + 1, Rfc.Sine4(j) as int)
  {
    Rows1(s, c);
    Rows2(s, c);
    Rows3(s, c);
    Rows4(s, c);
    match j
    case 0 =>
    case 1 =>
    case 2 =>
    case 3 =>
    case 4 =>
    case 5 =>
    case 6 =>
    case 7 =>
    case 8 =>
    case 9 =>
    case 10 =>
    case 11 =>
    case 12 =>
    case 13 =>
    case 14 =>
    case _ =>
  }

  /** Entry 16 * round + j + 1 of the table. */
  lemma EntryIs(s: real, c: real, round: nat, j: nat)
    requires OfOne(s, c) && round < 4 && j < 16
    ensures (4294967296.0 * Abs(At(s, c, 16 * round + j + 1).sine)).Floor == Rfc.Sine(round, j) as int
  {
    match round
    case 0 => EntryOf1(s, c, j);
    case 1 => EntryOf2(s, c, j);
    case 2 => EntryOf3(s, c, j);
    case _ => EntryOf4(s, c, j);
  }
}
