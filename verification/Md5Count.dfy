/**
  The two counters of MD5.java. `count[0]` accumulates eight times the length of each `md5Update`, shifted as an
  `int`; `count[1]` is meant to hold the high half of the bit count. `lens` lists the lengths of the updates made.
 */
module Md5Count {
  import opened JavaInt
  import opened BlockFold
  import Rfc = Rfc1321

  const TWO_28: int := 0x1000_0000
  const TWO_60: int := 0x1000_0000_0000_0000

  /** Lengths that a Java `int` can hold. */
  ghost predicate JavaLengths(lens: seq<nat>) {
    forall k :: 0 <= k < |lens| ==> lens[k] < TWO_31
  }

  function Total(lens: seq<nat>): nat {
    if |lens| == 0 then 0 else Total(lens[..|lens| - 1]) + lens[|lens| - 1]
  }

  /** `inputLen << 3`, an `int` expression. */
  function Bits(n: nat): int { Int32(8 * n) }

  datatype Counters = Counters(low: JLong, high: JLong)

  /** The comparison made, on `long`s, after the addition. */
  function Carry(before: JLong, n: nat): int {
    if Int64(before + Bits(n)) < Bits(n) then 1 else 0
  }

  /** What one `md5Update` does to the counters. */
  function Next(c: Counters, n: nat): Counters {
    Counters(Int64(c.low + Bits(n)), Int64(Int64(c.high + Carry(c.low, n)) + n / TWO_29))
  }

  function Counts(lens: seq<nat>): Counters {
    if |lens| == 0 then Counters(0, 0) else Next(Counts(lens[..|lens| - 1]), lens[|lens| - 1])
  }

  function Count0(lens: seq<nat>): JLong { Counts(lens).low }

  function Count1(lens: seq<nat>): JLong { Counts(lens).high }

  /** The eight bytes `md5Final` puts in the length field. */
  function LengthField(lens: seq<nat>): (s: seq<Byte>)
    ensures |s| == 8
  {
    Rfc.LittleEndian(Count0(lens) % TWO_32, 4) + Rfc.LittleEndian(Count1(lens) % TWO_32, 4)
  }

  /** The two words of the length field are those of section 3.2 of RFC 1321. */
  ghost predicate LengthRight(lens: seq<nat>) {
    && Count0(lens) % TWO_32 == 8 * Total(lens) % TWO_32
    && Count1(lens) % TWO_32 == 8 * Total(lens) / TWO_32 % TWO_32
  }

  lemma Snoc(lens: seq<nat>, n: nat)
    ensures Counts(lens + [n]) == Next(Counts(lens), n)
  {
    assert (lens + [n])[..|lens|] == lens;
  }

  lemma TotalSnoc(lens: seq<nat>, n: nat)
    ensures Total(lens + [n]) == Total(lens) + n
  {
    assert (lens + [n])[..|lens|] == lens;
  }

  // ---------------------------------------------------------------- remainders

  lemma Remainder32(x: int, k: int, r: int)
    requires x == 0x1_0000_0000 * k + r && 0 <= r < 0x1_0000_0000
    ensures x % 0x1_0000_0000 == r
  {}

  lemma Low32(x: int)
    ensures x % 0x1_0000_0000_0000_0000 % 0x1_0000_0000 == x % 0x1_0000_0000
  {
    var q, y := x / 0x1_0000_0000_0000_0000, x % 0x1_0000_0000_0000_0000;
    Remainder32(x, 0x1_0000_0000 * q + y / 0x1_0000_0000, y % 0x1_0000_0000);
  }

  lemma WrapLow(x: int)
    ensures Int64(x) % TWO_32 == x % TWO_32
  {
    Low32(Int64(x));
    Low32(x);
  }

  lemma AddLow(c: int, a: int, k: int)
    requires c % 0x1_0000_0000 == a % 0x1_0000_0000
    ensures (c + k) % 0x1_0000_0000 == (a + k) % 0x1_0000_0000
  {
    var q := (a + k) / 0x1_0000_0000;
    var d := c / 0x1_0000_0000 - a / 0x1_0000_0000;
    Remainder32(c + k, q + d, (a + k) % 0x1_0000_0000);
  }

  lemma SumLow(c: int, t: int, n: nat)
    requires c % TWO_32 == 8 * t % TWO_32
    ensures (c + Bits(n)) % TWO_32 == 8 * (t + n) % TWO_32
  {
    AddLow(c, 8 * t, Bits(n));
    AddLow(Bits(n), 8 * n, 8 * t);
  }

  lemma Remainder64(x: int, k: int, r: int)
    requires x == 64 * k + r && 0 <= r < 64
    ensures x % 64 == r
  {}

  lemma Remainder512(x: int, k: int, r: int)
    requires x == 512 * k + r && 0 <= r < 512
    ensures x % 512 == r
  {}

  lemma Low512(x: int)
    ensures x % 0x1_0000_0000 % 512 == x % 512
  {
    var q, y := x / 0x1_0000_0000, x % 0x1_0000_0000;
    Remainder512(x, 0x80_0000 * q + y / 512, y % 512);
  }

  lemma BlockPosition(u: nat, t: nat)
    requires u % 512 == 8 * t % 512
    ensures u / 8 % 64 == t % 64
  {
    var r := u % 512;
    Remainder64(t, 8 * t / 512, r / 8);
    Remainder64(u / 8, u / 512, r / 8);
  }

  // ---------------------------------------------------------------- what the counters hold

  /** The low half is right for every history of updates. */
  lemma {:induction false} Count0Low(lens: seq<nat>)
    ensures Count0(lens) % TWO_32 == 8 * Total(lens) % TWO_32
  {
    if |lens| > 0 {
      var front, n := lens[..|lens| - 1], lens[|lens| - 1];
      Count0Low(front);
      SumLow(Count0(front), Total(front), n);
      WrapLow(Count0(front) + Bits(n));
    }
  }

  /** So the position in the buffer that `md5Update` and `md5Final` read from it always is. */
  lemma Position(lens: seq<nat>)
    ensures Count0(lens) % TWO_64 / 8 % 64 == Total(lens) % 64
  {
    Count0Low(lens);
    Low32(Count0(lens));
    var u := Count0(lens) % TWO_64;
    Low512(u);
    Low512(8 * Total(lens));
    BlockPosition(u, Total(lens));
  }

  lemma LengthFieldRight(lens: seq<nat>)
    requires LengthRight(lens)
    ensures LengthField(lens) == Rfc.LengthBytes(Total(lens))
  {}

  /** One update, of any length a Java array can have: the case of `getMD5ofStr`. */
  lemma OneUpdate(n: nat)
    requires n < TWO_31
    ensures LengthRight([n])
  {
    Count0Low([n]);
    assert [n][..0] == [];
    assert Count0([]) == 0 && Count1([]) == 0 && Total([]) == 0;
    assert Count0([n]) == Bits(n) && Count1([n]) == n / TWO_29;
    assert 8 * n / TWO_32 == n / TWO_29;
  }

  /** An update of 2^28 bytes or more has been made: its bit length, as an `int`, is negative. */
  function Long(lens: seq<nat>): bool {
    |lens| > 0 && (Long(lens[..|lens| - 1]) || lens[|lens| - 1] >= TWO_28)
  }

  /** How many updates follow the first such update. */
  function AfterLong(lens: seq<nat>): nat {
    if |lens| > 0 && Long(lens[..|lens| - 1]) then AfterLong(lens[..|lens| - 1]) + 1 else 0
  }

  lemma {:induction false} LongTotal(lens: seq<nat>)
    requires Long(lens)
    ensures Total(lens) >= TWO_28
  {
    var front := lens[..|lens| - 1];
    if Long(front) {
      LongTotal(front);
    }
  }

  lemma BitsBelow29(n: nat)
    requires n < 0x2000_0000
    ensures Bits(n) == if n < 0x1000_0000 then 8 * n else 8 * n - 0x1_0000_0000
  {}

  lemma {:induction false} Count0Below29(lens: seq<nat>)
    requires Total(lens) < TWO_29
    ensures Count0(lens) == 8 * Total(lens) - if Long(lens) then TWO_32 else 0
  {
    if |lens| > 0 {
      var front, n := lens[..|lens| - 1], lens[|lens| - 1];
      Count0Below29(front);
      BitsBelow29(n);
      assert Total(lens) == Total(front) + n && Long(lens) == (Long(front) || n >= TWO_28);
      if Long(front) {
        LongTotal(front);
      }
    }
  }

  lemma CarryBelow29(front: seq<nat>, n: nat)
    requires Total(front) + n < TWO_29
    ensures Carry(Count0(front), n) == if Long(front) then 1 else 0
  {
    Count0Below29(front);
    if Long(front) {
      LongTotal(front);
    }
    BitsBelow29(n);
  }

  lemma {:induction false} Count1Below29(lens: seq<nat>)
    requires Total(lens) < TWO_29
    ensures Count1(lens) % TWO_32 == AfterLong(lens) % TWO_32
  {
    if |lens| > 0 {
      var front, n := lens[..|lens| - 1], lens[|lens| - 1];
      Count1Below29(front);
      CarryBelow29(front, n);
      var k := Carry(Count0(front), n);
      AddLow(Count1(front), AfterLong(front), k);
      WrapLow(Count1(front) + k);
      assert n / TWO_29 == 0;
      WrapLow(Int64(Count1(front) + k));
    }
  }

  /**
    For messages under 2^29 bytes the field is right exactly when no update follows one of 2^28 bytes or more
    (or a multiple of 2^32 updates do): the comparison takes every later update for a carry.
   */
  lemma LengthBelow29(lens: seq<nat>)
    requires Total(lens) < TWO_29
    ensures LengthRight(lens) <==> AfterLong(lens) % TWO_32 == 0
  {
    Count0Low(lens);
    Count1Below29(lens);
    assert 8 * Total(lens) / TWO_32 == 0;
  }

  lemma HighBits(t: nat)
    requires t < 0x1000_0000_0000_0000
    ensures 8 * t / 0x1_0000_0000 % 0x1_0000_0000 == 0 <==> t < 0x2000_0000
  {
    assert 0 <= 8 * t / 0x1_0000_0000 < 0x1_0000_0000;
  }

  lemma {:induction false} CountsShort(lens: seq<nat>)
    requires !Long(lens) && Total(lens) < TWO_60
    ensures Count0(lens) == 8 * Total(lens) && Count1(lens) == 0
  {
    if |lens| > 0 {
      CountsShort(lens[..|lens| - 1]);
    }
  }

  /**
    With updates under 2^28 bytes each, the field is right exactly for messages under 2^29 bytes: the comparison
    never sees a carry out of 32 bits.
   */
  lemma LengthOfShortUpdates(lens: seq<nat>)
    requires !Long(lens) && Total(lens) < TWO_60
    ensures LengthRight(lens) <==> Total(lens) < TWO_29
  {
    Count0Low(lens);
    CountsShort(lens);
    HighBits(Total(lens));
  }

  // ---------------------------------------------------------------- the exact condition

  /** The sum of the bit lengths as the `int`s that are added. */
  function Sum(lens: seq<nat>): int {
    if |lens| == 0 then 0 else Sum(lens[..|lens| - 1]) + Bits(lens[|lens| - 1])
  }

  /** How many updates were made while that sum was negative: each is taken for a carry. */
  function Negatives(lens: seq<nat>): nat {
    if |lens| == 0 then 0
    else Negatives(lens[..|lens| - 1]) + if Sum(lens[..|lens| - 1]) < 0 then 1 else 0
  }

  /** How many updates have a bit length that is a negative `int`. */
  function Overflows(lens: seq<nat>): nat {
    if |lens| == 0 then 0
    else Overflows(lens[..|lens| - 1]) + if Bits(lens[|lens| - 1]) < 0 then 1 else 0
  }

  /** What the `int`s leave out of the bit lengths, in units of 2^32. */
  function Omitted(lens: seq<nat>): int {
    if |lens| == 0 then 0
    else
      var n := lens[|lens| - 1];
      Omitted(lens[..|lens| - 1]) + n / TWO_29 + if Bits(n) < 0 then 1 else 0
  }

  lemma BitsSplit(n: nat)
    requires n < 0x8000_0000
    ensures 8 * n == Bits(n) + 0x1_0000_0000 * (n / 0x2000_0000 + if Bits(n) < 0 then 1 else 0)
  {
    var q, r := n / 0x2000_0000, n % 0x2000_0000;
    assert 8 * n == 0x1_0000_0000 * q + 8 * r;
  }

  lemma {:induction false} SumSplit(lens: seq<nat>)
    requires JavaLengths(lens)
    ensures 8 * Total(lens) == Sum(lens) + TWO_32 * Omitted(lens)
  {
    if |lens| > 0 {
      SumSplit(lens[..|lens| - 1]);
      BitsSplit(lens[|lens| - 1]);
    }
  }

  lemma {:induction false} Count0Exactly(lens: seq<nat>)
    requires |lens| <= TWO_31
    ensures Count0(lens) == Sum(lens)
    ensures -TWO_31 * |lens| <= Sum(lens) <= TWO_31 * |lens|
  {
    if |lens| > 0 {
      Count0Exactly(lens[..|lens| - 1]);
    }
  }

  lemma {:induction false} Count1Exactly(lens: seq<nat>)
    requires |lens| <= TWO_31
    ensures Count1(lens) % TWO_32 == (Omitted(lens) - Overflows(lens) + Negatives(lens)) % TWO_32
  {
    if |lens| > 0 {
      var front, n := lens[..|lens| - 1], lens[|lens| - 1];
      var k := if Sum(front) < 0 then 1 else 0;
      Count1Exactly(front);
      Count0Exactly(front);
      assert Carry(Count0(front), n) == k;
      var c := Omitted(front) - Overflows(front) + Negatives(front);
      AddLow(Count1(front), c, k);
      WrapLow(Count1(front) + k);
      AddLow(Int64(Count1(front) + k), c + k, n / TWO_29);
      WrapLow(Int64(Count1(front) + k) + n / TWO_29);
    }
  }

  /** Two pairs of numbers the same distance apart: their low words agree in both or in neither. */
  lemma SameDistance(a: int, b: int, c: int, d: int)
    requires a - b == c - d
    ensures a % 0x1_0000_0000 == b % 0x1_0000_0000 <==> c % 0x1_0000_0000 == d % 0x1_0000_0000
  {
    if a % 0x1_0000_0000 == b % 0x1_0000_0000 {
      AddLow(a, b, c - a);
    } else if c % 0x1_0000_0000 == d % 0x1_0000_0000 {
      AddLow(c, d, a - c);
    }
  }

  lemma HighWord(c: int, eight: int, s: int, omitted: int, overflows: int, negatives: int)
    requires c % 0x1_0000_0000 == (omitted - overflows + negatives) % 0x1_0000_0000
    requires eight == s + 0x1_0000_0000 * omitted
    ensures c % 0x1_0000_0000 == eight / 0x1_0000_0000 % 0x1_0000_0000
         <==> negatives % 0x1_0000_0000 == (overflows + s / 0x1_0000_0000) % 0x1_0000_0000
  {
    var high := s / 0x1_0000_0000;
    assert eight / 0x1_0000_0000 == high + omitted;
    SameDistance(omitted - overflows + negatives, high + omitted, negatives, overflows + high);
  }

  lemma HighExactly(lens: seq<nat>, c: int, eight: int, s: int, omitted: int, overflows: int, negatives: int)
    requires JavaLengths(lens) && |lens| <= TWO_31
    requires c == Count1(lens) && eight == 8 * Total(lens) && s == Sum(lens) && omitted == Omitted(lens)
    requires overflows == Overflows(lens) && negatives == Negatives(lens)
    ensures c % TWO_32 == eight / TWO_32 % TWO_32 <==> negatives % TWO_32 == (overflows + s / TWO_32) % TWO_32
  {
    Count1Exactly(lens);
    SumSplit(lens);
    HighWord(c, eight, s, omitted, overflows, negatives);
  }

  /**
    The length field is right, for every history of up to 2^31 updates, exactly if the updates made while the sum was
    negative are, modulo 2^32, as many as those with a negative bit length and the high half of the final sum together.
   */
  lemma LengthExactly(lens: seq<nat>)
    requires JavaLengths(lens) && |lens| <= TWO_31
    ensures LengthRight(lens) <==> Negatives(lens) % TWO_32 == (Overflows(lens) + Sum(lens) / TWO_32) % TWO_32
  {
    Count0Low(lens);
    HighExactly(lens, Count1(lens), 8 * Total(lens), Sum(lens), Omitted(lens), Overflows(lens), Negatives(lens));
  }
}
