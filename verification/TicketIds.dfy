/** Ticket ids: a wrapping counter, its decimal rendering, a random part and a suffix. */
module TicketIds {
  import opened JavaInt

  const MAX: int := 0x7fff_ffff_ffff_ffff

  // ---------------------------------------------------------------- the counter, one caller at a time

  /** `getNextValue`: the value returned, and the counter afterwards. */
  function NextValue(count: JLong): (JLong, JLong) {
    if count == MAX then (MAX, 0) else (count, Int64(count + 1))
  }

  class DefaultLongNumericGenerator {
    var count: JLong

    constructor (initialValue: JLong)
      ensures count == initialValue
    {
      count := initialValue;
    }

    method CompareAndSet(expected: JLong, update: JLong) returns (ok: bool)
      modifies this
      ensures ok == (old(count) == expected) && count == if ok then update else old(count)
    {
      ok := count == expected;
      if ok { count := update; }
    }

    method GetAndIncrement() returns (v: JLong)
      modifies this
      ensures v == old(count) && count == Int64(old(count) + 1)
    {
      v := count;
      count := Int64(count + 1);
    }

    method GetNextValue() returns (v: JLong)
      modifies this
      ensures (v, count) == NextValue(old(count))
    {
      var ok := CompareAndSet(MAX, 0);
      if ok {
        return MAX;
      }
      v := GetAndIncrement();
    }

    method GetNextNumberAsString() returns (s: string)
      modifies this
      ensures s == LongToString(NextValue(old(count)).0) && count == NextValue(old(count)).1
    {
      var v := GetNextValue();
      s := LongToString(v);
    }
  }

  /** The counter after `n` calls. */
  function CountAfter(start: JLong, n: nat): JLong {
    if n == 0 then start else NextValue(CountAfter(start, n - 1)).1
  }

  /** The value of call number `n`, from 0. */
  function ValueOf(start: JLong, n: nat): JLong { NextValue(CountAfter(start, n)).0 }

  lemma {:induction false} CountAfterIs(start: JLong, n: nat)
    requires start >= 0
    ensures CountAfter(start, n) == (start + n) % 0x8000_0000_0000_0000
  {
    if n > 0 {
      CountAfterIs(start, n - 1);
      var m := start + n - 1;
      Successor(m, m / 0x8000_0000_0000_0000, m % 0x8000_0000_0000_0000);
    }
  }

  lemma Successor(m: nat, q: nat, r: nat)
    requires m == 0x8000_0000_0000_0000 * q + r && r < 0x8000_0000_0000_0000
    ensures (m + 1) % 0x8000_0000_0000_0000 == if r == MAX then 0 else r + 1
  {
    if r == MAX {
      Remainder63(m + 1, q + 1, 0);
    } else {
      Remainder63(m + 1, q, r + 1);
    }
  }

  lemma Remainder63(x: nat, q: nat, r: nat)
    requires x == 0x8000_0000_0000_0000 * q + r && r < 0x8000_0000_0000_0000
    ensures x % 0x8000_0000_0000_0000 == r
  {}

  /** From a start not negative, two calls give the same value exactly when a multiple of 2^63 calls lies between. */
  lemma ValuesRepeat(start: JLong, i: nat, j: nat)
    requires start >= 0 && i <= j
    ensures ValueOf(start, i) == ValueOf(start, j) <==> (j - i) % 0x8000_0000_0000_0000 == 0
  {
    CountAfterIs(start, i);
    CountAfterIs(start, j);
    var a, b, d := start + i, start + j, j - i;
    var qa, ra := a / 0x8000_0000_0000_0000, a % 0x8000_0000_0000_0000;
    var qd, rd := d / 0x8000_0000_0000_0000, d % 0x8000_0000_0000_0000;
    assert b == 0x8000_0000_0000_0000 * (qa + qd) + (ra + rd);
    if ra + rd < 0x8000_0000_0000_0000 {
      Remainder63(b, qa + qd, ra + rd);
    } else {
      Remainder63(b, qa + qd + 1, ra + rd - 0x8000_0000_0000_0000);
    }
  }

  // ---------------------------------------------------------------- the counter, many callers

  /** A thread has yet to compare, has compared in vain and has yet to increment, or has its value. */
  datatype Caller = Compare | Increment | Has(value: JLong)

  /** `issued` lists the values in the order in which they were taken. */
  datatype Counter = Counter(count: JLong, callers: seq<Caller>, issued: seq<JLong>)

  function Act(c: Counter, i: nat): Counter
    requires i < |c.callers|
  {
    match c.callers[i]
    case Compare =>
      if c.count == MAX then Counter(0, c.callers[i := Has(MAX)], c.issued + [MAX])
      else c.(callers := c.callers[i := Increment])
    case Increment => Counter(Int64(c.count + 1), c.callers[i := Has(c.count)], c.issued + [c.count])
    case Has(_) => c
  }

  ghost function Run(c: Counter, schedule: seq<nat>): (d: Counter)
    requires forall k :: 0 <= k < |schedule| ==> schedule[k] < |c.callers|
    ensures |d.callers| == |c.callers|
  {
    if |schedule| == 0 then c else Act(Run(c, schedule[..|schedule| - 1]), schedule[|schedule| - 1])
  }

  /** What may come after `v`: its successor, or after the maximum either end of the wrap. */
  predicate Follows(v: JLong, n: JLong) {
    if v == MAX then n == 0 || n == -0x8000_0000_0000_0000 else n == v + 1
  }

  ghost predicate InOrder(start: JLong, c: Counter) {
    && (c.issued == [] ==> c.count == start)
    && (c.issued != [] ==> c.issued[0] == start && Follows(c.issued[|c.issued| - 1], c.count))
    && forall k :: 0 <= k < |c.issued| - 1 ==> Follows(c.issued[k], c.issued[k + 1])
  }

  lemma ActInOrder(start: JLong, c: Counter, i: nat)
    requires InOrder(start, c) && i < |c.callers|
    ensures InOrder(start, Act(c, i))
  {
    var d := Act(c, i);
    if |d.issued| > |c.issued| {
      forall k | 0 <= k < |d.issued| - 1 ensures Follows(d.issued[k], d.issued[k + 1]) {
        if k < |c.issued| - 1 {
          assert Follows(c.issued[k], c.issued[k + 1]);
        }
      }
    }
  }

  lemma {:induction false} RunInOrder(c: Counter, schedule: seq<nat>)
    requires c.issued == [] && forall k :: 0 <= k < |schedule| ==> schedule[k] < |c.callers|
    ensures InOrder(c.count, Run(c, schedule))
  {
    if |schedule| > 0 {
      RunInOrder(c, schedule[..|schedule| - 1]);
      ActInOrder(c.count, Run(c, schedule[..|schedule| - 1]), schedule[|schedule| - 1]);
    }
  }

  /** How far apart two values are: their distance in the order of issue, or that less one turn of either kind. */
  predicate Apart(v: JLong, w: JLong, d: nat) {
    w == v + d || w == v + d - TWO_63 || w == v + d - TWO_64
  }

  lemma {:induction false} IssuedApart(start: JLong, c: Counter, i: nat, j: nat)
    requires InOrder(start, c) && i <= j < |c.issued| && j - i < 0x8000_0000_0000_0000
    ensures Apart(c.issued[i], c.issued[j], j - i)
    decreases j - i
  {
    if i < j {
      IssuedApart(start, c, i, j - 1);
      assert Follows(c.issued[j - 1], c.issued[j - 1 + 1]);
    }
  }

  /**
    However the two atomic steps of the callers interleave and wherever the counter starts, no two of 2^63 values taken
    one after the other are equal, across the wrap too.
   */
  lemma InterleavedDistinct(c: Counter, schedule: seq<nat>, i: nat, j: nat)
    requires c.issued == [] && forall k :: 0 <= k < |schedule| ==> schedule[k] < |c.callers|
    requires i < j < |Run(c, schedule).issued| && j - i < 0x8000_0000_0000_0000
    ensures Run(c, schedule).issued[i] != Run(c, schedule).issued[j]
  {
    RunInOrder(c, schedule);
    IssuedApart(c.count, Run(c, schedule), i, j);
  }

  /** Up to the maximum they are the start, the start plus one, and so on. */
  lemma {:induction false} InterleavedFirst(c: Counter, schedule: seq<nat>, i: nat)
    requires c.issued == [] && forall k :: 0 <= k < |schedule| ==> schedule[k] < |c.callers|
    requires i < |Run(c, schedule).issued| && c.count + i <= MAX
    ensures Run(c, schedule).issued[i] == c.count + i
    decreases i
  {
    RunInOrder(c, schedule);
    if i > 0 {
      InterleavedFirst(c, schedule, i - 1);
      var issued := Run(c, schedule).issued;
      assert Follows(issued[i - 1], issued[i - 1 + 1]);
    }
  }

  /** After the maximum the next value depends on which step took it: zero, or the lowest `long`. */
  lemma AfterMaximum(c: Counter, i: nat)
    requires c.count == MAX && i < |c.callers| && !c.callers[i].Has?
    ensures Act(c, i).issued == c.issued + [MAX]
    ensures Act(c, i).count == if c.callers[i].Compare? then 0 else -0x8000_0000_0000_0000
  {}

  // ---------------------------------------------------------------- rendering

  function Digit(d: int): char
    requires 0 <= d < 10
  {
    ['0', '1', '2', '3', '4', '5', '6', '7', '8', '9'][d]
  }

  function Decimal(n: nat): (s: string)
    ensures |s| > 0
  {
    if n < 10 then [Digit(n)] else Decimal(n / 10) + [Digit(n % 10)]
  }

  /** `Long.toString`. */
  function LongToString(x: JLong): string {
    if x < 0 then "-" + Decimal(-(x as int)) else Decimal(x)
  }

  lemma {:induction false} DecimalDigits(n: nat)
    ensures '-' !in Decimal(n)
  {
    if n >= 10 {
      DecimalDigits(n / 10);
    }
  }

  /** The number that a text of digits stands for. */
  function ValueOfDigits(s: string): int {
    if |s| == 0 then 0 else 10 * ValueOfDigits(s[..|s| - 1]) + (s[|s| - 1] as int - '0' as int)
  }

  /** The rendering is the number in base ten: digits only, that stand for it, and no zero in front. */
  lemma {:induction false} DecimalReads(n: nat)
    ensures ValueOfDigits(Decimal(n)) == n && forall c :: c in Decimal(n) ==> '0' <= c <= '9'
    ensures n > 0 ==> Decimal(n)[0] != '0'
  {
    var d := Digit(n % 10);
    assert d as int == '0' as int + n % 10 && '0' <= d <= '9';
    if n < 10 {
      assert [d][..0] == [];
    } else {
      DecimalReads(n / 10);
      var s := Decimal(n);
      assert s[..|s| - 1] == Decimal(n / 10) && s[|s| - 1] == d;
    }
  }

  lemma DigitInjective(a: int, b: int)
    requires 0 <= a < 10 && 0 <= b < 10 && Digit(a) == Digit(b)
    ensures a == b
  {}

  lemma {:induction false} DecimalInjective(a: nat, b: nat)
    requires Decimal(a) == Decimal(b)
    ensures a == b
    decreases a
  {
    var s, t := Decimal(a), Decimal(b);
    assert (|s| == 1 <==> a < 10) && (|t| == 1 <==> b < 10);
    assert s[|s| - 1] == Digit(a % 10) && t[|t| - 1] == Digit(b % 10);
    DigitInjective(a % 10, b % 10);
    if a >= 10 && b >= 10 {
      assert s[..|s| - 1] == Decimal(a / 10) && t[..|t| - 1] == Decimal(b / 10);
      DecimalInjective(a / 10, b / 10);
    }
  }

  // ---------------------------------------------------------------- the random part

  const LOWER_CASE := "abcdefghijklmnopqrstuvwxyz"
  const UPPER_CASE := "ABCDEFGHIJKLMNOPQRSTUVWXYZ"
  const PRINTABLE_CHARACTERS: string := LOWER_CASE + UPPER_CASE + "012345679"

  type JByte = x: int | -128 <= x < 128

  /** Java's `%`: the sign of the dividend. */
  function JavaRemainder(a: int, b: int): int
    requires b > 0
  {
    if a >= 0 then a % b else -((-a) % b)
  }

  function Abs(x: int): int { if x < 0 then -x else x }

  /** Every byte has a printable character; a byte and its negation have the same one. */
  lemma IndexInRange(b: JByte)
    ensures |PRINTABLE_CHARACTERS| == 61
    ensures Abs(JavaRemainder(b, 61)) == Abs(b) % 61
    ensures 0 <= Abs(JavaRemainder(b, 61)) < 61
  {}

  lemma LowerCase(i: nat)
    requires i < 26
    ensures LOWER_CASE[i] as int == 'a' as int + i
  {
    match i
    case 0 => case 1 => case 2 => case 3 => case 4 => case 5 => case 6 => case 7 =>
    case 8 => case 9 => case 10 => case 11 => case 12 =>
    case 13 => case 14 => case 15 => case 16 => case 17 => case 18 => case 19 =>
    case 20 => case 21 => case 22 => case 23 => case 24 => case _ =>
  }

  lemma UpperCase(i: nat)
    requires i < 26
    ensures UPPER_CASE[i] as int == 'A' as int + i
  {
    match i
    case 0 => case 1 => case 2 => case 3 => case 4 => case 5 => case 6 => case 7 =>
    case 8 => case 9 => case 10 => case 11 => case 12 =>
    case 13 => case 14 => case 15 => case 16 => case 17 => case 18 => case 19 =>
    case 20 => case 21 => case 22 => case 23 => case 24 => case _ =>
  }

  /** They are the letters in both cases, and the digits but for the eight. */
  lemma PrintableCharacters(i: nat)
    requires i < 61
    ensures PRINTABLE_CHARACTERS[i] as int
         == if i < 26 then 'a' as int + i else if i < 52 then 'A' as int + (i - 26)
            else if i < 60 then '0' as int + (i - 52) else '9' as int
  {
    if i < 26 {
      LowerCase(i);
    } else if i < 52 {
      UpperCase(i - 26);
    }
  }

  predicate Printable(s: string) {
    forall i :: 0 <= i < |s| ==> s[i] in PRINTABLE_CHARACTERS
  }

  method ConvertBytesToString(random: seq<JByte>) returns (s: string)
    ensures |s| == |random| && Printable(s)
    ensures forall i :: 0 <= i < |s| ==> s[i] == PRINTABLE_CHARACTERS[Abs(random[i]) % 61]
  {
    var output := new char[|random|];
    for i := 0 to |random|
      invariant forall j :: 0 <= j < i ==> output[j] == PRINTABLE_CHARACTERS[Abs(random[j]) % 61]
    {
      IndexInRange(random[i]);
      var index := Abs(JavaRemainder(random[i], |PRINTABLE_CHARACTERS|));
      output[i] := PRINTABLE_CHARACTERS[index];
    }
    s := output[..];
  }

  // ---------------------------------------------------------------- whole ids

  function TicketId(prefix: string, number: JLong, random: string, suffix: string): string {
    prefix + "-" + LongToString(number) + "-" + random + suffix
  }

  /** What comes before the first dash is determined. */
  lemma {:induction false} CutAtDash(a: string, x: string, b: string, y: string)
    requires '-' !in a && '-' !in b && a + "-" + x == b + "-" + y
    ensures a == b && x == y
  {
    var s, t := a + "-" + x, b + "-" + y;
    if |a| == 0 || |b| == 0 {
      assert s[0] == (a + "-")[0] && t[0] == (b + "-")[0];
      assert s[|a + "-"|..] == x && t[|b + "-"|..] == y;
    } else {
      assert s[0] == a[0] && t[0] == b[0];
      assert s[1..] == a[1..] + "-" + x && t[1..] == b[1..] + "-" + y;
      CutAtDash(a[1..], x, b[1..], y);
    }
  }

  function Magnitude(x: JLong): nat { if x < 0 then -(x as int) else x }

  /** A number is rendered with a leading dash exactly when it is negative. */
  lemma SignShows(m: JLong, x: string)
    ensures var s := LongToString(m) + "-" + x;
            (s[0] == '-' <==> m < 0) && s == (if m < 0 then "-" else "") + (Decimal(Magnitude(m)) + "-" + x)
  {
    DecimalDigits(Magnitude(m));
    var d := Decimal(Magnitude(m));
    assert d[0] in d;
    if m < 0 {
      assert "-" + d + "-" + x == "-" + (d + "-" + x);
    } else {
      assert "" + (d + "-" + x) == d + "-" + x;
    }
  }

  lemma NumberCut(m: JLong, x: string, n: JLong, y: string)
    requires LongToString(m) + "-" + x == LongToString(n) + "-" + y
    ensures m == n && x == y
  {
    SignShows(m, x);
    SignShows(n, y);
    var dm, dn := Decimal(Magnitude(m)), Decimal(Magnitude(n));
    SameTail(if m < 0 then "-" else "", dm + "-" + x, dn + "-" + y);
    DecimalDigits(Magnitude(m));
    DecimalDigits(Magnitude(n));
    CutAtDash(dm, x, dn, y);
    DecimalInjective(Magnitude(m), Magnitude(n));
  }

  lemma SameTail(p: string, x: string, y: string)
    requires p + x == p + y
    ensures x == y
  {
    assert (p + x)[|p|..] == x && (p + y)[|p|..] == y;
  }

  lemma SameHead(x: string, y: string, p: string)
    requires x + p == y + p
    ensures x == y
  {
    assert (x + p)[..|x|] == x && (y + p)[..|y|] == y;
  }

  lemma IdParts(p: string, n: JLong, r: string, suffix: string)
    ensures TicketId(p, n, r, suffix) == p + "-" + (LongToString(n) + "-" + (r + suffix))
  {}

  /** Ids with dash-free prefixes and one suffix are equal only if prefix, number and random part are. */
  lemma IdsInjective(p1: string, n1: JLong, r1: string, p2: string, n2: JLong, r2: string, suffix: string)
    requires '-' !in p1 && '-' !in p2
    requires TicketId(p1, n1, r1, suffix) == TicketId(p2, n2, r2, suffix)
    ensures p1 == p2 && n1 == n2 && r1 == r2
  {
    var x, y := LongToString(n1) + "-" + (r1 + suffix), LongToString(n2) + "-" + (r2 + suffix);
    IdParts(p1, n1, r1, suffix);
    IdParts(p2, n2, r2, suffix);
    CutAtDash(p1, x, p2, y);
    NumberCut(n1, r1 + suffix, n2, r2 + suffix);
    SameHead(r1, r2, suffix);
  }

  /**
    The ids of any two of 2^63 consecutive numbers of one generator differ, whatever the random parts, wherever the
    counter starts and however its callers interleave, also across the wrap.
   */
  lemma IdsDistinct(c: Counter, schedule: seq<nat>, i: nat, j: nat, p1: string, r1: string, p2: string, r2: string,
                    suffix: string)
    requires c.issued == [] && forall k :: 0 <= k < |schedule| ==> schedule[k] < |c.callers|
    requires i < j < |Run(c, schedule).issued| && j - i < 0x8000_0000_0000_0000 && '-' !in p1 && '-' !in p2
    ensures var issued := Run(c, schedule).issued;
            TicketId(p1, issued[i], r1, suffix) != TicketId(p2, issued[j], r2, suffix)
  {
    InterleavedDistinct(c, schedule, i, j);
    NumbersTell(p1, Run(c, schedule).issued[i], r1, p2, Run(c, schedule).issued[j], r2, suffix);
  }

  /** Calls made one after the other give equal numbers, and may give equal ids, only 2^63 calls apart. */
  lemma IdsInTurn(start: JLong, i: nat, j: nat, p1: string, r1: string, p2: string, r2: string, suffix: string)
    requires start >= 0 && i < j && (j - i) % 0x8000_0000_0000_0000 != 0 && '-' !in p1 && '-' !in p2
    ensures TicketId(p1, ValueOf(start, i), r1, suffix) != TicketId(p2, ValueOf(start, j), r2, suffix)
  {
    ValuesRepeat(start, i, j);
    NumbersTell(p1, ValueOf(start, i), r1, p2, ValueOf(start, j), r2, suffix);
  }

  lemma NumbersTell(p1: string, n1: JLong, r1: string, p2: string, n2: JLong, r2: string, suffix: string)
    requires '-' !in p1 && '-' !in p2 && n1 != n2
    ensures TicketId(p1, n1, r1, suffix) != TicketId(p2, n2, r2, suffix)
  {
    if TicketId(p1, n1, r1, suffix) == TicketId(p2, n2, r2, suffix) {
      IdsInjective(p1, n1, r1, p2, n2, r2, suffix);
    }
  }

  class DefaultUniqueTicketIdGenerator {
    const numericGenerator: DefaultLongNumericGenerator
    const suffix: string

    /** `suffix` is empty when none is given. */
    constructor (given: string, hasSuffix: bool)
      ensures fresh(numericGenerator) && numericGenerator.count == 1
      ensures suffix == if hasSuffix then "-" + given else ""
    {
      numericGenerator := new DefaultLongNumericGenerator(1);
      suffix := if hasSuffix then "-" + given else "";
    }

    /** `random` is what the secure random source gives. */
    method GetNewTicketId(prefix: string, random: seq<JByte>) returns (id: string, ghost r: string)
      modifies numericGenerator
      ensures id == TicketId(prefix, NextValue(old(numericGenerator.count)).0, r, suffix)
      ensures numericGenerator.count == NextValue(old(numericGenerator.count)).1
      ensures |r| == |random| && Printable(r)
      ensures var n := NextValue(old(numericGenerator.count)).0;
              id == prefix + "-" + (if n < 0 then "-" else "") + Decimal(Magnitude(n)) + "-" + r + suffix
    {
      var number := numericGenerator.GetNextNumberAsString();
      var buffer := prefix;
      buffer := buffer + "-";
      buffer := buffer + number;
      buffer := buffer + "-";
      var s := ConvertBytesToString(random);
      r := s;
      buffer := buffer + s;
      id := buffer + suffix;
    }
  }
}
