/** The mutable engine of MD5.java, proved against RFC 1321. */
module Md5Engine {
  import opened JavaInt
  import opened BlockFold
  import opened Md5Arithmetic
  import opened Md5Bytes
  import opened Md5Count
  import opened Md5Rounds
  import opened Rounds
  import Rfc = Rfc1321

  /** `md5Memcpy`. */
  method Memcpy(output: array<Byte>, input: array<Byte>, outpos: nat, inpos: nat, len: nat)
    requires output != input && outpos + len <= output.Length && inpos + len <= input.Length
    modifies output
    ensures output[..] == old(output[..outpos]) + input[inpos..inpos + len] + old(output[outpos + len..])
  {
    var i := 0;
    while i < len
      invariant 0 <= i <= len
      invariant forall k :: 0 <= k < output.Length ==>
        output[k] == if outpos <= k < outpos + i then input[inpos + k - outpos] else old(output[k])
    {
      output[outpos + i] := input[inpos + i];
      i := i + 1;
    }
  }

  /** `Decode`. */
  method Decode(output: array<Long>, input: array<Byte>, len: nat)
    requires len % 4 == 0 && len <= input.Length && len <= 4 * output.Length
    modifies output
    ensures forall k :: 0 <= k < len / 4 ==>
      output[k] == DecodedWord(input[4 * k], input[4 * k + 1], input[4 * k + 2], input[4 * k + 3])
  {
    var i, j := 0, 0;
    while j < len
      invariant 0 <= j <= len && j == 4 * i
      invariant forall k :: 0 <= k < i ==>
        output[k] == DecodedWord(input[4 * k], input[4 * k + 1], input[4 * k + 2], input[4 * k + 3])
    {
      output[i] := DecodedWord(input[j], input[j + 1], input[j + 2], input[j + 3]);
      i, j := i + 1, j + 4;
    }
  }

  /** One of the counters as `Encode` writes it. */
  function EncodedCount(c: JLong): (s: seq<Byte>)
    ensures |s| == 4
  {
    var u := c % TWO_64;
    Rfc.ToBytes([u % 256, u / 0x100 % 256, u / 0x1_0000 % 256, u / 0x100_0000 % 256])
  }

  lemma Digits4(w: nat)
    ensures Rfc.Digits(w, 4) == [w % 256, w / 256 % 256, w / 256 / 256 % 256, w / 256 / 256 / 256 % 256]
  {
    var w1, w2, w3 := w / 256, w / 256 / 256, w / 256 / 256 / 256;
    assert Rfc.Digits(w3, 1) == [w3 % 256];
    assert Rfc.Digits(w2, 2) == [w2 % 256] + Rfc.Digits(w3, 1);
    assert Rfc.Digits(w1, 3) == [w1 % 256] + Rfc.Digits(w2, 2);
  }

  lemma EncodedCountLow(c: JLong)
    ensures EncodedCount(c) == Rfc.LittleEndian(c % TWO_32, 4)
  {
    Low32(c);
    BytesOf(c % TWO_64);
    Digits4(c % TWO_32);
  }

  lemma Remainder256(x: int, k: int, r: int)
    requires x == 256 * k + r && 0 <= r < 256
    ensures x % 256 == r
  {}

  lemma BytesOf(u: nat)
    ensures var w := u % 0x1_0000_0000;
            u % 256 == w % 256 && u / 0x100 % 256 == w / 256 % 256 && u / 0x1_0000 % 256 == w / 256 / 256 % 256
            && u / 0x100_0000 % 256 == w / 256 / 256 / 256 % 256
  {
    var q, w := u / 0x1_0000_0000, u % 0x1_0000_0000;
    var w1 := w / 256;
    var w2 := w1 / 256;
    var w3 := w2 / 256;
    Remainder256(u, 0x100_0000 * q + w1, w % 256);
    assert u / 0x100 == 0x100_0000 * q + w1;
    Remainder256(u / 0x100, 0x1_0000 * q + w2, w1 % 256);
    assert u / 0x1_0000 == 0x1_0000 * q + w2;
    Remainder256(u / 0x1_0000, 0x100 * q + w3, w2 % 256);
    assert u / 0x100_0000 == 0x100 * q + w3;
    Remainder256(u / 0x100_0000, q + w3 / 256, w3 % 256);
  }

  function Concat<L>(bytes: L -> seq<Byte>, xs: seq<L>): seq<Byte> {
    if |xs| == 0 then [] else Concat(bytes, xs[..|xs| - 1]) + bytes(xs[|xs| - 1])
  }

  /** `Encode`; `bytes` says which four bytes a Java `long` in the representation `L` yields. */
  method Encode<L>(output: array<Byte>, input: array<L>, len: nat, bytes: L -> seq<Byte>)
    requires len % 4 == 0 && len <= output.Length && len <= 4 * input.Length
    requires output as object != input && forall x :: |bytes(x)| == 4
    modifies output
    ensures output[..len] == Concat(bytes, input[..len / 4])
    ensures output[len..] == old(output[len..])
  {
    var i, j := 0, 0;
    while j < len
      invariant 0 <= j <= len && j == 4 * i
      invariant output[..j] == Concat(bytes, input[..i])
      invariant output[len..] == old(output[len..])
    {
      var w := bytes(input[i]);
      ghost var before := output[..j];
      output[j], output[j + 1], output[j + 2], output[j + 3] := w[0], w[1], w[2], w[3];
      assert output[..j + 4] == before + w;
      assert input[..i + 1][..i] == input[..i];
      i, j := i + 1, j + 4;
    }
  }

  lemma DecodedWords(x: seq<Long>, block: Block)
    requires |x| == 16
    requires forall k :: 0 <= k < 16 ==>
      x[k] == DecodedWord(block[4 * k], block[4 * k + 1], block[4 * k + 2], block[4 * k + 3])
    ensures forall k {:trigger x[k]} :: 0 <= k < 16 ==> Low(x[k]) == Rfc.Words(block)[k]
  {
    forall k {:trigger x[k]} | 0 <= k < 16 ensures Low(x[k]) == Rfc.Words(block)[k] {
      LowDecoded(block[4 * k], block[4 * k + 1], block[4 * k + 2], block[4 * k + 3]);
    }
  }

  // The block function is kept as a value of this type, so that proofs about the buffer do not look inside it.

  ghost predicate IsCompression(f: (Rfc.State, Block) -> Rfc.State) {
    forall q, block: Block {:trigger f(q, block), Rfc.Words(block)} :: f(q, block) == Rfc.Compress(q, block)
  }

  type Compression = f: (Rfc.State, Block) -> Rfc.State | IsCompression(f) ghost witness Rfc.Compress

  lemma CompressionIs(f: Compression, q: Rfc.State, block: Block)
    ensures f(q, block) == Rfc.Compress(q, block)
  {
    assert |Rfc.Words(block)| == 16;
  }

  lemma LowAdd(s0: Long, s1: Long, s2: Long, s3: Long, a: Long, b: Long, c: Long, d: Long)
    ensures LowQuad(Plus(s0, a), Plus(s1, b), Plus(s2, c), Plus(s3, d))
         == Rfc.Add(LowQuad(s0, s1, s2, s3), LowQuad(a, b, c, d))
  {
    LowPlus(s0, a);
    LowPlus(s1, b);
    LowPlus(s2, c);
    LowPlus(s3, d);
  }

  lemma FourRounds(f: Compression, q: Rfc.State, block: Block, w: seq<Int>,
                   q1: Rfc.State, q2: Rfc.State, q3: Rfc.State, q4: Rfc.State)
    requires w == Rfc.Words(block)
    requires q1 == Round(Rfc.Operations(0, w), 16, q) && q2 == Round(Rfc.Operations(1, w), 16, q1)
    requires q3 == Round(Rfc.Operations(2, w), 16, q2) && q4 == Round(Rfc.Operations(3, w), 16, q3)
    ensures f(q, block) == Rfc.Add(q, q4)
  {
    CompressionIs(f, q, block);
  }

  /** The sixty-four operations of `md5Transform`. */
  method AllRounds(a0: Long, b0: Long, c0: Long, d0: Long, x: seq<Long>, ghost block: Block, ghost f: Compression)
    returns (a: Long, b: Long, c: Long, d: Long)
    requires |x| == 16 && forall k {:trigger x[k]} :: 0 <= k < 16 ==> Low(x[k]) == Rfc.Words(block)[k]
    ensures Rfc.Add(LowQuad(a0, b0, c0, d0), LowQuad(a, b, c, d)) == f(LowQuad(a0, b0, c0, d0), block)
  {
    ghost var w := Rfc.Words(block);
    a, b, c, d := Round1(a0, b0, c0, d0, x, PlanOf(0, w));
    ghost var q1 := LowQuad(a, b, c, d);
    a, b, c, d := Round2(a, b, c, d, x, PlanOf(1, w));
    ghost var q2 := LowQuad(a, b, c, d);
    a, b, c, d := Round3(a, b, c, d, x, PlanOf(2, w));
    ghost var q3 := LowQuad(a, b, c, d);
    a, b, c, d := Round4(a, b, c, d, x, PlanOf(3, w));
    FourRounds(f, LowQuad(a0, b0, c0, d0), block, w, q1, q2, q3, LowQuad(a, b, c, d));
  }

  lemma {:induction false} FoldCompression(f: Compression, q: Rfc.State, s: seq<Byte>)
    requires |s| % 64 == 0
    ensures Fold(f, q, s) == Rfc.Absorb(q, s)
  {
    if |s| > 0 {
      FoldCompression(f, q, s[..|s| - 64]);
      CompressionIs(f, Fold(f, q, s[..|s| - 64]), s[|s| - 64..]);
    }
  }

  /** The bytes of a message of `n` bytes that lie in whole blocks. */
  function Whole(n: nat): (w: nat)
    ensures w % 64 == 0 && w <= n < w + 64
  {
    n - n % 64
  }

  lemma Advance(f: Compression, q: Rfc.State, s: seq<Byte>, w: nat)
    requires w % 64 == 0 && w + 64 <= |s|
    ensures Fold(f, q, s[..w + 64]) == f(Fold(f, q, s[..w]), s[w..w + 64])
  {
    FoldOne(f, q, s[..w], s[w..w + 64]);
    assert s[..w] + s[w..w + 64] == s[..w + 64];
  }

  /** The final copy of `md5Update`: the buffer then starts with everything from `w` on. */
  lemma Rest(all: seq<Byte>, input: seq<Byte>, w: nat, i: nat, index: nat, before: seq<Byte>, after: seq<Byte>)
    requires i <= |input| && index <= |before| && w + index <= |all| && |all| - w - index == |input| - i
    requires before[..index] == all[w..w + index] && all[w + index..] == input[i..]
    requires before[..index] + input[i..] <= after
    ensures after[..|all| - w] == all[w..]
  {
    assert all[w..] == all[w..w + index] + all[w + index..];
  }

  lemma Next64(w: nat)
    requires w % 64 == 0
    ensures (w + 64) % 64 == 0
  {}

  lemma WholeUnique(n: nat, w: nat)
    requires w % 64 == 0 && w <= n < w + 64
    ensures Whole(n) == w
  {}

  lemma CountBytes(count: seq<JLong>, lens: seq<nat>)
    requires |count| == 2 && count[0] == Count0(lens) && count[1] == Count1(lens)
    ensures Concat(EncodedCount, count[..2]) == LengthField(lens)
  {
    EncodedCountLow(count[0]);
    EncodedCountLow(count[1]);
    ConcatTwo(EncodedCount, count[..2]);
  }

  lemma ConcatTwo<L>(bytes: L -> seq<Byte>, xs: seq<L>)
    requires |xs| == 2
    ensures Concat(bytes, xs) == bytes(xs[0]) + bytes(xs[1])
  {
    assert Concat(bytes, xs[..1]) == bytes(xs[0]);
  }

  lemma ConcatFour<L>(bytes: L -> seq<Byte>, xs: seq<L>)
    requires |xs| == 4
    ensures Concat(bytes, xs) == bytes(xs[0]) + bytes(xs[1]) + bytes(xs[2]) + bytes(xs[3])
  {
    ConcatTwo(bytes, xs[..2]);
    assert xs[..3][..2] == xs[..2];
  }

  lemma StateBytes(state: seq<Long>, q: Rfc.State)
    requires |state| == 4 && q == LowQuad(state[0], state[1], state[2], state[3])
    ensures Concat(EncodedWord, state[..4]) == Rfc.StateBytes(q)
  {
    ConcatFour(EncodedWord, state[..4]);
    EncodedLow(state[0]);
    EncodedLow(state[1]);
    EncodedLow(state[2]);
    EncodedLow(state[3]);
  }

  lemma PaddingBytes(padding: seq<Byte>, n: nat)
    requires |padding| == 64 && padding[0] == 0x80 && forall k :: 1 <= k < 64 ==> padding[k] == 0
    ensures padding[..Rfc.PadLength(n)] == Rfc.Padding(n)
  {}

  lemma PaddedLength(n: nat, total: nat)
    requires total == n + Rfc.PadLength(n) + 8
    ensures total % 64 == 0
  {}

  lemma PaddedDigest(m: seq<Byte>, field: seq<Byte>, all: seq<Byte>)
    requires |field| == 8 && all == m + Rfc.Padding(|m|) + field
    ensures |all| % 64 == 0 && Rfc.StateBytes(Rfc.Absorb(Rfc.INITIAL, all)) == Rfc.DigestWith(m, field)
  {
    PaddedLength(|m|, |all|);
  }

  /**
    Any way of cutting a message of fewer than 2^29 bytes into updates gives its RFC 1321 digest, so long as none but
    the last update has 2^28 bytes or more.
   */
  lemma StreamingDigest(msg: seq<Byte>, lens: seq<nat>)
    requires Total(lens) == |msg| < TWO_29 && AfterLong(lens) == 0
    ensures Rfc.DigestWith(msg, LengthField(lens)) == Rfc.Digest(msg)
  {
    LengthBelow29(lens);
    LengthFieldRight(lens);
  }

  /** The three statements of `md5Update` on the counters. */
  method Counted(c0: JLong, c1: JLong, n: nat) returns (low: JLong, high: JLong)
    ensures Counters(low, high) == Next(Counters(c0, c1), n)
  {
    low, high := Int64(c0 + Bits(n)), c1;
    if low < Bits(n) {
      high := Int64((high as int) + 1);
    }
    high := Int64(high + n / TWO_29);
  }

  lemma Slice(all: seq<Byte>, input: seq<Byte>, off: nat, i: nat)
    requires off <= |all| && all[off..] == input && i + 64 <= |input|
    ensures off + i + 64 <= |all| && all[off + i..off + i + 64] == input[i..i + 64]
  {}

  /** `i + 63`, in the loop over whole blocks, does not overflow where the loop ends. */
  predicate Fits(index: nat, inputLen: nat) { index + inputLen < TWO_31 }

  /** The bytes that an array of so many bytes has of an input of so many. */
  function Given(bytes: seq<Byte>, inputLen: nat): (r: seq<Byte>)
    ensures r <= bytes && |r| <= inputLen && (inputLen <= |bytes| ==> r == bytes[..inputLen])
  {
    if inputLen <= |bytes| then bytes[..inputLen] else bytes
  }

  /**
    The guard of the loop at `i` is false where fewer than 64 bytes are left and nothing overflows; it is true where 64
    bytes are left, and where `i + 63` overflows, which is at just one place, near the end of the largest arrays.
   */
  lemma LastBlock(index: nat, i: nat, inputLen: nat)
    requires index < 64 && (i + index) % 64 == 0 && i <= inputLen < TWO_31
    ensures Int32(i + 63) < inputLen ==> i + 64 <= inputLen || (i + index == TWO_31 && !Fits(index, inputLen))
    ensures Int32(i + 63) >= inputLen ==> inputLen < i + 64 && Fits(index, inputLen)
  {
    if i + 63 >= TWO_31 {
      assert i + index == TWO_31;
    }
  }

  class MD5 {
    const state: array<Long>
    const count: array<JLong>
    const buffer: array<Byte>
    const digest: array<Byte>
    const padding: array<Byte>
    var digestHexStr: string

    /** Every byte given to `Update` since the last `Init`, and the lengths of those updates. */
    ghost var msg: seq<Byte>
    ghost var lens: seq<nat>

    ghost const compress: Compression

    /** Allocation only: what holds from construction on. */
    ghost predicate Shape()
      reads padding
    {
      && state.Length == 4 && count.Length == 2 && buffer.Length == 64 && digest.Length == 16
      && padding.Length == 64 && padding[0] == 0x80 && (forall k :: 1 <= k < 64 ==> padding[k] == 0)
      && buffer != digest && buffer != padding && digest != padding
    }

    /** The caller's array is none of the engine's own; they are private in the source. */
    ghost predicate Separate(inbuf: array<Byte>) {
      inbuf != buffer && inbuf != digest && inbuf as object != count
    }

    ghost function LowState(): Rfc.State
      requires state.Length == 4
      reads state
    {
      LowQuad(state[0], state[1], state[2], state[3])
    }

    /** The whole blocks of `m` are folded into the state and the rest of it is in the buffer. */
    ghost predicate Holding(m: seq<Byte>)
      requires Shape()
      reads state, buffer, padding
    {
      && buffer[..|m| - Whole(|m|)] == m[Whole(|m|)..]
      && LowState() == Fold(compress, Rfc.INITIAL, m[..Whole(|m|)])
    }

    ghost predicate Valid()
      reads this`msg, this`lens, state, count, buffer, padding
    {
      && Shape()
      && JavaLengths(lens) && Total(lens) == |msg|
      && count[0] == Count0(lens) && count[1] == Count1(lens)
      && Holding(msg)
    }

    constructor ()
      ensures Valid() && msg == [] && lens == []
      ensures fresh(state) && fresh(count) && fresh(buffer) && fresh(digest) && fresh(padding)
    {
      state := new Long[4];
      count := new JLong[2];
      buffer := new Byte[64];
      digest := new Byte[16];
      padding := new Byte[64](i => if i == 0 then 0x80 else 0);
      digestHexStr := "";
      compress := Rfc.Compress;
      new;
      Init();
    }

    /** `md5Init`; the buffer keeps its old bytes. */
    method Init()
      requires Shape()
      modifies this`msg, this`lens, state, count
      ensures Valid() && msg == [] && lens == []
    {
      count[0] := 0;
      count[1] := 0;
      state[0] := 0x67452301;
      state[1] := 0xefcdab89;
      state[2] := 0x98badcfe;
      state[3] := 0x10325476;
      msg, lens := [], [];
    }

    /** `md5Transform`. */
    method Transform(block: array<Byte>)
      requires Shape() && block.Length == 64
      modifies state
      ensures LowState() == compress(old(LowState()), block[..])
    {
      var a, b, c, d := state[0], state[1], state[2], state[3];
      var x := new Long[16];
      Decode(x, block, 64);
      DecodedWords(x[..], block[..]);
      a, b, c, d := AllRounds(a, b, c, d, x[..], block[..], compress);
      AddState(a, b, c, d);
    }

    method AddState(a: Long, b: Long, c: Long, d: Long)
      requires Shape()
      modifies state
      ensures LowState() == Rfc.Add(old(LowState()), LowQuad(a, b, c, d))
    {
      LowAdd(state[0], state[1], state[2], state[3], a, b, c, d);
      state[0] := Plus(state[0], a);
      state[1] := Plus(state[1], b);
      state[2] := Plus(state[2], c);
      state[3] := Plus(state[3], d);
    }

    /**
      `md5Update`. It fails, out of the bounds of an array, exactly if it is told of more bytes than there are or the
      last place where its loop looks overflows an `int`; that takes an input within 63 bytes of 2^31.
     */
    method Update(inbuf: array<Byte>, inputLen: nat) returns (ok: bool)
      requires Valid() && inbuf != buffer && inbuf.Length < TWO_31 && inputLen < TWO_31
      modifies this`msg, this`lens, state, count, buffer
      ensures ok <==> inputLen <= inbuf.Length && Fits(|old(msg)| % 64, inputLen)
      ensures ok ==> Valid() && msg == old(msg) + inbuf[..inputLen] && lens == old(lens) + [inputLen]
    {
      var index := ReadIndex();
      AddCount(inputLen, lens);
      ok := Feed(inbuf, inputLen, index, msg);
      if ok {
        TotalSnoc(lens, inputLen);
        msg, lens := msg + inbuf[..inputLen], lens + [inputLen];
      }
    }

    /** `(int) (count[0] >>> 3) & 0x3F`. */
    method ReadIndex() returns (index: nat)
      requires Valid()
      ensures index == |msg| % 64
    {
      Position(lens);
      index := count[0] % TWO_64 / 8 % 64;
    }

    /** The statements of `md5Update` on the buffer and the state; `m` is the message so far. */
    method Feed(inbuf: array<Byte>, inputLen: nat, index0: nat, ghost m: seq<Byte>) returns (ok: bool)
      requires Shape() && Holding(m) && index0 == |m| % 64
      requires inbuf != buffer && inbuf.Length < TWO_31 && inputLen < TWO_31
      modifies state, buffer
      ensures ok <==> inputLen <= inbuf.Length && Fits(index0, inputLen)
      ensures ok ==> Holding(m + inbuf[..inputLen])
    {
      ghost var given := Given(inbuf[..], inputLen);
      ghost var all := m + given;
      ghost var w := Whole(|m|);
      var index := index0;
      var i := 0;
      var partLen := 64 - index;
      if inputLen >= partLen {
        if partLen > inbuf.Length {
          return false;
        }
        FillBuffer(inbuf, given, index, m, all, w);
        Next64(w);
        ok, i, w := FeedBlocks(inbuf, inputLen, partLen, given, all, w + 64);
        if !ok {
          return;
        }
        index := 0;
      } else {
        assert all[..w] == m[..w] && buffer[..index] == all[w..w + index];
      }
      if inputLen > inbuf.Length {
        return false;
      }
      ghost var held := buffer[..];
      Memcpy(buffer, inbuf, index, i, inputLen - i);
      WholeUnique(|all|, w);
      Rest(all, given, w, i, index, held, buffer[..]);
      ok := true;
    }

    /** Completes the block in the buffer and transforms it. */
    method FillBuffer(inbuf: array<Byte>, ghost given: seq<Byte>, index: nat, ghost m: seq<Byte>, ghost all: seq<Byte>,
                      ghost w: nat)
      requires Shape() && Holding(m) && w == Whole(|m|) && index == |m| - w
      requires inbuf != buffer && 64 - index <= |given| && given <= inbuf[..] && all == m + given
      modifies state, buffer
      ensures LowState() == Fold(compress, Rfc.INITIAL, all[..w + 64])
    {
      assert inbuf[0..64 - index] == given[..64 - index];
      Memcpy(buffer, inbuf, index, 0, 64 - index);
      assert buffer[..] == all[w..w + 64];
      assert all[..w] == m[..w];
      Transform(buffer);
      Advance(compress, Rfc.INITIAL, all, w);
    }

    /** The body of the loop of `md5Update`. */
    method FeedOne(block: array<Byte>, inbuf: array<Byte>, i: nat, ghost given: seq<Byte>, ghost all: seq<Byte>,
                   ghost w: nat)
      requires Shape() && block.Length == 64 && block != inbuf && given <= inbuf[..] && i + 64 <= |given|
      requires i <= w && w % 64 == 0 && |all| == w - i + |given| && all[w - i..] == given
      requires LowState() == Fold(compress, Rfc.INITIAL, all[..w])
      requires block != buffer && block != digest && block != padding
      modifies state, block
      ensures w + 64 <= |all| && LowState() == Fold(compress, Rfc.INITIAL, all[..w + 64])
    {
      Memcpy(block, inbuf, 0, i, 64);
      assert block[..] == inbuf[i..i + 64] == given[i..i + 64];
      Slice(all, given, w - i, i);
      Transform(block);
      Advance(compress, Rfc.INITIAL, all, w);
    }

    /** The loop of `md5Update` over whole blocks of its input. */
    method FeedBlocks(inbuf: array<Byte>, inputLen: nat, start: nat, ghost given: seq<Byte>, ghost all: seq<Byte>,
                      ghost w0: nat)
      returns (ok: bool, i: nat, ghost w: nat)
      requires Shape() && 0 < start <= 64 && start <= inputLen < TWO_31 && start <= inbuf.Length < TWO_31
      requires given <= inbuf[..] && |given| == if inputLen <= inbuf.Length then inputLen else inbuf.Length
      requires w0 % 64 == 0 && start <= w0 && |all| == w0 - start + |given| && all[w0 - start..] == given
      requires LowState() == Fold(compress, Rfc.INITIAL, all[..w0])
      modifies state
      ensures ok ==> Fits(64 - start, inputLen)
      ensures !ok ==> inputLen > inbuf.Length || !Fits(64 - start, inputLen)
      ensures ok ==> i <= inputLen < i + 64 && w - i == w0 - start && w % 64 == 0 && i <= inbuf.Length
      ensures ok ==> LowState() == Fold(compress, Rfc.INITIAL, all[..w])
    {
      i, w := start, w0;
      var block := new Byte[64];
      while Int32(i + 63) < inputLen
        invariant start <= i <= inputLen && i <= inbuf.Length && w - i == w0 - start && w % 64 == 0
        invariant (i + (64 - start)) % 64 == 0
        invariant LowState() == Fold(compress, Rfc.INITIAL, all[..w])
        decreases inputLen - i
      {
        LastBlock(64 - start, i, inputLen);
        if i + 64 > inbuf.Length {
          return false, i, w;
        }
        FeedOne(block, inbuf, i, given, all, w);
        Next64(w);
        Next64(i + (64 - start));
        i, w := i + 64, w + 64;
      }
      LastBlock(64 - start, i, inputLen);
      ok := true;
    }

    /** The counter statements of `md5Update`. */
    method AddCount(n: nat, ghost before: seq<nat>)
      requires Shape() && n < TWO_31
      requires count[0] == Count0(before) && count[1] == Count1(before)
      modifies count
      ensures count[0] == Count0(before + [n]) && count[1] == Count1(before + [n])
    {
      var low, high := Counted(count[0], count[1], n);
      Snoc(before, n);
      count[0] := low;
      count[1] := high;
    }

    /** `md5Final`: whatever the history of updates, only the high half of the length field can be wrong. */
    method Final()
      requires Valid()
      modifies this`msg, this`lens, state, count, buffer, digest
      ensures Valid()
      ensures digest[..] == Rfc.DigestWith(old(msg), LengthField(old(lens)))
      ensures LengthRight(old(lens)) ==> digest[..] == Rfc.Digest(old(msg))
    {
      ghost var m, field := msg, LengthField(lens);
      if LengthRight(lens) {
        LengthFieldRight(lens);
      }
      var bits := EncodeBits();
      AppendPadding();
      AppendBits(bits);
      PaddedDigest(m, field, msg);
      WriteDigest();
    }

    /** The counters are encoded before the padding is counted. */
    method EncodeBits() returns (bits: array<Byte>)
      requires Valid()
      ensures fresh(bits) && bits.Length == 8 && bits[..8] == LengthField(lens)
    {
      bits := new Byte[8];
      Encode(bits, count, 8, EncodedCount);
      CountBytes(count[..], lens);
      assert count[..][..2] == count[..2];
    }

    method AppendPadding()
      requires Valid()
      modifies this`msg, this`lens, state, count, buffer
      ensures Valid() && msg == old(msg) + Rfc.Padding(|old(msg)|)
    {
      var index := ReadIndex();
      var padLen := if index < 56 then 56 - index else 120 - index;
      PaddingBytes(padding[..], |msg|);
      assert padding[..][..padLen] == padding[..padLen];
      var ok := Update(padding, padLen);
    }

    method AppendBits(bits: array<Byte>)
      requires Valid() && bits.Length == 8 && bits != buffer
      modifies this`msg, this`lens, state, count, buffer
      ensures Valid() && msg == old(msg) + bits[..8]
    {
      var ok := Update(bits, 8);
    }

    /** The last statement of `md5Final`. */
    method WriteDigest()
      requires Valid() && |msg| % 64 == 0
      modifies digest
      ensures Valid() && digest[..] == Rfc.StateBytes(Rfc.Absorb(Rfc.INITIAL, msg))
    {
      WholeUnique(|msg|, |msg|);
      assert msg[..|msg|] == msg;
      FoldCompression(compress, Rfc.INITIAL, msg);
      Encode(digest, state, 16, EncodedWord);
      StateBytes(state[..], LowState());
      assert digest[..16] == digest[..];
    }

    /**
      `getMD5ofStr`, given the bytes of the string and its length in chars. Only the first `inputLen` bytes are hashed;
      with one byte per char that is the whole string. It fails exactly if there are fewer bytes than chars.
     */
    method GetMD5OfStr(inbuf: array<Byte>, inputLen: nat) returns (ok: bool)
      requires Shape() && Separate(inbuf) && inbuf.Length < TWO_31 && inputLen < TWO_31
      modifies this`msg, this`lens, this`digestHexStr, state, count, buffer, digest
      ensures ok <==> inputLen <= inbuf.Length
      ensures ok ==> Valid() && digestHexStr == Hex(Rfc.Digest(inbuf[..inputLen]))
    {
      Init();
      ok := HashOne(inbuf, inputLen);
      if ok {
        RenderDigest();
      }
    }

    method HashOne(inbuf: array<Byte>, inputLen: nat) returns (ok: bool)
      requires Valid() && msg == [] && lens == []
      requires Separate(inbuf) && inbuf.Length < TWO_31 && inputLen < TWO_31
      modifies this`msg, this`lens, state, count, buffer, digest
      ensures ok <==> inputLen <= inbuf.Length
      ensures ok ==> Valid() && digest[..] == Rfc.Digest(inbuf[..inputLen])
    {
      ok := Update(inbuf, inputLen);
      if ok {
        assert lens == [inputLen];
        OneUpdate(inputLen);
        assert LengthRight(lens);
        ghost var m := inbuf[..inputLen];
        assert msg == m;
        Final();
      }
    }

    method RenderDigest()
      requires Valid()
      modifies this`digestHexStr
      ensures Valid() && digestHexStr == Hex(digest[..])
    {
      digestHexStr := "";
      var i := 0;
      while i < 16
        invariant 0 <= i <= 16 && digestHexStr == Hex(digest[..i])
      {
        assert digest[..i + 1][..i] == digest[..i];
        digestHexStr := digestHexStr + ByteHex(digest[i]);
        i := i + 1;
      }
      assert digest[..16] == digest[..];
    }
  }
}
