/**
 CRC-32C (Castagnoli, section 12.1 of RFC 3720) as a bit-serial shift register, and the
 GF(2) facts the table-driven and three-lane forms rest on.

 A register is a `bv32`.  Bits enter at the least significant end, as in the reflected
 form that the source uses.  The word operations have names, so that the algebraic lemmas
 can hide their bits.
 */
module Crc32c {

  const POLY: bv32 := 0x82f63b78

  function Xor(a: bv32, b: bv32): bv32 { a ^ b }

  function Half(a: bv32): bv32 { a >> 1 }

  function Double(a: bv32): bv32 { a << 1 }

  predicate IsOdd(a: bv32) { a & 1 == 1 }

  /** The low bit as a word. */
  function LowBit(a: bv32): bv32 { a & 1 }

  /** The register after one zero bit. */
  function ZeroBit(c: bv32): bv32 {
    if IsOdd(c) then Xor(Half(c), POLY) else Half(c)
  }

  /** The register after `n` zero bits. */
  function ZeroBits(c: bv32, n: nat): bv32
    decreases n
  {
    if n == 0 then c else ZeroBits(ZeroBit(c), n - 1)
  }

  /** The register after the low `n` bits of `w`, least significant bit first. */
  function FeedBits(c: bv32, w: bv32, n: nat): bv32
    decreases n
  {
    if n == 0 then c else FeedBits(ZeroBit(Xor(c, LowBit(w))), Half(w), n - 1)
  }

  function FeedByte(c: bv32, b: bv8): bv32 {
    FeedBits(c, b as bv32, 8)
  }

  /** The register after a message. */
  function Feed(c: bv32, data: seq<bv8>): bv32
    decreases |data|
  {
    if data == [] then c else Feed(FeedByte(c, data[0]), data[1..])
  }

  /** The reference hash: the register starts as the complement of the seed and is complemented at the end. */
  function Hash(data: seq<bv8>, seed: bv32): bv32 {
    Xor(Feed(Xor(seed, 0xffffffff), data), 0xffffffff)
  }

  // ----- Words as vectors over GF(2) -----

  lemma XorAssoc(a: bv32, b: bv32, c: bv32)
    ensures Xor(Xor(a, b), c) == Xor(a, Xor(b, c))
  {
    calc {
      Xor(Xor(a, b), c);
      Xor(a ^ b, c);
      (a ^ b) ^ c;
      a ^ (b ^ c);
      a ^ Xor(b, c);
      Xor(a, Xor(b, c));
    }
  }

  lemma XorComm(a: bv32, b: bv32)
    ensures Xor(a, b) == Xor(b, a)
  {
  }

  lemma XorSwap(a: bv32, b: bv32, c: bv32, d: bv32)
    ensures Xor(Xor(a, b), Xor(c, d)) == Xor(Xor(a, c), Xor(b, d))
  {
    hide Xor;
    XorAssoc(a, b, Xor(c, d));
    XorAssoc(b, c, d);
    XorComm(b, c);
    XorAssoc(c, b, d);
    XorAssoc(a, c, Xor(b, d));
  }

  lemma XorZero(a: bv32)
    ensures Xor(a, 0) == a && Xor(0, a) == a
  {
  }

  lemma XorSelf(a: bv32)
    ensures Xor(a, a) == 0
  {
  }

  lemma XorCancel(a: bv32, b: bv32)
    ensures Xor(Xor(a, b), b) == a
  {
    hide Xor;
    XorAssoc(a, b, b);
    XorSelf(b);
    XorZero(a);
  }

  lemma HalfXor(a: bv32, b: bv32)
    ensures Half(Xor(a, b)) == Xor(Half(a), Half(b))
  {
    calc {
      Half(Xor(a, b));
      Half(a ^ b);
      (a ^ b) >> 1;
      (a >> 1) ^ (b >> 1);
      Xor(a >> 1, b >> 1);
      Xor(Half(a), Half(b));
    }
  }

  lemma DoubleXor(a: bv32, b: bv32)
    ensures Double(Xor(a, b)) == Xor(Double(a), Double(b))
  {
    calc {
      Double(Xor(a, b));
      Double(a ^ b);
      (a ^ b) << 1;
      (a << 1) ^ (b << 1);
      Xor(a << 1, b << 1);
      Xor(Double(a), Double(b));
    }
  }

  lemma IsOddXor(a: bv32, b: bv32)
    ensures IsOdd(Xor(a, b)) <==> IsOdd(a) != IsOdd(b)
  {
    assert (a ^ b) & 1 == (a & 1) ^ (b & 1);
    assert a & 1 == 0 || a & 1 == 1;
    assert b & 1 == 0 || b & 1 == 1;
  }

  lemma LowBitIsOdd(a: bv32)
    ensures LowBit(a) == if IsOdd(a) then 1 else 0
  {
    assert a & 1 == 0 || a & 1 == 1;
  }

  lemma SplitLowBit(w: bv32)
    ensures w == Xor(LowBit(w), Double(Half(w)))
  {
    calc {
      Xor(LowBit(w), Double(Half(w)));
      LowBit(w) ^ Double(Half(w));
      (w & 1) ^ ((w >> 1) << 1);
      w;
    }
  }

  lemma HalfOfDouble(y: bv32)
    requires y < 0x80000000
    ensures !IsOdd(Double(y)) && Half(Double(y)) == y
  {
  }

  lemma HalfIsSmall(w: bv32)
    ensures Half(w) < 0x80000000
  {
  }

  // ----- The register is linear over GF(2) -----

  lemma ZeroBitXor(a: bv32, b: bv32)
    ensures ZeroBit(Xor(a, b)) == Xor(ZeroBit(a), ZeroBit(b))
  {
    hide Xor, Half, IsOdd;
    var x, y := Half(a), Half(b);
    HalfXor(a, b);
    IsOddXor(a, b);
    XorSwap(x, POLY, y, POLY);
    XorSelf(POLY);
    XorZero(Xor(x, y));
    XorAssoc(x, y, POLY);
    XorAssoc(x, POLY, y);
    XorComm(POLY, y);
  }

  /** Feeding zeros is a linear operator. */
  lemma {:induction false} ZeroBitsXor(a: bv32, b: bv32, n: nat)
    ensures ZeroBits(Xor(a, b), n) == Xor(ZeroBits(a, n), ZeroBits(b, n))
    decreases n
  {
    hide Xor, ZeroBit;
    if n > 0 {
      ZeroBitXor(a, b);
      ZeroBitsXor(ZeroBit(a), ZeroBit(b), n - 1);
    }
  }

  /** Feeding zeros composes additively. */
  lemma {:induction false} ZeroBitsAdd(c: bv32, m: nat, n: nat)
    ensures ZeroBits(ZeroBits(c, m), n) == ZeroBits(c, m + n)
    decreases m
  {
    hide ZeroBit;
    if m > 0 {
      ZeroBitsAdd(ZeroBit(c), m - 1, n);
    }
  }

  // ----- A byte at a time -----

  /** `n` single right shifts. */
  function ShiftRight(w: bv32, n: nat): bv32
    decreases n
  {
    if n == 0 then w else ShiftRight(Half(w), n - 1)
  }

  lemma {:induction false} ShiftRightAdd(w: bv32, m: nat, n: nat)
    ensures ShiftRight(ShiftRight(w, m), n) == ShiftRight(w, m + n)
    decreases m
  {
    hide Half;
    if m > 0 {
      ShiftRightAdd(Half(w), m - 1, n);
    }
  }

  lemma ShiftRightFour(w: bv32)
    ensures ShiftRight(w, 4) == w >> 4
  {
    assert w >> 1 >> 1 >> 1 >> 1 == w >> 4;
  }

  lemma ShiftRightByte(w: bv32)
    ensures ShiftRight(w, 8) == w >> 8
  {
    hide ShiftRight;
    ShiftRightFour(w);
    ShiftRightFour(w >> 4);
    ShiftRightAdd(w, 4, 4);
    assert w >> 4 >> 4 == w >> 8;
  }

  lemma ZeroBitOfDouble(y: bv32)
    requires y < 0x80000000
    ensures ZeroBit(Double(y)) == y
  {
    hide Double, Half, IsOdd;
    HalfOfDouble(y);
  }

  /** Of a whole word added to the register, one shift uses up the low bit and moves the rest down. */
  lemma ZeroBitOfWord(c: bv32, w: bv32)
    ensures ZeroBit(Xor(c, w)) == Xor(ZeroBit(Xor(c, LowBit(w))), Half(w))
  {
    hide Xor, ZeroBit, LowBit, Half, Double;
    SplitLowBit(w);
    XorAssoc(c, LowBit(w), Double(Half(w)));
    ZeroBitXor(Xor(c, LowBit(w)), Double(Half(w)));
    HalfIsSmall(w);
    ZeroBitOfDouble(Half(w));
  }

  lemma {:induction false} FeedBitsIsZeroBits(c: bv32, w: bv32, n: nat)
    ensures ZeroBits(Xor(c, w), n) == Xor(FeedBits(c, w, n), ShiftRight(w, n))
    decreases n
  {
    hide Xor, ZeroBit, LowBit, Half;
    if n > 0 {
      ZeroBitOfWord(c, w);
      FeedBitsIsZeroBits(ZeroBit(Xor(c, LowBit(w))), Half(w), n - 1);
    }
  }

  /** A byte can be added to the register all at once, ahead of its eight shifts. */
  lemma FeedByteIsZeroBits(c: bv32, b: bv8)
    ensures FeedByte(c, b) == ZeroBits(Xor(c, b as bv32), 8)
  {
    hide Xor, ZeroBits, ShiftRight, FeedBits;
    FeedBitsIsZeroBits(c, b as bv32, 8);
    ShiftRightByte(b as bv32);
    assert (b as bv32) >> 8 == 0;
    XorZero(FeedByte(c, b));
  }

  lemma TwoZeroBitsOfHigh(y: bv32)
    requires y <= 0x3fffffff
    ensures ZeroBits(y << 2, 2) == y
  {
    hide ZeroBit;
    ZeroBitOfDouble(y << 1);
    assert (y << 1) << 1 == y << 2;
    ZeroBitOfDouble(y);
  }

  lemma FourZeroBitsOfHigh(y: bv32)
    requires y <= 0xfffffff
    ensures ZeroBits(y << 4, 4) == y
  {
    hide ZeroBits;
    TwoZeroBitsOfHigh(y << 2);
    assert (y << 2) << 2 == y << 4;
    TwoZeroBitsOfHigh(y);
    ZeroBitsAdd(y << 4, 2, 2);
  }

  /** Eight shifts of a register whose low byte is zero only move the other bytes down. */
  lemma ZeroByteOfHigh(y: bv32)
    requires y <= 0xffffff
    ensures ZeroBits(y << 8, 8) == y
  {
    hide ZeroBits;
    FourZeroBitsOfHigh(y << 4);
    assert (y << 4) << 4 == y << 8;
    FourZeroBitsOfHigh(y);
    ZeroBitsAdd(y << 8, 4, 4);
  }

  lemma SplitLowByte(c: bv32)
    ensures c >> 8 <= 0xffffff
    ensures c == Xor(c & 0xff, (c >> 8) << 8)
  {
  }

  /** The table step: one byte of shifts is a function of the low byte, plus the other three bytes moved down. */
  lemma ZeroByteSplit(c: bv32)
    ensures ZeroBits(c, 8) == Xor(ZeroBits(c & 0xff, 8), c >> 8)
  {
    hide Xor, ZeroBits;
    SplitLowByte(c);
    ZeroBitsXor(c & 0xff, (c >> 8) << 8, 8);
    ZeroByteOfHigh(c >> 8);
  }

  // ----- Whole messages -----

  lemma {:induction false} FeedConcat(c: bv32, a: seq<bv8>, b: seq<bv8>)
    ensures Feed(c, a + b) == Feed(Feed(c, a), b)
    decreases |a|
  {
    hide FeedByte;
    if a == [] {
      assert a + b == b;
    } else {
      assert (a + b)[1..] == a[1..] + b;
      FeedConcat(FeedByte(c, a[0]), a[1..], b);
    }
  }

  /**
   The register after a message is the message's own register, started from `y`, plus the
   rest of the initial register moved past as many zero bits as the message is long.
   */
  lemma {:induction false} FeedXor(x: bv32, y: bv32, data: seq<bv8>)
    ensures Feed(Xor(x, y), data) == Xor(ZeroBits(x, 8 * |data|), Feed(y, data))
    decreases |data|
  {
    hide Xor, FeedByte, ZeroBit;
    if data != [] {
      var b := data[0] as bv32;
      FeedByteIsZeroBits(Xor(x, y), data[0]);
      FeedByteIsZeroBits(y, data[0]);
      XorAssoc(x, y, b);
      ZeroBitsXor(x, Xor(y, b), 8);
      ZeroBitsAdd(x, 8, 8 * |data[1..]|);
      FeedXor(ZeroBits(x, 8), FeedByte(y, data[0]), data[1..]);
    }
  }

  // ----- Consecutive slices of one message -----

  lemma FeedMore(c: bv32, data: seq<bv8>, lo: nat, mid: nat, hi: nat)
    requires lo <= mid <= hi <= |data|
    ensures Feed(Feed(c, data[lo..mid]), data[mid..hi]) == Feed(c, data[lo..hi])
  {
    hide Feed;
    assert data[lo..hi] == data[lo..mid] + data[mid..hi];
    FeedConcat(c, data[lo..mid], data[mid..hi]);
  }

  lemma FeedOne(c: bv32, data: seq<bv8>, at: nat)
    requires at < |data|
    ensures Feed(c, data[at..at + 1]) == FeedByte(c, data[at])
  {
    hide FeedByte;
    var d := data[at..at + 1];
    assert Feed(c, d) == Feed(FeedByte(c, d[0]), d[1..]);
    assert d[1..] == [];
  }

  lemma FeedOneMore(c: bv32, data: seq<bv8>, lo: nat, at: nat)
    requires lo <= at < |data|
    ensures FeedByte(Feed(c, data[lo..at]), data[at]) == Feed(c, data[lo..at + 1])
  {
    hide Feed, FeedByte;
    FeedMore(c, data, lo, at, at + 1);
    FeedOne(Feed(c, data[lo..at]), data, at);
  }

  lemma FeedNothing(c: bv32, data: seq<bv8>, at: nat)
    requires at <= |data|
    ensures Feed(c, data[at..at]) == c
  {
  }

  /** Hashing in two parts, with the first result as the second seed, hashes the concatenation. */
  lemma HashConcat(a: seq<bv8>, b: seq<bv8>, seed: bv32)
    ensures Hash(a + b, seed) == Hash(b, Hash(a, seed))
  {
    hide Xor, Feed;
    FeedConcat(Xor(seed, 0xffffffff), a, b);
    XorCancel(Feed(Xor(seed, 0xffffffff), a), 0xffffffff);
  }

  /** The repository's own test vector: "test key 1" with seed 42. */
  lemma TestVector()
    ensures Hash([116, 101, 115, 116, 32, 107, 101, 121, 32, 49], 42) == 184302627
  {
    assert FeedByte(0xffffffd5, 116) == 0x50dfc95a;
    assert FeedByte(0x50dfc95a, 101) == 0x6ea0aa5c;
    assert FeedByte(0x6ea0aa5c, 115) == 0x7ec01250;
    assert FeedByte(0x7ec01250, 116) == 0xe759d9d3;
    assert FeedByte(0xe759d9d3, 32) == 0xe0d9c558;
    assert FeedByte(0xe0d9c558, 107) == 0x23536380;
    assert FeedByte(0x23536380, 101) == 0xd6e2ef65;
    assert FeedByte(0xd6e2ef65, 121) == 0x5dcbea50;
    assert FeedByte(0x5dcbea50, 32) == 0x71c59fe7;
    assert FeedByte(0x71c59fe7, 49) == 0xf503c3dc;
  }
}
