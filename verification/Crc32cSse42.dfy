/**
 `hash_crc32c_sse42.c`: three independent lanes joined by zero operators compute the
 bit-serial reference for every message, start address and seed.  The crc32b and crc32q
 instructions are taken to mean one and eight byte steps of the register.
 */
module Crc32cSse42 {

  import opened Crc32c
  import opened Gf2Matrix
  import opened Crc32cTables

  const LONG: nat := 8192
  const SHORT: nat := 256

  /** The crc32b instruction: one byte into the register. */
  function Crc32b(c: bv32, data: seq<bv8>, at: nat): bv32
    requires at < |data|
  {
    FeedByte(c, data[at])
  }

  /** The crc32q instruction: eight bytes into the register. */
  function Crc32q(c: bv32, data: seq<bv8>, at: nat): bv32
    requires at + 8 <= |data|
  {
    Feed(c, data[at..at + 8])
  }

  /** Joining two lanes: shift the first past the second's length and add the second. */
  lemma JoinLanes(zeros: array2<bv32>, block: nat, c: bv32, data: seq<bv8>)
    requires |data| == block && IsFourTables(zeros) && IsShiftTable(zeros, 8 * block)
    ensures Xor(Shift(zeros, c), Feed(0, data)) == Feed(c, data)
  {
    hide Xor, Feed, Shift, ZeroBits, IsShiftTable;
    ShiftIsZeroBits(zeros, 8 * block, c);
    FeedXor(c, 0, data);
    XorZero(c);
  }

  method ThreeLanes(data: seq<bv8>, start: nat, block: nat, zeros: array2<bv32>, crc: bv32) returns (crc0: bv32)
    requires block > 0 && block % 8 == 0 && start + 3 * block <= |data|
    requires IsFourTables(zeros) && IsShiftTable(zeros, 8 * block)
    ensures crc0 == Feed(crc, data[start..start + 3 * block])
  {
    hide Xor, Feed, Shift, IsShiftTable;
    crc0 := crc;
    var crc1: bv32, crc2: bv32 := 0, 0;
    var next, end := start, start + block;
    FeedNothing(crc, data, start);
    FeedNothing(0, data, start + block);
    FeedNothing(0, data, start + 2 * block);
    while next < end
      invariant start <= next <= end && (next - start) % 8 == 0
      invariant crc0 == Feed(crc, data[start..next])
      invariant crc1 == Feed(0, data[start + block..next + block])
      invariant crc2 == Feed(0, data[start + 2 * block..next + 2 * block])
    {
      FeedMore(crc, data, start, next, next + 8);
      FeedMore(0, data, start + block, next + block, next + block + 8);
      FeedMore(0, data, start + 2 * block, next + 2 * block, next + 2 * block + 8);
      crc0 := Crc32q(crc0, data, next);
      crc1 := Crc32q(crc1, data, next + block);
      crc2 := Crc32q(crc2, data, next + 2 * block);
      next := next + 8;
    }
    JoinLanes(zeros, block, crc0, data[start + block..start + 2 * block]);
    crc0 := Xor(Shift(zeros, crc0), crc1);
    FeedMore(crc, data, start, start + block, start + 2 * block);
    JoinLanes(zeros, block, crc0, data[start + 2 * block..start + 3 * block]);
    crc0 := Xor(Shift(zeros, crc0), crc2);
    FeedMore(crc, data, start, start + 2 * block, start + 3 * block);
  }

  class Sse42 {
    const tablesLong: array2<bv32>
    const tablesShort: array2<bv32>

    ghost predicate Valid()
      reads tablesLong, tablesShort
    {
      && IsFourTables(tablesLong) && IsShiftTable(tablesLong, 8 * LONG)
      && IsFourTables(tablesShort) && IsShiftTable(tablesShort, 8 * SHORT)
    }

    constructor ()
      ensures Valid() && fresh(tablesLong) && fresh(tablesShort)
    {
      hide IsShiftTable, FloorPow2;
      var long := new bv32[4, 256];
      var short := new bv32[4, 256];
      Zeros(long, LONG);
      Zeros(short, SHORT);
      BlocksArePowers();
      tablesLong := long;
      tablesShort := short;
    }

    /** `addr` is the address of the first byte; it only decides where the eight-byte units begin. */
    method Hash(data: seq<bv8>, addr: nat, seed: bv32) returns (crc: bv32)
      requires Valid()
      ensures crc == Crc32c.Hash(data, seed)
    {
      hide Xor, Feed, FeedByte, IsShiftTable;
      ghost var start := Xor(seed, 0xffffffff);
      var crc0 := Xor(seed, 0xffffffff);
      var next: nat, len: nat := 0, |data|;
      FeedNothing(crc0, data, 0);

      while len != 0 && (addr + next) % 8 != 0
        invariant next + len == |data| && crc0 == Feed(start, data[0..next])
      {
        crc0 := Crc32b(crc0, data, next);
        FeedOneMore(start, data, 0, next);
        next, len := next + 1, len - 1;
      }

      while len >= LONG * 3
        invariant next + len == |data| && crc0 == Feed(start, data[0..next])
      {
        FeedMore(start, data, 0, next, next + 3 * LONG);
        crc0 := ThreeLanes(data, next, LONG, tablesLong, crc0);
        next, len := next + 3 * LONG, len - 3 * LONG;
      }

      while len >= SHORT * 3
        invariant next + len == |data| && crc0 == Feed(start, data[0..next])
      {
        FeedMore(start, data, 0, next, next + 3 * SHORT);
        crc0 := ThreeLanes(data, next, SHORT, tablesShort, crc0);
        next, len := next + 3 * SHORT, len - 3 * SHORT;
      }

      var end := next + (len - len % 8);
      ghost var units: nat := len / 8;
      len := len % 8;
      while next < end
        invariant end + len == |data| && next + 8 * units == end
        invariant crc0 == Feed(start, data[0..next])
      {
        FeedMore(start, data, 0, next, next + 8);
        crc0 := Crc32q(crc0, data, next);
        next := next + 8;
        units := units - 1;
      }

      while len != 0
        invariant next + len == |data| && crc0 == Feed(start, data[0..next])
      {
        crc0 := Crc32b(crc0, data, next);
        FeedOneMore(start, data, 0, next);
        next, len := next + 1, len - 1;
      }

      assert data[0..next] == data;
      crc := Xor(crc0, 0xffffffff);
    }
  }

  lemma BlocksArePowers()
    ensures FloorPow2(LONG) == LONG && FloorPow2(SHORT) == SHORT
  {
    assert IsPow2(SHORT);
    FloorPow2Exact(SHORT);
    assert IsPow2(LONG) == IsPow2(SHORT);
    FloorPow2Exact(LONG);
  }
}
