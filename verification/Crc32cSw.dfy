/**
 `hash_crc32c_sw.c`: slicing by eight computes the bit-serial reference for every message,
 start address and seed.
 */
module Crc32cSw {

  import opened Crc32c
  import opened Crc32cTables

  // ----- A message as a sum of independent bytes -----

  /** Drops the low byte of a register. */
  function DropByte(c: bv32): bv32 { c >> 8 }

  /** The low byte of the register after a message byte is added. */
  function Mixed(c: bv32, b: bv8): (w: bv32)
    ensures w <= 0xff && Index(w) < 256
  {
    (c ^ (b as bv32)) & 0xff
  }

  /** Each byte's own contribution, moved past the bytes that follow it. */
  function Slices(c: bv32, data: seq<bv8>): bv32
    decreases |data|
  {
    if data == [] then c
    else Xor(ZeroBits(Mixed(c, data[0]), 8 * |data|), Slices(DropByte(c), data[1..]))
  }

  lemma FeedByteSlice(c: bv32, b: bv8)
    ensures FeedByte(c, b) == Xor(ZeroBits(Mixed(c, b), 8), DropByte(c))
  {
    hide ZeroBits, FeedByte;
    FeedByteIsZeroBits(c, b);
    ZeroByteSplit(Xor(c, b as bv32));
    MixedIs(c, b);
  }

  lemma MixedIs(c: bv32, b: bv8)
    ensures Mixed(c, b) == Xor(c, b as bv32) & 0xff
    ensures DropByte(c) == Xor(c, b as bv32) >> 8
  {
    assert (b as bv32) >> 8 == 0;
    assert (c ^ (b as bv32)) >> 8 == c >> 8;
  }

  lemma {:induction false} FeedIsSlices(c: bv32, data: seq<bv8>)
    ensures Feed(c, data) == Slices(c, data)
    decreases |data|
  {
    hide Xor, FeedByte, ZeroBit, Mixed, DropByte;
    if data != [] {
      var m := Mixed(c, data[0]);
      FeedByteSlice(c, data[0]);
      FeedXor(ZeroBits(m, 8), DropByte(c), data[1..]);
      ZeroBitsAdd(m, 8, 8 * |data[1..]|);
      FeedIsSlices(DropByte(c), data[1..]);
    }
  }

  // ----- The eight tables -----

  ghost predicate IsEightTables(t: array2<bv32>) {
    t.Length0 == 8 && t.Length1 == 256
  }

  /** Table `k` feeds `k + 1` zero bytes after a byte. */
  ghost predicate IsSliceTable(t: array2<bv32>)
    requires IsEightTables(t)
    reads t
  {
    forall k, n :: 0 <= k < 8 && 0 <= n < 256 ==> t[k, n] == ZeroBits(Word(n), 8 * (k + 1))
  }

  /** One table step on a whole register. */
  lemma TableStep(c: bv32)
    ensures ZeroBits(c, 8) == Xor(ZeroBits(c & 0xff, 8), DropByte(c))
  {
    hide Xor, ZeroBits;
    ZeroByteSplit(c);
  }

  lemma EightZeroBits(c: bv32)
    ensures ZeroBits(c, 8) == ZeroBit(ZeroBit(ZeroBit(ZeroBit(ZeroBit(ZeroBit(ZeroBit(ZeroBit(c))))))))
  {
    hide ZeroBit;
    ZeroBitsAdd(c, 4, 4);
    assert ZeroBits(c, 4) == ZeroBit(ZeroBit(ZeroBit(ZeroBit(c))));
  }

  lemma LookUpByte(t: array2<bv32>, k: nat, w: bv32)
    requires IsEightTables(t) && IsSliceTable(t) && k < 8 && w <= 0xff
    ensures Index(w) < 256 && t[k, Index(w)] == ZeroBits(w, 8 * (k + 1))
  {
    hide ZeroBits, Word, Index;
    IndexOfWord(w);
  }

  lemma LowByteIndex(c: bv32)
    ensures c & 0xff <= 0xff && Index(c & 0xff) < 256
  {
  }

  method BuildTables(t: array2<bv32>)
    requires IsEightTables(t)
    modifies t
    ensures IsSliceTable(t)
  {
    hide ZeroBits, ZeroBit, Word, Index, Xor, DropByte;
    for n := 0 to 256
      invariant forall i :: 0 <= i < n ==> t[0, i] == ZeroBits(Word(i), 8)
    {
      var crc := Word(n);
      EightZeroBits(crc);
      crc := ZeroBit(crc);
      crc := ZeroBit(crc);
      crc := ZeroBit(crc);
      crc := ZeroBit(crc);
      crc := ZeroBit(crc);
      crc := ZeroBit(crc);
      crc := ZeroBit(crc);
      crc := ZeroBit(crc);
      t[0, n] := crc;
    }
    for n := 0 to 256
      invariant forall i :: 0 <= i < 256 ==> t[0, i] == ZeroBits(Word(i), 8)
      invariant forall k, i :: 1 <= k < 8 && 0 <= i < n ==> t[k, i] == ZeroBits(Word(i), 8 * (k + 1))
    {
      var crc := t[0, n];
      for k := 1 to 8
        invariant forall i :: 0 <= i < 256 ==> t[0, i] == ZeroBits(Word(i), 8)
        invariant forall j, i :: 1 <= j < 8 && 0 <= i < n ==> t[j, i] == ZeroBits(Word(i), 8 * (j + 1))
        invariant forall j :: 1 <= j < k ==> t[j, n] == ZeroBits(Word(n), 8 * (j + 1))
        invariant crc == ZeroBits(Word(n), 8 * k)
      {
        TableStep(crc);
        ZeroBitsAdd(Word(n), 8 * k, 8);
        LowByteIndex(crc);
        IndexOfWord(crc & 0xff);
        crc := Xor(t[0, Index(crc & 0xff)], DropByte(crc));
        t[k, n] := crc;
      }
    }
  }

  // ----- Eight bytes at once -----

  /** Eight bytes as a little-endian word. */
  function Load64(d: seq<bv8>): bv64
    requires |d| == 8
  {
    (d[0] as bv64) | ((d[1] as bv64) << 8) | ((d[2] as bv64) << 16) | ((d[3] as bv64) << 24) |
    ((d[4] as bv64) << 32) | ((d[5] as bv64) << 40) | ((d[6] as bv64) << 48) | ((d[7] as bv64) << 56)
  }

  /** Byte `i` of a 64-bit word, as a 32-bit word. */
  function Byte64(w: bv64, i: nat): (b: bv32)
    ensures b <= 0xff && Index(b) < 256
  {
    match i
    case 0 => (w & 0xff) as bv32
    case 1 => ((w >> 8) & 0xff) as bv32
    case 2 => ((w >> 16) & 0xff) as bv32
    case 3 => ((w >> 24) & 0xff) as bv32
    case 4 => ((w >> 32) & 0xff) as bv32
    case 5 => ((w >> 40) & 0xff) as bv32
    case 6 => ((w >> 48) & 0xff) as bv32
    case _ => ((w >> 56) & 0xff) as bv32
  }

  /** The register with its low `i` bytes dropped. */
  function Drop(c: bv32, i: nat): bv32
    decreases i
  {
    if i == 0 then c else DropByte(Drop(c, i - 1))
  }

  lemma DropIs(c: bv32)
    ensures Drop(c, 1) == c >> 8 && Drop(c, 2) == c >> 16 && Drop(c, 3) == c >> 24
    ensures Drop(c, 4) == 0 && Drop(c, 5) == 0 && Drop(c, 6) == 0 && Drop(c, 7) == 0 && Drop(c, 8) == 0
  {
    assert c >> 8 >> 8 == c >> 16;
    assert c >> 16 >> 8 == c >> 24;
    assert c >> 24 >> 8 == 0;
  }

  lemma LowBytesMixed(c: bv32, d: seq<bv8>)
    requires |d| == 8
    ensures Byte64((c as bv64) ^ Load64(d), 0) == Mixed(c, d[0])
    ensures Byte64((c as bv64) ^ Load64(d), 1) == Mixed(c >> 8, d[1])
    ensures Byte64((c as bv64) ^ Load64(d), 2) == Mixed(c >> 16, d[2])
    ensures Byte64((c as bv64) ^ Load64(d), 3) == Mixed(c >> 24, d[3])
  {
  }

  lemma HighBytesMixed(c: bv32, d: seq<bv8>)
    requires |d| == 8
    ensures Byte64((c as bv64) ^ Load64(d), 4) == Mixed(0, d[4])
    ensures Byte64((c as bv64) ^ Load64(d), 5) == Mixed(0, d[5])
    ensures Byte64((c as bv64) ^ Load64(d), 6) == Mixed(0, d[6])
    ensures Byte64((c as bv64) ^ Load64(d), 7) == Mixed(0, d[7])
  {
  }

  lemma ByteMixed(c: bv32, d: seq<bv8>, i: nat)
    requires |d| == 8 && i < 8
    ensures Byte64((c as bv64) ^ Load64(d), i) == Mixed(Drop(c, i), d[i])
  {
    hide Byte64, Load64, Mixed, DropByte;
    LowBytesMixed(c, d);
    HighBytesMixed(c, d);
    DropIs(c);
  }

  /** The lookup for byte `i` of eight. */
  function Slice(t: array2<bv32>, w: bv64, i: nat): bv32
    requires IsEightTables(t) && i < 8
    reads t
  {
    t[7 - i, Index(Byte64(w, i))]
  }

  function EightSlices(t: array2<bv32>, w: bv64): bv32
    requires IsEightTables(t)
    reads t
  {
    Xor(Xor(Xor(Xor(Xor(Xor(Xor(Slice(t, w, 0), Slice(t, w, 1)), Slice(t, w, 2)), Slice(t, w, 3)),
                    Slice(t, w, 4)), Slice(t, w, 5)), Slice(t, w, 6)), Slice(t, w, 7))
  }

  /** A running sum of lookups takes in byte `i`. */
  lemma TakeSlice(t: array2<bv32>, c: bv32, d: seq<bv8>, i: nat, acc: bv32)
    requires IsEightTables(t) && IsSliceTable(t) && |d| == 8 && i < 8
    ensures Xor(acc, Slices(Drop(c, i), d[i..])) ==
            Xor(Xor(acc, Slice(t, (c as bv64) ^ Load64(d), i)), Slices(Drop(c, i + 1), d[i + 1..]))
  {
    hide Xor, ZeroBits, Mixed, DropByte, Byte64, Load64, Index, IsSliceTable;
    ByteMixed(c, d, i);
    LookUpByte(t, 7 - i, Mixed(Drop(c, i), d[i]));
    assert d[i..][1..] == d[i + 1..];
    assert Drop(c, i + 1) == DropByte(Drop(c, i));
    XorAssoc(acc, Slice(t, (c as bv64) ^ Load64(d), i), Slices(Drop(c, i + 1), d[i + 1..]));
  }

  lemma EightSlicesFeed(t: array2<bv32>, c: bv32, d: seq<bv8>)
    requires IsEightTables(t) && IsSliceTable(t) && |d| == 8
    ensures EightSlices(t, (c as bv64) ^ Load64(d)) == Feed(c, d)
  {
    hide Xor, Slice, Load64, DropByte, IsSliceTable, Feed, Slices;
    var w := (c as bv64) ^ Load64(d);
    FeedIsSlices(c, d);
    assert Slices(Drop(c, 0), d[0..]) == Slices(c, d) by { assert d[0..] == d; }
    XorZero(Slices(c, d));
    XorZero(Slice(t, w, 0));
    var a0 := Slice(t, w, 0);
    var a1 := Xor(a0, Slice(t, w, 1));
    var a2 := Xor(a1, Slice(t, w, 2));
    var a3 := Xor(a2, Slice(t, w, 3));
    var a4 := Xor(a3, Slice(t, w, 4));
    var a5 := Xor(a4, Slice(t, w, 5));
    var a6 := Xor(a5, Slice(t, w, 6));
    TakeSlice(t, c, d, 0, 0);
    TakeSlice(t, c, d, 1, a0);
    TakeSlice(t, c, d, 2, a1);
    TakeSlice(t, c, d, 3, a2);
    TakeSlice(t, c, d, 4, a3);
    TakeSlice(t, c, d, 5, a4);
    TakeSlice(t, c, d, 6, a5);
    TakeSlice(t, c, d, 7, a6);
    SlicesOfNothing(c, d);
    XorZero(Xor(a6, Slice(t, w, 7)));
  }

  lemma SlicesOfNothing(c: bv32, d: seq<bv8>)
    requires |d| == 8
    ensures Slices(Drop(c, 8), d[8..]) == 0
  {
    hide DropByte;
    DropIs(c);
  }

  class Sw {
    const table: array2<bv32>

    ghost predicate Valid()
      reads table
    {
      IsEightTables(table) && IsSliceTable(table)
    }

    constructor ()
      ensures Valid() && fresh(table)
    {
      var t := new bv32[8, 256];
      BuildTables(t);
      table := t;
    }

    /** The byte-at-a-time step. */
    method Step(c: bv32, b: bv8) returns (crc: bv32)
      requires Valid()
      ensures crc == FeedByte(c, b)
    {
      hide Xor, ZeroBits, Mixed, DropByte, Index, FeedByte;
      FeedByteSlice(c, b);
      LookUpByte(table, 0, Mixed(c, b));
      crc := Xor(table[0, Index(Mixed(c, b))], DropByte(c));
    }

    /** `addr` is the address of the first byte; it only decides where the eight-byte units begin. */
    method Hash(data: seq<bv8>, addr: nat, seed: bv32) returns (crc: bv32)
      requires Valid()
      ensures crc == Crc32c.Hash(data, seed)
    {
      hide Xor, Feed, FeedByte, IsSliceTable, EightSlices, Load64;
      ghost var start := Xor(seed, 0xffffffff);
      var c := Xor(seed, 0xffffffff);
      var next: nat, len: nat := 0, |data|;
      FeedNothing(c, data, 0);
      while len != 0 && (addr + next) % 8 != 0
        invariant next + len == |data| && c == Feed(start, data[0..next])
      {
        c := Step(c, data[next]);
        FeedOneMore(start, data, 0, next);
        next, len := next + 1, len - 1;
      }
      while len >= 8
        invariant next + len == |data| && c == Feed(start, data[0..next])
      {
        var d := data[next..next + 8];
        EightSlicesFeed(table, c, d);
        FeedMore(start, data, 0, next, next + 8);
        c := EightSlices(table, (c as bv64) ^ Load64(d));
        next, len := next + 8, len - 8;
      }
      while len != 0
        invariant next + len == |data| && c == Feed(start, data[0..next])
      {
        c := Step(c, data[next]);
        FeedOneMore(start, data, 0, next);
        next, len := next + 1, len - 1;
      }
      assert data[0..next] == data;
      crc := Xor(c, 0xffffffff);
    }
  }
}
