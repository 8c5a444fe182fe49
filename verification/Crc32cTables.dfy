/**
 The tables of `hash_crc32c_common.c`: four lookups apply the operator "feed a run of zero
 bytes" to a whole register.
 */
module Crc32cTables {

  import opened Crc32c
  import opened Gf2Matrix

  /** A table index as a word. */
  function Word(n: nat): bv32
    requires n < 256
  {
    n as bv32
  }

  /** A word below 256 as a table index. */
  function Index(w: bv32): nat
    requires w <= 0xff
  {
    w as int
  }

  lemma IndexOfWord(w: bv32)
    requires w <= 0xff
    ensures Index(w) < 256 && Word(Index(w)) == w
  {
  }

  // ----- Shifting past a run of zeros with four tables -----

  /** A byte value at byte position `r` of a register. */
  function Placed(w: bv32, r: nat): bv32 {
    match r
    case 0 => w
    case 1 => w << 8
    case 2 => w << 16
    case _ => w << 24
  }

  /** The byte at position `r` of a register. */
  function ByteAt(c: bv32, r: nat): (w: bv32)
    ensures w <= 0xff && Index(w) < 256
  {
    match r
    case 0 => c & 0xff
    case 1 => (c >> 8) & 0xff
    case 2 => (c >> 16) & 0xff
    case _ => (c >> 24) & 0xff
  }

  ghost predicate IsFourTables(zeros: array2<bv32>) {
    zeros.Length0 == 4 && zeros.Length1 == 256
  }

  /** The four tables apply "feed `k` zero bits" to each byte of a register. */
  ghost predicate IsShiftTable(zeros: array2<bv32>, k: nat)
    requires IsFourTables(zeros)
    reads zeros
  {
    forall r, n :: 0 <= r < 4 && 0 <= n < 256 ==> zeros[r, n] == ZeroBits(Placed(Word(n), r), k)
  }

  /** The four entries for byte value `n`. */
  method FillColumn(zeros: array2<bv32>, op: array<bv32>, n: nat, ghost k: nat)
    requires IsFourTables(zeros) && n < 256
    requires op.Length == 32 && Feeds(op[..], k)
    modifies zeros
    ensures forall r :: 0 <= r < 4 ==> zeros[r, n] == ZeroBits(Placed(Word(n), r), k)
    ensures forall r, i :: 0 <= r < 4 && 0 <= i < 256 && i != n ==> zeros[r, i] == old(zeros[r, i])
  {
    hide Word, Placed, ZeroBits, Times;
    zeros[0, n] := MatrixTimes(op, Placed(Word(n), 0));
    zeros[1, n] := MatrixTimes(op, Placed(Word(n), 1));
    zeros[2, n] := MatrixTimes(op, Placed(Word(n), 2));
    zeros[3, n] := MatrixTimes(op, Placed(Word(n), 3));
  }

  method Zeros(zeros: array2<bv32>, len: nat)
    requires IsFourTables(zeros)
    modifies zeros
    ensures IsShiftTable(zeros, 8 * FloorPow2(len))
  {
    hide Word, Placed, ZeroBits, Feeds, FloorPow2;
    var op := new bv32[32];
    ZerosOp(op, len);
    ghost var k := 8 * FloorPow2(len);
    ghost var rows := op[..];
    for n := 0 to 256
      invariant op[..] == rows
      invariant forall r, i :: 0 <= r < 4 && 0 <= i < n ==> zeros[r, i] == ZeroBits(Placed(Word(i), r), k)
    {
      FillColumn(zeros, op, n, k);
    }
  }

  function Shift(zeros: array2<bv32>, crc: bv32): bv32
    requires IsFourTables(zeros)
    reads zeros
  {
    Xor(Xor(Xor(zeros[0, Index(ByteAt(crc, 0))], zeros[1, Index(ByteAt(crc, 1))]),
            zeros[2, Index(ByteAt(crc, 2))]), zeros[3, Index(ByteAt(crc, 3))])
  }

  lemma SplitTwoBytes(c: bv32)
    ensures c & 0xffff == Xor(Placed(ByteAt(c, 0), 0), Placed(ByteAt(c, 1), 1))
  {
  }

  lemma SplitThreeBytes(c: bv32)
    ensures c & 0xffffff == Xor(c & 0xffff, Placed(ByteAt(c, 2), 2))
  {
  }

  lemma SplitTopByte(c: bv32)
    ensures c == Xor(c & 0xffffff, Placed(ByteAt(c, 3), 3))
  {
  }

  lemma SplitFourBytes(c: bv32)
    ensures c == Xor(Xor(Xor(Placed(ByteAt(c, 0), 0), Placed(ByteAt(c, 1), 1)),
                         Placed(ByteAt(c, 2), 2)), Placed(ByteAt(c, 3), 3))
  {
    hide Xor, Placed, ByteAt;
    SplitTwoBytes(c);
    SplitThreeBytes(c);
    SplitTopByte(c);
  }

  lemma LookUp(zeros: array2<bv32>, k: nat, crc: bv32, r: nat)
    requires IsFourTables(zeros) && IsShiftTable(zeros, k) && r < 4
    ensures zeros[r, Index(ByteAt(crc, r))] == ZeroBits(Placed(ByteAt(crc, r), r), k)
  {
    hide ZeroBits, Placed, Index, Word;
    IndexOfWord(ByteAt(crc, r));
  }

  /** The four lookups apply the operator to the whole register. */
  lemma ShiftIsZeroBits(zeros: array2<bv32>, k: nat, crc: bv32)
    requires IsFourTables(zeros) && IsShiftTable(zeros, k)
    ensures Shift(zeros, crc) == ZeroBits(crc, k)
  {
    hide Xor, ZeroBits, Word, Index, Placed, ByteAt, IsShiftTable;
    var p0, p1, p2, p3 := Placed(ByteAt(crc, 0), 0), Placed(ByteAt(crc, 1), 1), Placed(ByteAt(crc, 2), 2), Placed(ByteAt(crc, 3), 3);
    LookUp(zeros, k, crc, 0);
    LookUp(zeros, k, crc, 1);
    LookUp(zeros, k, crc, 2);
    LookUp(zeros, k, crc, 3);
    SplitFourBytes(crc);
    ZeroBitsXor(Xor(Xor(p0, p1), p2), p3, k);
    ZeroBitsXor(Xor(p0, p1), p2, k);
    ZeroBitsXor(p0, p1, k);
  }
}
