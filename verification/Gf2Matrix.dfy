/**
 The GF(2) matrices of `hash_crc32c_common.c`: a 32-row matrix of words stands for a linear
 operator on the CRC register, and repeated squaring builds the operator that feeds a run of
 zero bytes.
 */
module Gf2Matrix {

  import opened Crc32c

  /** The row, if the low bit of `v` asks for it. */
  function Select(v: bv32, row: bv32): bv32 {
    if IsOdd(v) then row else 0
  }

  /** The sum of the rows from `n` on that the bits of `v`, low bit first, ask for. */
  function Times(mat: seq<bv32>, v: bv32, n: nat): bv32
    requires |mat| == 32 && n <= 32
    decreases 32 - n
  {
    if n == 32 then 0 else Xor(Select(v, mat[n]), Times(mat, Half(v), n + 1))
  }

  /** `mat` is the operator that feeds `k` zero bits. */
  ghost predicate Feeds(mat: seq<bv32>, k: nat) {
    |mat| == 32 && forall v: bv32 :: Times(mat, v, 0) == ZeroBits(v, k)
  }

  // ----- The product is linear -----

  lemma SelectXor(a: bv32, b: bv32, row: bv32)
    ensures Select(Xor(a, b), row) == Xor(Select(a, row), Select(b, row))
  {
    hide Xor, IsOdd;
    IsOddXor(a, b);
    XorSelf(row);
    XorZero(row);
    XorZero(0);
  }

  lemma {:induction false} TimesXor(mat: seq<bv32>, a: bv32, b: bv32, n: nat)
    requires |mat| == 32 && n <= 32
    ensures Times(mat, Xor(a, b), n) == Xor(Times(mat, a, n), Times(mat, b, n))
    decreases 32 - n
  {
    hide Xor, Select;
    if n == 32 {
      XorZero(0);
    } else {
      SelectXor(a, b, mat[n]);
      HalfXor(a, b);
      TimesXor(mat, Half(a), Half(b), n + 1);
      XorSwap(Select(a, mat[n]), Select(b, mat[n]), Times(mat, Half(a), n + 1), Times(mat, Half(b), n + 1));
    }
  }

  lemma {:induction false} TimesZero(mat: seq<bv32>, n: nat)
    requires |mat| == 32 && n <= 32
    ensures Times(mat, 0, n) == 0
    decreases 32 - n
  {
    hide Xor;
    if n < 32 {
      assert Half(0) == 0;
      TimesZero(mat, n + 1);
      XorZero(0);
    }
  }

  lemma TimesSelect(mat: seq<bv32>, v: bv32, row: bv32)
    requires |mat| == 32
    ensures Times(mat, Select(v, row), 0) == Select(v, Times(mat, row, 0))
  {
    TimesZero(mat, 0);
  }

  /** The square of a matrix: its rows are the products of the matrix with its own rows. */
  function Squared(mat: seq<bv32>): seq<bv32>
    requires |mat| == 32
  {
    seq(32, n requires 0 <= n < 32 => Times(mat, mat[n], 0))
  }

  lemma {:induction false} TimesSquared(mat: seq<bv32>, v: bv32, n: nat)
    requires |mat| == 32 && n <= 32
    ensures Times(Squared(mat), v, n) == Times(mat, Times(mat, v, n), 0)
    decreases 32 - n
  {
    hide Xor, Select;
    if n == 32 {
      TimesZero(mat, 0);
    } else {
      TimesSelect(mat, v, mat[n]);
      TimesSquared(mat, Half(v), n + 1);
      TimesXor(mat, Select(v, mat[n]), Times(mat, Half(v), n + 1), 0);
    }
  }

  /** Squaring the operator doubles the run of zeros. */
  lemma SquaredFeeds(mat: seq<bv32>, k: nat)
    requires Feeds(mat, k)
    ensures Feeds(Squared(mat), 2 * k)
  {
    hide Times, ZeroBits;
    forall v: bv32
      ensures Times(Squared(mat), v, 0) == ZeroBits(v, 2 * k)
    {
      TimesSquared(mat, v, 0);
      ZeroBitsAdd(v, k, k);
    }
  }

  // ----- The operator for one zero bit -----

  /** `n` single left shifts. */
  function ShiftLeft(w: bv32, n: nat): bv32
    decreases n
  {
    if n == 0 then w else ShiftLeft(Double(w), n - 1)
  }

  /** The matrix for one zero bit: the polynomial, then the powers of two from 1 on. */
  ghost predicate IsOneBit(mat: seq<bv32>) {
    && |mat| == 32
    && mat[0] == POLY
    && forall n :: 1 <= n < 32 ==> mat[n] == ShiftLeft(1, n - 1)
  }

  lemma {:induction false} ShiftLeftXor(a: bv32, b: bv32, n: nat)
    ensures ShiftLeft(Xor(a, b), n) == Xor(ShiftLeft(a, n), ShiftLeft(b, n))
    decreases n
  {
    hide Xor, Double;
    if n > 0 {
      DoubleXor(a, b);
      ShiftLeftXor(Double(a), Double(b), n - 1);
    }
  }

  lemma {:induction false} ShiftLeftZero(n: nat)
    ensures ShiftLeft(0, n) == 0
  {
    if n > 0 {
      assert Double(0) == 0;
      ShiftLeftZero(n - 1);
    }
  }

  /** The last row of a run of shifts, one more shift on. */
  lemma {:induction false} ShiftLeftNext(w: bv32, n: nat)
    ensures ShiftLeft(w, n + 1) == Double(ShiftLeft(w, n))
    decreases n
  {
    if n > 0 {
      ShiftLeftNext(Double(w), n - 1);
    }
  }

  lemma ShiftLeftLowBit(v: bv32, n: nat)
    ensures ShiftLeft(LowBit(v), n) == Select(v, ShiftLeft(1, n))
  {
    LowBitIsOdd(v);
    ShiftLeftZero(n);
  }

  lemma ShiftRightTwoBytes(u: bv32)
    ensures ShiftRight(u, 16) == u >> 16
  {
    hide ShiftRight;
    ShiftRightByte(u);
    ShiftRightByte(u >> 8);
    ShiftRightAdd(u, 8, 8);
    assert u >> 8 >> 8 == u >> 16;
  }

  lemma ShiftRightEnd(u: bv32)
    ensures ShiftRight(u, 32) == 0
  {
    hide ShiftRight;
    ShiftRightTwoBytes(u);
    ShiftRightTwoBytes(u >> 16);
    ShiftRightAdd(u, 16, 16);
    assert u >> 16 >> 16 == 0;
  }

  lemma ShiftRightNext(u: bv32, n: nat)
    ensures ShiftRight(u, n + 1) == Half(ShiftRight(u, n))
  {
    ShiftRightAdd(u, n, 1);
    assert ShiftRight(ShiftRight(u, n), 1) == ShiftRight(Half(ShiftRight(u, n)), 0);
  }

  /** From row 1 on, the matrix for one zero bit moves a word down by one: `v` is what is left of `u` at row `n`. */
  lemma {:induction false} TimesOneBitRows(mat: seq<bv32>, u: bv32, v: bv32, n: nat)
    requires IsOneBit(mat) && 1 <= n <= 32 && v == ShiftRight(u, n)
    ensures Times(mat, v, n) == ShiftLeft(v, n - 1)
    decreases 32 - n
  {
    hide Xor, Select, Half, LowBit, Double;
    if n == 32 {
      ShiftRightEnd(u);
      ShiftLeftZero(31);
    } else {
      ShiftRightNext(u, n);
      TimesOneBitRows(mat, u, Half(v), n + 1);
      SplitLowBit(v);
      ShiftLeftXor(LowBit(v), Double(Half(v)), n - 1);
      ShiftLeftLowBit(v, n - 1);
    }
  }

  lemma ZeroBitIsSelect(v: bv32)
    ensures ZeroBit(v) == Xor(Select(v, POLY), Half(v))
  {
    hide Xor, Half, IsOdd;
    XorComm(POLY, Half(v));
    XorZero(Half(v));
  }

  lemma OneBitFeeds(mat: seq<bv32>)
    requires IsOneBit(mat)
    ensures Feeds(mat, 1)
  {
    hide Xor, Select, ZeroBit, Half;
    forall v: bv32
      ensures Times(mat, v, 0) == ZeroBits(v, 1)
    {
      ShiftRightNext(v, 0);
      TimesOneBitRows(mat, v, Half(v), 1);
      ZeroBitIsSelect(v);
      assert ZeroBits(v, 1) == ZeroBits(ZeroBit(v), 0);
    }
  }

  // ----- The loops of the source -----

  method MatrixTimes(mat: array<bv32>, vec: bv32) returns (sum: bv32)
    requires mat.Length == 32
    ensures sum == Times(mat[..], vec, 0)
  {
    hide Xor, Half, IsOdd;
    sum := 0;
    var v, n := vec, 0;
    XorZero(Times(mat[..], vec, 0));
    while v != 0
      invariant n <= 32 && v == ShiftRight(vec, n)
      invariant Xor(sum, Times(mat[..], v, n)) == Times(mat[..], vec, 0)
      decreases 32 - n
    {
      ShiftRightEnd(vec);
      ShiftRightNext(vec, n);
      XorAssoc(sum, Select(v, mat[n]), Times(mat[..], Half(v), n + 1));
      XorZero(sum);
      if IsOdd(v) {
        sum := Xor(sum, mat[n]);
      }
      v := Half(v);
      n := n + 1;
    }
    TimesZero(mat[..], n);
    XorZero(sum);
  }

  method MatrixSquare(square: array<bv32>, mat: array<bv32>)
    requires square != mat && square.Length == 32 && mat.Length == 32
    modifies square
    ensures square[..] == Squared(mat[..])
  {
    hide Times;
    for n := 0 to 32
      invariant forall i :: 0 <= i < n ==> square[i] == Times(mat[..], mat[i], 0)
    {
      square[n] := MatrixTimes(mat, mat[n]);
    }
  }

  /** The largest power of two that is at most `len`; 1 for 0. */
  function FloorPow2(len: nat): (p: nat)
    ensures 1 <= p
    ensures len >= 1 ==> p <= len < 2 * p
  {
    if len <= 1 then 1 else 2 * FloorPow2(len / 2)
  }

  predicate IsPow2(len: nat) {
    len == 1 || (len >= 2 && len % 2 == 0 && IsPow2(len / 2))
  }

  /** The run of zeros that `ZerosOp` stands for has the requested length exactly at powers of two. */
  lemma {:induction false} FloorPow2Exact(len: nat)
    ensures IsPow2(FloorPow2(len))
    ensures FloorPow2(len) == len <==> IsPow2(len)
  {
    if len > 1 {
      FloorPow2Exact(len / 2);
    }
  }

  lemma TimesDouble(k: nat, f: nat)
    ensures k * (2 * f) == 2 * k * f
  {
  }

  lemma FloorPow2Halves(l: nat, k: nat)
    ensures l / 2 == 0 ==> k * FloorPow2(l) == k
    ensures l / 2 != 0 ==> k * FloorPow2(l) == 2 * k * FloorPow2(l / 2)
  {
    if l <= 1 {
      assert FloorPow2(l) == 1;
    } else {
      var f := FloorPow2(l / 2);
      assert FloorPow2(l) == 2 * f;
      TimesDouble(k, f);
    }
  }

  method OneBitMatrix(odd: array<bv32>)
    requires odd.Length == 32
    modifies odd
    ensures Feeds(odd[..], 1)
  {
    hide Double;
    odd[0] := POLY;
    var row: bv32 := 1;
    for n := 1 to 32
      invariant odd[0] == POLY
      invariant row == ShiftLeft(1, n - 1)
      invariant forall i :: 1 <= i < n ==> odd[i] == ShiftLeft(1, i - 1)
    {
      odd[n] := row;
      ShiftLeftNext(1, n - 1);
      row := Double(row);
    }
    OneBitFeeds(odd[..]);
  }

  /** Fills `even` with the operator that feeds `FloorPow2(len)` zero bytes. */
  method ZerosOp(even: array<bv32>, len: nat)
    requires even.Length == 32
    modifies even
    ensures Feeds(even[..], 8 * FloorPow2(len))
  {
    hide Feeds, Squared, FloorPow2;
    var odd := new bv32[32];
    OneBitMatrix(odd);
    MatrixSquare(even, odd);
    SquaredFeeds(odd[..], 1);
    MatrixSquare(odd, even);
    SquaredFeeds(even[..], 2);
    var l := len;
    ghost var k: nat := 4;
    while true
      invariant Feeds(odd[..], k)
      invariant 4 * FloorPow2(len) == k * FloorPow2(l)
      decreases l
    {
      MatrixSquare(even, odd);
      SquaredFeeds(odd[..], k);
      FloorPow2Halves(l, k);
      l := l / 2;
      if l == 0 {
        return;
      }
      MatrixSquare(odd, even);
      SquaredFeeds(even[..], 2 * k);
      FloorPow2Halves(l, 2 * k);
      k := 4 * k;
      l := l / 2;
      if l == 0 {
        break;
      }
    }
    ghost var rows := odd[..];
    for n := 0 to 32
      invariant odd[..] == rows
      invariant even[..n] == rows[..n]
    {
      even[n] := odd[n];
    }
    assert even[..] == rows;
  }
}
