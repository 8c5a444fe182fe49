/** The 64-bit words of the slot bitmaps, as the sets of their one bits. */
module ShardWord {

  type Word = w: set<nat> | forall b :: b in w ==> b < 64

  /** The first zero bit from `from` on, or 64. */
  function FirstZero(w: Word, from: nat): (r: nat)
    requires from <= 64
    ensures from <= r <= 64
    ensures r < 64 ==> r !in w
    ensures forall b :: from <= b < r ==> b in w
    decreases 64 - from
  {
    if from == 64 || from !in w then from else FirstZero(w, from + 1)
  }

  // ----- The number a word stands for -----

  function Pow2(n: nat): (r: nat)
    ensures r > 0
  {
    if n == 0 then 1 else 2 * Pow2(n - 1)
  }

  /** The number whose one bits below `n` are those of the word. */
  function Value(w: Word, n: nat): nat {
    if n == 0 then 0 else Value(w, n - 1) + (if n - 1 in w then Pow2(n - 1) else 0)
  }

  lemma {:induction false} ValueBound(w: Word, n: nat)
    ensures Value(w, n) < Pow2(n)
  {
    if n > 0 { ValueBound(w, n - 1); }
  }

  lemma {:induction false} SameBits(v: Word, w: Word, n: nat)
    requires Value(v, n) == Value(w, n)
    ensures forall b :: 0 <= b < n ==> (b in v <==> b in w)
  {
    if n > 0 {
      ValueBound(v, n - 1);
      ValueBound(w, n - 1);
      SameBits(v, w, n - 1);
    }
  }

  /** Comparing two words as numbers compares their bits. */
  lemma ValueInjective(v: Word, w: Word)
    ensures Value(v, 64) == Value(w, 64) <==> v == w
  {
    if Value(v, 64) == Value(w, 64) {
      SameBits(v, w, 64);
      assert forall b :: b in v <==> b in w;
    }
  }

  /** Subtracting the power of a one bit clears that bit only. */
  lemma {:induction false} ValueWithout(w: Word, b: nat, n: nat)
    requires b in w
    ensures Value(w - {b}, n) == Value(w, n) - (if b < n then Pow2(b) else 0)
  {
    if n > 0 { ValueWithout(w, b, n - 1); }
  }

  /** Adding the power of a zero bit sets that bit only. */
  lemma ValueWith(w: Word, b: nat, n: nat)
    requires b < 64 && b !in w
    ensures Value(w + {b}, n) == Value(w, n) + (if b < n then Pow2(b) else 0)
  {
    assert w + {b} - {b} == w;
    ValueWithout(w + {b}, b, n);
  }

  // ----- The number of one bits -----

  lemma {:induction false} SizeBelow(w: set<nat>, n: nat)
    requires forall b :: b in w ==> b < n
    ensures |w| <= n
    ensures |w| == n <==> forall b :: 0 <= b < n ==> b in w
  {
    if n > 0 {
      var v := w - {n - 1};
      SizeBelow(v, n - 1);
      if n - 1 in w {
        assert w == v + {n - 1};
      } else {
        assert w == v;
      }
    } else {
      assert w == {};
    }
  }

  // ----- Finding a zero bit sixteen bits at a time -----

  /** The table of first zero bits: the place within sixteen bits, or 255. */
  function TableEntry(w: Word, base: nat): (r: nat)
    requires base <= 48
    ensures r == 255 <==> forall b :: base <= b < base + 16 ==> b in w
  {
    var z := FirstZero(w, base);
    if z < base + 16 then z - base else 255
  }

  method FindFirstZero(w: Word) returns (r: nat)
    ensures r == if FirstZero(w, 0) == 64 then 255 else FirstZero(w, 0)
    ensures r == 255 <==> forall b :: 0 <= b < 64 ==> b in w
  {
    var i := 0;
    while i < 8
      invariant i <= 8 && i % 2 == 0
      invariant forall b :: 0 <= b < 8 * i ==> b in w
    {
      var entry := TableEntry(w, i * 8);
      if entry != 255 {
        return entry + i * 8;
      }
      i := i + 2;
    }
    r := 255;
  }
}
