/** Rounding up to a power of two by smearing bits (`pow2.h`), on 64-bit words. */
module Pow2Round {

  import opened Modulo
  import opened ShardWord

  // ----- Words and numbers -----

  /** The bits of a number below `k`. */
  function Bits(n: nat, k: nat): (w: Word)
    requires k <= 64 && n < Pow2(k)
    ensures forall b :: b in w ==> b < k
  {
    if k == 0 then {}
    else if n >= Pow2(k - 1) then Bits(n - Pow2(k - 1), k - 1) + {k - 1}
    else Bits(n, k - 1)
  }

  lemma {:induction false} ValueAgrees(v: Word, w: Word, n: nat)
    requires forall b :: 0 <= b < n ==> (b in v <==> b in w)
    ensures Value(v, n) == Value(w, n)
  {
    if n > 0 { ValueAgrees(v, w, n - 1); }
  }

  /** Reading the bits of a number gives the number back. */
  lemma {:induction false} BitsValue(n: nat, k: nat)
    requires k <= 64 && n < Pow2(k)
    ensures Value(Bits(n, k), k) == n
  {
    if k > 0 {
      if n >= Pow2(k - 1) {
        BitsValue(n - Pow2(k - 1), k - 1);
        ValueAgrees(Bits(n, k), Bits(n - Pow2(k - 1), k - 1), k - 1);
      } else {
        BitsValue(n, k - 1);
        ValueAgrees(Bits(n, k), Bits(n, k - 1), k - 1);
      }
    }
  }

  lemma {:induction false} Pow2Grows(a: nat, b: nat)
    requires a <= b
    ensures Pow2(a) <= Pow2(b)
    decreases b
  {
    if a < b { Pow2Grows(a, b - 1); }
  }

  // ----- Smearing -----

  function Shr(w: Word, k: nat): Word { set b | b in w && b >= k :: b - k }

  /** Bit `i` is set when `x` has a set bit among the `n` bits from `i` on. */
  ghost predicate Near(x: Word, i: nat, n: nat) { exists j :: j in x && i <= j < i + n }

  ghost function Spread(x: Word, n: nat): Word { set i: nat | i < 64 && Near(x, i, n) }

  lemma SpreadDoubles(x: Word, n: nat)
    ensures Spread(x, n) + Shr(Spread(x, n), n) == Spread(x, 2 * n)
  {
    var s := Spread(x, n);
    forall i: nat ensures i in s + Shr(s, n) <==> i in Spread(x, 2 * n) {
      if i in Shr(s, n) { assert i + n in s; }
      if i < 64 && Near(x, i, 2 * n) {
        var j :| j in x && i <= j < i + 2 * n;
        if j < i + n {
          assert Near(x, i, n);
        } else {
          assert Near(x, i + n, n);
          assert i + n in s;
          assert (i + n) - n in Shr(s, n);
        }
      }
    }
  }

  ghost predicate Reached(x: Word, i: nat) { exists j :: j in x && i <= j }

  /** All bits up to the highest set bit. */
  ghost predicate IsSmear(x: Word, r: Word) {
    forall i: nat :: i in r <==> Reached(x, i)
  }

  method NextPow2M1(x: Word) returns (r: Word)
    ensures IsSmear(x, r)
  {
    hide Spread, Shr, IsSmear;
    r := x;
    SpreadOne(x);
    SpreadDoubles(x, 1);
    r := r + Shr(r, 1);
    SpreadDoubles(x, 2);
    r := r + Shr(r, 2);
    SpreadDoubles(x, 4);
    r := r + Shr(r, 4);
    SpreadDoubles(x, 8);
    r := r + Shr(r, 8);
    SpreadDoubles(x, 16);
    r := r + Shr(r, 16);
    SpreadDoubles(x, 32);
    r := r + Shr(r, 32);
    SpreadAll(x, r);
  }

  lemma SpreadOne(x: Word)
    ensures Spread(x, 1) == x
  {
    forall i: nat ensures i in x <==> i in Spread(x, 1) {
      if i in x { assert Near(x, i, 1); }
    }
  }

  lemma SpreadAll(x: Word, r: Word)
    requires r == Spread(x, 64)
    ensures IsSmear(x, r)
  {
    forall i: nat ensures i in r <==> Reached(x, i) {
      if Near(x, i, 64) {
        var j :| j in x && i <= j < i + 64;
        assert Reached(x, i);
      }
      if Reached(x, i) {
        var j :| j in x && i <= j;
        assert Near(x, i, 64);
      }
    }
  }

  // ----- The number a smear stands for -----

  lemma {:induction false} FullValue(w: Word, n: nat)
    requires forall b :: 0 <= b < n ==> b in w
    ensures Value(w, n) == Pow2(n) - 1
  {
    if n > 0 { FullValue(w, n - 1); }
  }

  lemma {:induction false} ValueAbove(w: Word, n: nat, m: nat)
    requires n <= m && forall b :: b in w ==> b < n
    ensures Value(w, m) == Value(w, n)
    decreases m
  {
    if n < m { ValueAbove(w, n, m - 1); }
  }

  lemma SomeBound(w: Word, n: nat)
    requires forall b :: b in w ==> b < n
    ensures w == {} || n > 0
  {
    if n == 0 { assert w == {}; }
  }

  /** The highest bit of a non-empty word. */
  lemma {:induction false} TopBit(w: Word, n: nat) returns (top: nat)
    requires w != {} && forall b :: b in w ==> b < n
    ensures top in w && forall b :: b in w ==> b <= top
  {
    SomeBound(w, n);
    if n - 1 in w { top := n - 1; } else { top := TopBit(w, n - 1); }
  }

  lemma {:induction false} ValueAtLeast(w: Word, b: nat, n: nat)
    requires b in w && b < n
    ensures Value(w, n) >= Pow2(b)
  {
    if b < n - 1 { ValueAtLeast(w, b, n - 1); }
  }

  /** The smear of `n` is one less than a power of two, above `n`, and half of that power is not above `n`. */
  lemma SmearValue(x: Word, r: Word)
    requires IsSmear(x, r) && x != {}
    ensures exists e: nat :: e < 64 && Value(r, 64) == Pow2(e + 1) - 1 && Pow2(e) <= Value(x, 64) < Pow2(e + 1)
  {
    var top := TopBit(x, 64);
    forall b: nat ensures b in r <==> b < top + 1 {
      if b <= top { assert Reached(x, b); }
    }
    hide Pow2, Value;
    FullValue(r, top + 1);
    ValueAbove(r, top + 1, 64);
    ValueAbove(x, top + 1, 64);
    ValueBound(x, top + 1);
    ValueAtLeast(x, top, 64);
    assert Value(r, 64) == Pow2(top + 1) - 1;
  }

  /** The least power of two that is not below `x`. */
  ghost predicate IsNextPow2(x: nat, r: nat) {
    (exists e: nat :: r == Pow2(e)) && x <= r && forall e: nat :: x <= Pow2(e) ==> r <= Pow2(e)
  }

  lemma PowerOrder(a: nat, b: nat)
    ensures Pow2(a) < Pow2(b) ==> a < b
  {
    if b <= a { Pow2Grows(b, a); }
  }

  lemma NextIs(x: nat, e: nat)
    requires Pow2(e) < x <= Pow2(e + 1)
    ensures IsNextPow2(x, Pow2(e + 1))
  {
    forall d: nat | x <= Pow2(d) ensures Pow2(e + 1) <= Pow2(d) {
      PowerOrder(e, d);
      Pow2Grows(e + 1, d);
    }
  }

  lemma Next1()
    ensures IsNextPow2(1, 1)
  {
    assert Pow2(0) == 1;
  }

  /**
   Rounding up: the least power of two not below `x`, for all `x` from 1 to half the range; the
   64-bit result wraps to 0 beyond that and for 0.
   */
  method Next(x: nat) returns (r: nat)
    requires x < Pow2(64)
    ensures 1 <= x <= Pow2(63) ==> IsNextPow2(x, r)
    ensures x == 0 || x > Pow2(63) ==> r == 0
  {
    hide Pow2, Value, Bits, IsSmear, IsNextPow2, Wrap64;
    var n := if x == 0 then Pow2(64) - 1 else x - 1;
    var y := NextPow2M1(Bits(n, 64));
    r := Wrap64(Value(y, 64) + 1);
    NextFromSmear(x, n, y);
  }

  /** What a 64-bit result keeps. */
  function Wrap64(n: nat): nat { n % Pow2(64) }

  lemma WrapIs(n: nat)
    ensures n < Pow2(64) ==> Wrap64(n) == n
    ensures n == Pow2(64) ==> Wrap64(n) == 0
  {
    hide Pow2;
    ModIs(n, Pow2(64));
  }

  lemma ModIs(n: nat, m: nat)
    requires m > 0
    ensures n < m ==> n % m == n
    ensures n == m ==> n % m == 0
  {
  }

  lemma NextFromSmear(x: nat, n: nat, y: Word)
    requires x < Pow2(64) && n == (if x == 0 then Pow2(64) - 1 else x - 1) && IsSmear(Bits(n, 64), y)
    ensures 1 <= x <= Pow2(63) ==> IsNextPow2(x, Wrap64(Value(y, 64) + 1))
    ensures x == 0 || x > Pow2(63) ==> Wrap64(Value(y, 64) + 1) == 0
  {
    hide Pow2, Value, Bits, IsSmear, IsNextPow2, Wrap64;
    var w := Bits(n, 64);
    BitsValue(n, 64);
    DoubleOf(63);
    if w == {} {
      SmearNone(w, y);
      NoBits(w, 64);
      NoBits(y, 64);
      WrapIs(1);
      Next1();
      Pow2Grows(1, 64);
      DoubleOf(0);
    } else {
      SmearValue(w, y);
      var e: nat :| e < 64 && Value(y, 64) == Pow2(e + 1) - 1 && Pow2(e) <= n < Pow2(e + 1);
      NextFromPower(x, n, e);
    }
  }

  lemma SmearNone(x: Word, r: Word)
    requires IsSmear(x, r) && x == {}
    ensures r == {}
  {
    forall i: nat ensures i !in r { assert !Reached(x, i); }
  }

  lemma NextFromPower(x: nat, n: nat, e: nat)
    requires x < Pow2(64) && n == (if x == 0 then Pow2(64) - 1 else x - 1) && e < 64 && Pow2(e) <= n < Pow2(e + 1)
    ensures 1 <= x <= Pow2(63) ==> IsNextPow2(x, Wrap64(Pow2(e + 1)))
    ensures x == 0 || x > Pow2(63) ==> Wrap64(Pow2(e + 1)) == 0
  {
    hide Pow2, IsNextPow2, Wrap64;
    DoubleOf(63);
    WrapIs(Pow2(e + 1));
    if e < 63 {
      Pow2Grows(e + 1, 63);
      NextIs(x, e);
    }
  }

  lemma SmallMod(a: nat, b: nat)
    requires a < b
    ensures a % b == a
  {
  }

  lemma DoubleOf(n: nat)
    ensures Pow2(n + 1) == 2 * Pow2(n)
  {
  }

  lemma {:induction false} NoBits(w: Word, n: nat)
    requires w == {}
    ensures Value(w, n) == 0
  {
    if n > 0 { NoBits(w, n - 1); }
  }

  // ----- Masking -----

  /** A word masked with all bits below `k` keeps the value of its low bits. */
  lemma MaskValue(w: Word, mask: Word, k: nat)
    requires k <= 64 && forall b: nat :: b in mask <==> b < k
    ensures Value(w * mask, 64) == Value(w, k)
  {
    ValueAbove(w * mask, k, 64);
    ValueAgrees(w * mask, w, k);
  }

  lemma {:induction false} LowBits(w: Word, k: nat, n: nat)
    requires k <= n
    ensures Value(w, n) % Pow2(k) == Value(w, k)
    decreases n
  {
    hide Pow2;
    if k == n {
      ValueBound(w, k);
      SmallMod(Value(w, k), Pow2(k));
    } else {
      LowBits(w, k, n - 1);
      if n - 1 in w {
        Pow2Divides(k, n - 1);
        var q: nat :| Pow2(n - 1) == q * Pow2(k);
        AddMultiple(Value(w, n - 1), q, Pow2(k));
      }
    }
  }

  lemma {:induction false} Pow2Divides(k: nat, n: nat)
    requires k <= n
    ensures exists q: nat :: Pow2(n) == q * Pow2(k)
    decreases n
  {
    if k == n {
      assert Pow2(n) == 1 * Pow2(k);
    } else {
      Pow2Divides(k, n - 1);
      var q: nat :| Pow2(n - 1) == q * Pow2(k);
      assert Pow2(n) == (2 * q) * Pow2(k);
    }
  }

  /** The `&` of two numbers. */
  function And(a: nat, b: nat): nat
    requires a < Pow2(64) && b < Pow2(64)
  {
    Value(Bits(a, 64) * Bits(b, 64), 64)
  }

  /** Masking with one less than a power of two is the remainder. */
  lemma MaskIsMod(a: nat, k: nat)
    requires k <= 64 && a < Pow2(64) && Pow2(k) - 1 < Pow2(64)
    ensures And(a, Pow2(k) - 1) == a % Pow2(k)
  {
    hide Pow2, Value;
    var w, mask := Bits(a, 64), Bits(Pow2(k) - 1, 64);
    AllBits(k);
    MaskValue(w, mask, k);
    LowBits(w, k, 64);
    BitsValue(a, 64);
  }

  function FirstBits(k: nat): (w: Word)
    requires k <= 64
    ensures forall b: nat :: b in w <==> b < k
  {
    if k == 0 then {} else FirstBits(k - 1) + {k - 1}
  }

  lemma AllBits(k: nat)
    requires k <= 64 && Pow2(k) - 1 < Pow2(64)
    ensures Bits(Pow2(k) - 1, 64) == FirstBits(k)
  {
    hide Bits, Pow2, Value;
    BitsValue(Pow2(k) - 1, 64);
    var full := FirstBits(k);
    FullValue(full, k);
    ValueAbove(full, k, 64);
    ValueInjective(Bits(Pow2(k) - 1, 64), full);
  }
}
