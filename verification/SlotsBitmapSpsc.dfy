/**
 The sequential slot bitmap of `slots_bitmap_spsc.c`: shards of 64 slots, a counter per shard, and
 a bit per shard that says whether it is full, eight of them to a word.
 */
module SlotsBitmapSpsc {

  import opened Modulo
  import opened ShardWord
  import opened Pow2Round

  const FULL_BITS: nat := 8

  // ----- Sizes of words -----

  /** A shard counts 64 slots exactly when it has no free one. */
  lemma FullShard(w: Word)
    ensures |w| <= 64 && (|w| == 64 <==> FirstZero(w, 0) == 64)
  {
    SizeBelow(w, 64);
    var z := FirstZero(w, 0);
    if z == 64 { assert forall b :: 0 <= b < 64 ==> b in w; }
  }

  lemma SizeWith(w: Word, b: nat)
    requires b < 64 && b !in w
    ensures |w + {b}| == |w| + 1 <= 64
  {
    FullShard(w + {b});
  }

  lemma SizeWithout(w: Word, b: nat)
    requires b in w
    ensures |w - {b}| == |w| - 1 < 64
  {
    FullShard(w);
  }

  /** The bit of a shard in the words of full bits. */
  predicate FullBit(full: seq<Word>, i: nat) {
    i / FULL_BITS < |full| && i % FULL_BITS in full[i / FULL_BITS]
  }

  function SetFull(full: seq<Word>, i: nat, on: bool): seq<Word>
    requires i / FULL_BITS < |full|
  {
    var w, b := full[i / FULL_BITS], i % FULL_BITS;
    full[i / FULL_BITS := if on then w + {b} else w - {b}]
  }

  lemma SetFullIs(full: seq<Word>, i: nat, on: bool, j: nat)
    requires i / FULL_BITS < |full|
    ensures FullBit(SetFull(full, i, on), j) <==> if j == i then on else FullBit(full, j)
  {
    assert j == FULL_BITS * (j / FULL_BITS) + j % FULL_BITS;
    assert i == FULL_BITS * (i / FULL_BITS) + i % FULL_BITS;
  }

  /** Counters and full bits agree with the shards. */
  predicate ShardOk(shards: seq<Word>, used: seq<nat>, full: seq<Word>, i: nat)
    requires i < |shards| && |used| == |shards|
  {
    used[i] == |shards[i]| && (FullBit(full, i) <==> used[i] == 64)
  }

  predicate Consistent(shards: seq<Word>, used: seq<nat>, full: seq<Word>) {
    && |used| == |shards| <= FULL_BITS * |full|
    && forall i :: 0 <= i < |shards| ==> ShardOk(shards, used, full, i)
  }

  predicate Held(shards: seq<Word>, slot: nat) {
    slot / 64 < |shards| && slot % 64 in shards[slot / 64]
  }

  lemma HeldUpdate(shards: seq<Word>, i: nat, w: Word, slot: nat)
    requires i < |shards|
    ensures Held(shards[i := w], slot) <==> if slot / 64 == i then slot % 64 in w else Held(shards, slot)
  {
  }

  lemma SlotParts(i: nat, b: nat)
    requires b < 64
    ensures (i * 64 + b) / 64 == i && (i * 64 + b) % 64 == b
    ensures forall slot: nat :: slot / 64 == i && slot % 64 == b ==> slot == i * 64 + b
  {
    forall slot: nat | slot / 64 == i && slot % 64 == b ensures slot == i * 64 + b {
      assert slot == 64 * (slot / 64) + slot % 64;
    }
  }

  /** A change of one shard that keeps the rest. */
  lemma UpdateConsistent(shards: seq<Word>, used: seq<nat>, full: seq<Word>, i: nat, w: Word, full': seq<Word>)
    requires Consistent(shards, used, full) && i < |shards| && |full'| == |full|
    requires forall j :: 0 <= j < |shards| ==> (FullBit(full', j) <==> if j == i then |w| == 64 else FullBit(full, j))
    ensures Consistent(shards[i := w], used[i := |w|], full')
  {
    hide FullBit;
    var shards', used' := shards[i := w], used[i := |w|];
    forall j | 0 <= j < |shards| ensures ShardOk(shards', used', full', j) {
      assert ShardOk(shards, used, full, j);
    }
  }

  // ----- The difference of a word and a power of two -----

  /** The word less the power of bit `b`, modulo the power of 64. */
  function Minus(w: Word, b: nat): (r: Word)
    requires b < 64
  {
    var n := (Value(w, 64) + Pow2(64) - PowerBelow(b)) % Pow2(64);
    Bits(n, 64)
  }

  function PowerBelow(b: nat): (r: nat)
    requires b < 64
    ensures 0 < r < Pow2(64)
  {
    Pow2Grows(b, 63);
    assert Pow2(64) == 2 * Pow2(63);
    Pow2(b)
  }

  lemma MinusValue(w: Word, b: nat)
    requires b < 64
    ensures Value(w, 64) >= Pow2(b) ==> Value(Minus(w, b), 64) == Value(w, 64) - Pow2(b)
    ensures Value(w, 64) < Pow2(b) ==> Value(Minus(w, b), 64) == Value(w, 64) + Pow2(64) - Pow2(b)
    ensures Pow2(b) < Pow2(64)
  {
    hide Value, Bits, Pow2;
    ValueBound(w, 64);
    var v, m, q := Value(w, 64), Pow2(64), PowerBelow(b);
    PowerIs(b);
    BitsValue((v + m - q) % m, 64);
    ModuloOnce(v, m, q);
  }

  lemma PowerIs(b: nat)
    requires b < 64
    ensures PowerBelow(b) == Pow2(b)
  {
  }

  lemma ModuloOnce(v: nat, m: nat, q: nat)
    requires v < m && 0 < q < m
    ensures (v + m - q) % m == if v >= q then v - q else v + m - q
  {
    if v >= q {
      ModUnique(v + m - q, m, 1, v - q);
    }
  }

  /** A set bit is cleared. */
  lemma MinusSet(w: Word, b: nat)
    requires b in w
    ensures Minus(w, b) == w - {b}
  {
    hide Value, Minus, Pow2;
    MinusValue(w, b);
    ValueWithout(w, b, 64);
    ValueInjective(Minus(w, b), w - {b});
  }

  lemma MinusChanges(w: Word, b: nat) returns (t: nat)
    requires b < 64
    ensures t < 64 && (t in Minus(w, b) <==> t !in w)
  {
    assert Minus(w, b) != w by {
      hide Value, Minus, Pow2;
      MinusValue(w, b);
      ValueInjective(Minus(w, b), w);
    }
    hide Minus;
    if t' :| t' in w && t' !in Minus(w, b) { return t'; }
    t :| t in Minus(w, b) && t !in w;
  }

  /** The slots held afterwards are those held before without `slot`. */
  ghost predicate FreesOnly(shards: seq<Word>, shards': seq<Word>, slot: nat) {
    forall s: nat :: Held(shards', s) <==> s != slot && Held(shards, s)
  }

  lemma FreesExactly(shards: seq<Word>, slot: nat, i: nat, b: nat)
    requires i < |shards| && i == slot / 64 % 65536 && b == slot % 64
    ensures FreesOnly(shards, shards[i := Minus(shards[i], b)], slot) <==> slot / 64 < 65536 && Held(shards, slot)
  {
    var w' := Minus(shards[i], b);
    var shards' := shards[i := w'];
    if slot / 64 < 65536 && Held(shards, slot) {
      MinusSet(shards[i], b);
      hide Minus, Held;
      forall s: nat ensures Held(shards', s) <==> s != slot && Held(shards, s) { FreedAt(shards, slot, s); }
    } else if FreesOnly(shards, shards', slot) {
      var t := MinusChanges(shards[i], b);
      hide Minus;
      var s := i * 64 + t;
      SlotParts(i, t);
      HeldUpdate(shards, i, w', s);
      assert false;
    }
  }

  lemma FreedAt(shards: seq<Word>, slot: nat, s: nat)
    requires Held(shards, slot)
    ensures var i := slot / 64;
            Held(shards[i := shards[i] - {slot % 64}], s) <==> s != slot && Held(shards, s)
  {
    var i, b := slot / 64, slot % 64;
    HeldUpdate(shards, i, shards[i] - {b}, s);
    assert s == 64 * (s / 64) + s % 64;
    assert slot == 64 * i + b;
  }

  class Bitmap {
    var shards: array<Word>
    var used: array<nat>
    var full: array<Word>

    ghost predicate Valid()
      reads this, shards, used, full
    {
      shards != full && Consistent(shards[..], used[..], full[..])
    }

    constructor (size: nat)
      requires size > 0
      ensures Valid() && fresh(shards) && fresh(used) && fresh(full)
      ensures size <= 64 * shards.Length < size + 64
      ensures forall slot: nat :: !Held(shards[..], slot)
    {
      var count := (size + 63) / 64;
      shards := new Word[count](_ => {});
      used := new nat[count](_ => 0);
      full := new Word[(count + FULL_BITS - 1) / FULL_BITS](_ => {});
    }

    method IsShardFull(i: nat) returns (r: bool)
      requires Valid() && i < shards.Length
      ensures r <==> forall b :: 0 <= b < 64 ==> b in shards[i]
    {
      assert ShardOk(shards[..], used[..], full[..], i);
      SizeBelow(shards[i], 64);
      r := i % FULL_BITS in full[i / FULL_BITS];
    }

    /** The first free slot of the whole bitmap is taken; failure means that there is none. */
    method Acquire() returns (found: bool, slot: nat)
      requires Valid()
      modifies shards, used, full
      ensures Valid()
      ensures !found ==> shards[..] == old(shards[..]) && forall s: nat :: s < 64 * shards.Length ==> Held(shards[..], s)
      ensures found ==> slot < 64 * shards.Length && !Held(old(shards[..]), slot) && forall s: nat :: s < slot ==> Held(old(shards[..]), s)
      ensures found ==> forall s: nat :: Held(shards[..], s) <==> s == slot || Held(old(shards[..]), s)
    {
      var i := 0;
      while i < shards.Length
        invariant i <= shards.Length
        invariant Valid() && shards[..] == old(shards[..])
        invariant forall s: nat :: s < 64 * i ==> Held(old(shards[..]), s)
      {
        var skip := IsShardFull(i);
        if skip {
          HeldUpTo(shards[..], i);
        } else {
          var b := FindFirstZero(shards[i]);
          ghost var s0 := shards[..];
          TakeIn(i, b);
          TakenIs(s0, i, b);
          return true, i * 64 + b;
        }
        i := i + 1;
      }
      found, slot := false, 0;
    }

    /** Takes the first free bit of a shard. */
    method TakeIn(i: nat, b: nat)
      requires Valid() && i < shards.Length && b < 64 && b == FirstZero(shards[i], 0)
      modifies shards, used, full
      ensures Valid() && shards[..] == old(shards[..])[i := old(shards[i]) + {b}]
    {
      ghost var s0, u0, f0 := shards[..], used[..], full[..];
      SizeWith(shards[i], b);
      assert ShardOk(s0, u0, f0, i);
      used[i] := used[i] + 1;
      shards[i] := shards[i] + {b};
      ghost var n: nat := |s0[i] + {b}|;
      assert used[..] == u0[i := n] && shards[..] == s0[i := s0[i] + {b}];
      if used[i] == 64 {
        SetShardFull(i, true);
      }
      UpdateConsistent(s0, u0, f0, i, s0[i] + {b}, full[..]);
    }

    method SetShardFull(i: nat, on: bool)
      requires i / FULL_BITS < full.Length && full != shards
      modifies full
      ensures full[..] == SetFull(old(full[..]), i, on)
      ensures forall j: nat :: FullBit(full[..], j) <==> if j == i then on else FullBit(old(full[..]), j)
    {
      ghost var f0 := full[..];
      if on {
        full[i / FULL_BITS] := full[i / FULL_BITS] + {i % FULL_BITS};
      } else {
        full[i / FULL_BITS] := full[i / FULL_BITS] - {i % FULL_BITS};
      }
      assert full[..] == SetFull(f0, i, on);
      forall j: nat ensures FullBit(full[..], j) <==> if j == i then on else FullBit(f0, j) {
        SetFullIs(f0, i, on, j);
      }
    }

    /**
     Gives a slot back.  The shard number is kept in 16 bits, the counter in 8, and the shard is
     written as a difference of numbers: the slot alone is freed, and the bitmap stays consistent,
     exactly when the slot is held and its shard number fits.
     */
    method Release(slot: nat)
      requires Valid() && slot < 64 * shards.Length
      modifies shards, used, full
      ensures Valid() && FreesOnly(old(shards[..]), shards[..], slot) <==>
              slot / 64 < 65536 && Held(old(shards[..]), slot)
    {
      ghost var s0, u0, f0 := shards[..], used[..], full[..];
      var i, b := slot / 64 % 65536, slot % 64;
      used[i] := (used[i] + 255) % 256;
      SetShardFull(i, false);
      shards[i] := Minus(shards[i], b);
      assert shards[..] == s0[i := Minus(s0[i], b)];
      FreesExactly(s0, slot, i, b);
      if slot / 64 < 65536 && Held(s0, slot) {
        SizeWithout(s0[i], b);
        MinusSet(s0[i], b);
        assert ShardOk(s0, u0, f0, i);
        ghost var n: nat := |s0[i] - {b}|;
        assert used[..] == u0[i := n];
        UpdateConsistent(s0, u0, f0, i, s0[i] - {b}, full[..]);
      }
    }
  }

  /** A bitmap for at least `size` slots; there is none of size 0. */
  method NewBitmap(size: nat) returns (b: Bitmap?)
    ensures b == null <==> size == 0
    ensures b != null ==> b.Valid() && fresh(b) && size <= 64 * b.shards.Length < size + 64
    ensures b != null ==> forall slot: nat :: !Held(b.shards[..], slot)
  {
    if size == 0 { return null; }
    b := new Bitmap(size);
  }

  /** Taking the first free bit of the first shard that has one. */
  lemma TakenIs(shards: seq<Word>, i: nat, b: nat)
    requires i < |shards| && b < 64 && b == FirstZero(shards[i], 0)
    requires forall s: nat :: s < 64 * i ==> Held(shards, s)
    ensures !Held(shards, i * 64 + b) && forall s: nat :: s < i * 64 + b ==> Held(shards, s)
    ensures forall s: nat :: Held(shards[i := shards[i] + {b}], s) <==> s == i * 64 + b || Held(shards, s)
  {
    SlotParts(i, b);
    forall s: nat | s < i * 64 + b ensures Held(shards, s) {
      if s >= 64 * i { assert s / 64 == i && s % 64 < b; }
    }
    forall s: nat ensures Held(shards[i := shards[i] + {b}], s) <==> s == i * 64 + b || Held(shards, s) {
      HeldUpdate(shards, i, shards[i] + {b}, s);
    }
  }

  lemma HeldUpTo(shards: seq<Word>, i: nat)
    requires i < |shards| && forall b :: 0 <= b < 64 ==> b in shards[i]
    requires forall s: nat :: s < 64 * i ==> Held(shards, s)
    ensures forall s: nat :: s < 64 * (i + 1) ==> Held(shards, s)
  {
    forall s: nat | s < 64 * (i + 1) ensures Held(shards, s) {
      if s >= 64 * i { assert s / 64 == i; }
    }
  }
}
