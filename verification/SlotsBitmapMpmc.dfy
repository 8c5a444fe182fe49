/**
 The concurrent slot bitmap of `slots_bitmap_mpmc.c`, as a transition system with one access to
 shared memory per step, for any number of threads.

 An acquire reads the shard once to find a zero bit and once more to compute the new word, and
 swaps the new word in if the shard still has its first value.  The two reads can differ, and
 the theorems say exactly what follows.
 */
module SlotsBitmapMpmc {

  import opened Modulo
  import opened ShardWord

  // ----- State -----

  datatype Thread =
    | Idle
    | Scan(start: nat, step: nat, i: nat, again: bool)
    | Load(start: nat, step: nat, i: nat, again: bool)
    | Reload(start: nat, step: nat, i: nat, again: bool, seen: Word, bit: nat)
    | Swap(start: nat, step: nat, i: nat, again: bool, seen: Word, bit: nat, want: Word)
    | Count(i: nat, bit: nat)            // has set the bit, not counted yet
    | Free(i: nat, bit: nat)             // releasing the bit
    | FreeSwap(i: nat, bit: nat, seen: Word)
    | Uncount(i: nat)                    // has cleared the bit, not counted yet

  /** `used` holds the byte counters; `held` are the slots that acquires have returned and nobody is releasing. */
  datatype State = State(shards: seq<Word>, used: seq<nat>, threads: seq<Thread>, held: multiset<nat>)

  datatype Step =
    | CallAcquire(start: nat, step: nat)
    | CallRelease(slot: nat)
    | Run
    | SwapFails           // a weak compare-and-swap may fail at any time

  function Slot(i: nat, bit: nat): nat { 64 * i + bit }

  /** The shard of a slot; the source keeps it in 16 bits. */
  function ShardOf(slot: nat): nat { slot / 64 % 65536 }

  function BitOf(slot: nat): nat { slot % 64 }

  /** What a byte counter keeps. */
  function Byte(n: int): nat { n % 256 }

  // ----- Steps -----

  predicate Enabled(s: State, t: nat, step: Step)
    requires t < |s.threads|
  {
    var th := s.threads[t];
    match step
    case CallAcquire(_, _) => th.Idle?
    case CallRelease(slot) => th.Idle? && slot in s.held
    case SwapFails => th.Swap? || th.FreeSwap?
    case Run =>
      match th
      case Idle => false
      case Scan(_, _, i, _) => i < |s.shards| ==> i < |s.used|
      case Load(_, _, i, _) => i < |s.shards|
      case Reload(_, _, i, _, _, bit) => i < |s.shards| && bit < 64
      case Swap(_, _, i, _, seen, _, _) => i < |s.shards| && s.shards[i] == seen
      case Count(i, _) => i < |s.used|
      case Free(i, _) => i < |s.shards|
      case FreeSwap(i, _, seen) => i < |s.shards| && s.shards[i] == seen
      case Uncount(i) => i < |s.used|
  }

  function Move(s: State, t: nat, th: Thread): State
    requires t < |s.threads|
  {
    s.(threads := s.threads[t := th])
  }

  function SetShard(s: State, i: nat, w: Word): State
    requires i < |s.shards|
  {
    s.(shards := s.shards[i := w])
  }

  function SetUsed(s: State, i: nat, n: nat): State
    requires i < |s.used|
  {
    s.(used := s.used[i := n])
  }

  function Apply(s: State, t: nat, step: Step): State
    requires t < |s.threads| && Enabled(s, t, step)
  {
    var th := s.threads[t];
    match step
    case CallAcquire(start, inc) => Move(s, t, Scan(start, inc, start, false))
    case CallRelease(slot) => Move(s.(held := s.held - multiset{slot}), t, Free(ShardOf(slot), BitOf(slot)))
    case SwapFails =>
      if th.Swap? then Move(s, t, Scan(th.start, th.step, th.i + th.step, true)) else Move(s, t, Free(th.i, th.bit))
    case Run =>
      match th
      case Scan(start, inc, i, again) =>
        if i >= |s.shards| then Move(s, t, if again then Scan(start, inc, start, false) else Idle)
        else if s.used[i] == 64 then Move(s, t, Scan(start, inc, i + inc, again))
        else Move(s, t, Load(start, inc, i, again))
      case Load(start, inc, i, again) =>
        var bit := FirstZero(s.shards[i], 0);
        if bit == 64 then Move(s, t, Scan(start, inc, i + inc, again))
        else Move(s, t, Reload(start, inc, i, again, s.shards[i], bit))
      case Reload(start, inc, i, again, seen, bit) =>
        Move(s, t, Swap(start, inc, i, again, seen, bit, s.shards[i] + {bit}))
      case Swap(_, _, i, _, _, bit, want) => Move(SetShard(s, i, want), t, Count(i, bit))
      case Count(i, bit) =>
        Move(SetUsed(s, i, Byte(s.used[i] + 1)).(held := s.held + multiset{Slot(i, bit)}), t, Idle)
      case Free(i, bit) =>
        if bit in s.shards[i] then Move(s, t, FreeSwap(i, bit, s.shards[i])) else Move(s, t, Idle)
      case FreeSwap(i, bit, seen) => Move(SetShard(s, i, seen - {bit}), t, Uncount(i))
      case Uncount(i) => Move(SetUsed(s, i, Byte(s.used[i] + 255)), t, Idle)
  }

  predicate Initial(s: State) {
    && |s.used| == |s.shards| && s.held == multiset{}
    && (forall i :: 0 <= i < |s.shards| ==> s.shards[i] == {} && s.used[i] == 0)
    && (forall t :: 0 <= t < |s.threads| ==> s.threads[t] == Idle)
  }

  /**
   A swap that is about to succeed writes the word it compares with plus its own bit, and a
   released slot is in a shard whose number fits 16 bits.
   */
  predicate Agrees(s: State, t: nat, step: Step)
    requires t < |s.threads|
  {
    && (step.Run? && s.threads[t].Swap? ==> s.threads[t].want == s.threads[t].seen + {s.threads[t].bit})
    && (step.CallRelease? ==> step.slot / 64 < 65536)
  }

  // ----- Counting threads -----

  datatype Tag = Claiming(i: nat, bit: nat) | Counting(i: nat) | Uncounting(i: nat)

  predicate Has(th: Thread, tag: Tag) {
    match tag
    case Claiming(i, bit) => (th.Count? || th.Free? || th.FreeSwap?) && th.i == i && th.bit == bit
    case Counting(i) => th.Count? && th.i == i
    case Uncounting(i) => th.Uncount? && th.i == i
  }

  function Total(threads: seq<Thread>, tag: Tag): nat {
    if threads == [] then 0
    else Total(threads[..|threads| - 1], tag) + (if Has(threads[|threads| - 1], tag) then 1 else 0)
  }

  lemma {:induction false} TotalUpdate(threads: seq<Thread>, t: nat, th: Thread, tag: Tag)
    requires t < |threads|
    ensures Total(threads[t := th], tag) ==
            Total(threads, tag) - (if Has(threads[t], tag) then 1 else 0) + (if Has(th, tag) then 1 else 0)
    decreases |threads|
  {
    var n, threads' := |threads| - 1, threads[t := th];
    if t == n {
      assert threads'[..n] == threads[..n];
    } else {
      assert threads'[..n] == threads[..n][t := th];
      TotalUpdate(threads[..n], t, th, tag);
    }
  }

  lemma {:induction false} TotalIdle(threads: seq<Thread>, tag: Tag)
    requires forall t :: 0 <= t < |threads| ==> threads[t] == Idle
    ensures Total(threads, tag) == 0
    decreases |threads|
  {
    if threads != [] { TotalIdle(threads[..|threads| - 1], tag); }
  }

  lemma {:induction false} TotalHas(threads: seq<Thread>, t: nat, tag: Tag)
    requires t < |threads| && Has(threads[t], tag)
    ensures Total(threads, tag) >= 1
    decreases |threads|
  {
    if t < |threads| - 1 { TotalHas(threads[..|threads| - 1], t, tag); }
  }

  // ----- The invariant -----

  /** How many hold the slot: clients, and threads that have just set its bit or are about to clear it. */
  function Claims(s: State, i: nat, bit: nat): nat {
    s.held[Slot(i, bit)] + Total(s.threads, Claiming(i, bit))
  }

  /** A slot with its bit set has one claim, a free slot none. */
  predicate SlotOk(s: State, i: nat, bit: nat)
    requires i < |s.shards|
  {
    Claims(s, i, bit) == if bit in s.shards[i] then 1 else 0
  }

  /** The set bits of a shard, less the acquires and plus the releases not counted yet. */
  function Balance(s: State, i: nat): int
    requires i < |s.shards|
  {
    |s.shards[i]| - Total(s.threads, Counting(i)) + Total(s.threads, Uncounting(i))
  }

  /** The counter is the number of set bits, less the acquires and plus the releases not counted yet. */
  predicate CounterOk(s: State, i: nat)
    requires i < |s.shards| && i < |s.used|
  {
    s.used[i] == Byte(Balance(s, i))
  }

  predicate ThreadOk(s: State, t: nat)
    requires t < |s.threads|
  {
    match s.threads[t]
    case Load(_, _, i, _) => i < |s.shards|
    case Reload(_, _, i, _, seen, bit) => i < |s.shards| && bit < 64 && bit !in seen
    case Swap(_, _, i, _, seen, bit, want) => i < |s.shards| && bit < 64 && bit !in seen && bit in want
    case Count(i, bit) => i < |s.shards| && bit < 64
    case Free(i, bit) => i < |s.shards| && bit < 64
    case FreeSwap(i, bit, seen) => i < |s.shards| && bit < 64 && bit in seen
    case Uncount(i) => i < |s.shards|
    case _ => true
  }

  ghost predicate Inv(s: State) {
    && |s.used| == |s.shards|
    && (forall slot :: slot in s.held ==> slot / 64 < |s.shards|)
    && (forall t :: 0 <= t < |s.threads| ==> ThreadOk(s, t))
    && (forall i :: 0 <= i < |s.shards| ==> CounterOk(s, i))
    && (forall i, bit :: 0 <= i < |s.shards| && 0 <= bit < 64 ==> SlotOk(s, i, bit))
  }

  lemma InitialInv(s: State)
    requires Initial(s)
    ensures Inv(s)
  {
    forall i, bit | 0 <= i < |s.shards| && 0 <= bit < 64 ensures SlotOk(s, i, bit) {
      TotalIdle(s.threads, Claiming(i, bit));
    }
    forall i | 0 <= i < |s.shards| ensures CounterOk(s, i) {
      TotalIdle(s.threads, Counting(i));
      TotalIdle(s.threads, Uncounting(i));
    }
  }

  // ----- What a step changes -----

  lemma SlotIs(slot: nat)
    ensures Slot(slot / 64, BitOf(slot)) == slot
    ensures slot / 64 < 65536 ==> ShardOf(slot) == slot / 64
  {
  }

  lemma SlotUnique(i: nat, bit: nat, j: nat, b: nat)
    requires bit < 64 && b < 64
    ensures Slot(i, bit) == Slot(j, b) <==> i == j && bit == b
    ensures Slot(i, bit) / 64 == i
  {
  }

  /** 1 when the step is an access of a thread that satisfies `c`. */
  function If(c: bool): nat { if c then 1 else 0 }

  lemma HeldAfter(s: State, t: nat, step: Step, i: nat, bit: nat)
    requires Inv(s) && t < |s.threads| && Enabled(s, t, step) && i < |s.shards| && bit < 64
    ensures var th, s' := s.threads[t], Apply(s, t, step);
            s'.held[Slot(i, bit)] == s.held[Slot(i, bit)]
              + If(step.Run? && Has(th, Counting(i)) && th.bit == bit)
              - If(step.CallRelease? && step.slot == Slot(i, bit))
  {
    hide Total, SlotOk, CounterOk, FirstZero, Slot, ShardOf, BitOf;
    var th := s.threads[t];
    assert ThreadOk(s, t);
    if step.Run? && th.Count? { SlotUnique(i, bit, th.i, th.bit); }
  }

  lemma ClaimingAfter(s: State, t: nat, step: Step, i: nat, bit: nat)
    requires Inv(s) && t < |s.threads| && Enabled(s, t, step) && i < |s.shards| && bit < 64
    requires step.CallRelease? ==> step.slot / 64 < 65536
    ensures var th, tag, s' := s.threads[t], Claiming(i, bit), Apply(s, t, step);
            && s'.threads == s.threads[t := s'.threads[t]]
            && If(Has(s'.threads[t], tag)) == If(Has(th, tag))
              + If(step.Run? && th.Swap? && th.i == i && th.bit == bit)
              + If(step.CallRelease? && step.slot == Slot(i, bit))
              - If(step.Run? && Has(th, Counting(i)) && th.bit == bit)
              - If(step.Run? && th.FreeSwap? && Has(th, tag))
              - If(step.Run? && th.Free? && Has(th, tag) && bit !in s.shards[i])
  {
    if step.CallRelease? {
      hide Total, SlotOk, CounterOk, ThreadOk, Slot, ShardOf, BitOf;
      SlotIs(step.slot);
      BitBelow(step.slot);
      SlotUnique(i, bit, step.slot / 64, BitOf(step.slot));
    } else {
      hide Inv, Slot, ShardOf, BitOf;
      ClaimingRun(s, t, step, i, bit);
    }
  }

  lemma BitBelow(slot: nat)
    ensures BitOf(slot) < 64
  {
  }

  lemma ClaimingRun(s: State, t: nat, step: Step, i: nat, bit: nat)
    requires t < |s.threads| && Enabled(s, t, step) && i < |s.shards| && !step.CallRelease?
    ensures var th, tag, s' := s.threads[t], Claiming(i, bit), Apply(s, t, step);
            && s'.threads == s.threads[t := s'.threads[t]]
            && If(Has(s'.threads[t], tag)) == If(Has(th, tag))
              + If(step.Run? && th.Swap? && th.i == i && th.bit == bit)
              - If(step.Run? && Has(th, Counting(i)) && th.bit == bit)
              - If(step.Run? && th.FreeSwap? && Has(th, tag))
              - If(step.Run? && th.Free? && Has(th, tag) && bit !in s.shards[i])
  {
    hide Slot, FirstZero;
  }

  /** The claims on a slot after a step. */
  lemma ClaimsAfter(s: State, t: nat, step: Step, i: nat, bit: nat)
    requires Inv(s) && t < |s.threads| && Enabled(s, t, step) && i < |s.shards| && bit < 64
    requires step.CallRelease? ==> step.slot / 64 < 65536
    ensures var th, s' := s.threads[t], Apply(s, t, step);
            Claims(s', i, bit) == Claims(s, i, bit)
              + If(step.Run? && th.Swap? && th.i == i && th.bit == bit)
              - If(step.Run? && th.FreeSwap? && Has(th, Claiming(i, bit)))
              - If(step.Run? && th.Free? && Has(th, Claiming(i, bit)) && bit !in s.shards[i])
  {
    hide Total, Inv, Enabled, Apply, Slot, Has;
    HeldAfter(s, t, step, i, bit);
    ClaimingAfter(s, t, step, i, bit);
    TotalUpdate(s.threads, t, Apply(s, t, step).threads[t], Claiming(i, bit));
  }

  /** A release under way finds its bit set. */
  lemma ReleaseFindsBit(s: State, t: nat)
    requires Inv(s) && t < |s.threads| && (s.threads[t].Free? || s.threads[t].FreeSwap?)
    ensures s.threads[t].i < |s.shards| && s.threads[t].bit in s.shards[s.threads[t].i]
  {
    assert ThreadOk(s, t);
    var th := s.threads[t];
    TotalHas(s.threads, t, Claiming(th.i, th.bit));
    assert SlotOk(s, th.i, th.bit);
  }

  lemma SlotsKept(s: State, t: nat, step: Step, i: nat, bit: nat)
    requires Inv(s) && t < |s.threads| && Enabled(s, t, step) && Agrees(s, t, step) && i < |s.shards| && bit < 64
    ensures SlotOk(Apply(s, t, step), i, bit)
  {
    var th, s' := s.threads[t], Apply(s, t, step);
    assert ThreadOk(s, t) && SlotOk(s, i, bit);
    ClaimsAfter(s, t, step, i, bit);
    if th.Free? { ReleaseFindsBit(s, t); }
    hide Claims, CounterOk, FirstZero;
  }

  /** The set bits of a shard and the threads that have yet to count, after a step. */
  lemma CountedAfter(s: State, t: nat, step: Step, i: nat)
    requires t < |s.threads| && Enabled(s, t, step) && Agrees(s, t, step) && ThreadOk(s, t) && i < |s.shards|
    ensures var th, s' := s.threads[t], Apply(s, t, step);
            && |s'.shards| == |s.shards| && |s'.used| == |s.used| && s'.threads == s.threads[t := s'.threads[t]]
            && |s'.shards[i]| == |s.shards[i]| + If(step.Run? && th.Swap? && th.i == i) - If(step.Run? && th.FreeSwap? && th.i == i)
  {
    hide FirstZero, Slot, ShardOf, BitOf, Has;
  }

  lemma TagsAfter(s: State, t: nat, step: Step, i: nat)
    requires t < |s.threads| && Enabled(s, t, step)
    ensures var th, s' := s.threads[t], Apply(s, t, step);
            && s'.threads == s.threads[t := s'.threads[t]]
            && (Has(s'.threads[t], Counting(i)) <==> step.Run? && th.Swap? && th.i == i)
            && (Has(s'.threads[t], Uncounting(i)) <==> step.Run? && th.FreeSwap? && th.i == i)
            && (Has(th, Counting(i)) || Has(th, Uncounting(i)) ==> step.Run?)
            && !(Has(th, Counting(i)) && Has(th, Uncounting(i)))
  {
    hide FirstZero, Slot, ShardOf, BitOf;
    match step
    case CallAcquire(_, _) =>
    case CallRelease(_) =>
    case SwapFails =>
    case Run =>
      match s.threads[t]
      case Scan(_, _, _, _) =>
      case Load(_, _, _, _) =>
      case Reload(_, _, _, _, _, _) =>
      case Swap(_, _, _, _, _, _, _) =>
      case Count(_, _) =>
      case Free(_, _) =>
      case FreeSwap(_, _, _) =>
      case Uncount(_) =>
  }

  lemma UsedAfter(s: State, t: nat, step: Step, i: nat)
    requires t < |s.threads| && Enabled(s, t, step) && |s.used| == |s.shards| && i < |s.shards|
    ensures var th, s' := s.threads[t], Apply(s, t, step);
            && |s'.used| == |s.used|
            && s'.used[i] == if step.Run? && Has(th, Counting(i)) then Byte(s.used[i] + 1)
                             else if step.Run? && Has(th, Uncounting(i)) then Byte(s.used[i] + 255)
                             else s.used[i]
  {
    hide FirstZero, Slot, ShardOf, BitOf;
  }

  lemma ByteIs(n: int, q: int, r: int)
    requires n == 256 * q + r && 0 <= r < 256
    ensures Byte(n) == r
  {
    ModUnique(n, 256, q, r);
  }

  lemma ByteSteps(y: int)
    ensures Byte(Byte(y) + 1) == Byte(y + 1) && Byte(Byte(y) + 255) == Byte(y - 1)
  {
    var q, r := y / 256, y % 256;
    assert y == 256 * q + r;
    hide Byte;
    ByteIs(y, q, r);
    if r < 255 { ByteIs(y + 1, q, r + 1); ByteIs(r + 1, 0, r + 1); } else { ByteIs(y + 1, q + 1, 0); ByteIs(256, 1, 0); }
    if r > 0 { ByteIs(y - 1, q, r - 1); ByteIs(r + 255, 1, r - 1); } else { ByteIs(y - 1, q - 1, 255); ByteIs(255, 0, 255); }
  }

  lemma BalanceAfter(s: State, t: nat, step: Step, i: nat)
    requires t < |s.threads| && Enabled(s, t, step) && Agrees(s, t, step) && ThreadOk(s, t) && i < |s.shards|
    ensures var th, s' := s.threads[t], Apply(s, t, step);
            && |s'.shards| == |s.shards| && |s'.used| == |s.used|
            && Balance(s', i) == Balance(s, i)
                 + If(step.Run? && Has(th, Counting(i))) - If(step.Run? && Has(th, Uncounting(i)))
  {
    hide Total, Enabled, Apply, Has, Agrees, ThreadOk;
    var s' := Apply(s, t, step);
    CountedAfter(s, t, step, i);
    TagsAfter(s, t, step, i);
    TotalUpdate(s.threads, t, s'.threads[t], Counting(i));
    TotalUpdate(s.threads, t, s'.threads[t], Uncounting(i));
  }

  lemma CountersKept(s: State, t: nat, step: Step, i: nat)
    requires Inv(s) && t < |s.threads| && Enabled(s, t, step) && Agrees(s, t, step) && i < |s.shards|
    ensures |Apply(s, t, step).shards| == |s.shards| && |Apply(s, t, step).used| == |s.used| && CounterOk(Apply(s, t, step), i)
  {
    assert CounterOk(s, i) && ThreadOk(s, t);
    hide Inv, Enabled, Apply, Has, Agrees, ThreadOk, Byte, Balance;
    BalanceAfter(s, t, step, i);
    TagsAfter(s, t, step, i);
    UsedAfter(s, t, step, i);
    ByteSteps(Balance(s, i));
  }

  lemma ThreadsKept(s: State, t: nat, step: Step, u: nat)
    requires Inv(s) && t < |s.threads| && Enabled(s, t, step) && Agrees(s, t, step) && u < |s.threads|
    ensures |Apply(s, t, step).threads| == |s.threads| && ThreadOk(Apply(s, t, step), u)
  {
    assert ThreadOk(s, t) && ThreadOk(s, u);
    if step.CallRelease? {
      assert step.slot / 64 < |s.shards|;
      SlotIs(step.slot);
      BitBelow(step.slot);
    }
    hide Inv, ShardOf, BitOf, Slot;
    ThreadKept(s, t, step, u);
  }

  lemma ThreadKept(s: State, t: nat, step: Step, u: nat)
    requires t < |s.threads| && Enabled(s, t, step) && u < |s.threads| && ThreadOk(s, t) && ThreadOk(s, u)
    requires step.CallRelease? ==> ShardOf(step.slot) < |s.shards| && BitOf(step.slot) < 64
    ensures |Apply(s, t, step).threads| == |s.threads| && ThreadOk(Apply(s, t, step), u)
  {
    Others(s, t, step);
    if u == t {
      OwnThreadKept(s, t, step);
    }
    hide Enabled, Apply;
  }

  /** A step moves one thread, and never the number of shards. */
  lemma Others(s: State, t: nat, step: Step)
    requires t < |s.threads| && Enabled(s, t, step)
    ensures var s' := Apply(s, t, step);
            |s'.shards| == |s.shards| && |s'.used| == |s.used| && s'.threads == s.threads[t := s'.threads[t]]
  {
    hide FirstZero, ShardOf, BitOf, Slot, Byte;
    match step
    case CallAcquire(_, _) =>
    case CallRelease(_) =>
    case SwapFails =>
    case Run =>
      match s.threads[t]
      case Scan(_, _, _, _) =>
      case Load(_, _, _, _) =>
      case Reload(_, _, _, _, _, _) =>
      case Swap(_, _, _, _, _, _, _) =>
      case Count(_, _) =>
      case Free(_, _) =>
      case FreeSwap(_, _, _) =>
      case Uncount(_) =>
  }

  lemma OwnThreadKept(s: State, t: nat, step: Step)
    requires t < |s.threads| && Enabled(s, t, step) && ThreadOk(s, t)
    requires step.CallRelease? ==> ShardOf(step.slot) < |s.shards| && BitOf(step.slot) < 64
    ensures |Apply(s, t, step).threads| == |s.threads| && ThreadOk(Apply(s, t, step), t)
  {
    hide ShardOf, BitOf, Slot, Byte;
    match step
    case CallAcquire(_, _) =>
    case CallRelease(_) =>
    case SwapFails =>
    case Run =>
      match s.threads[t]
      case Scan(_, _, _, _) =>
      case Load(_, _, _, _) =>
      case Reload(_, _, _, _, _, _) =>
      case Swap(_, _, _, _, _, _, _) =>
      case Count(_, _) =>
      case Free(_, _) =>
      case FreeSwap(_, _, _) =>
      case Uncount(_) =>
  }

  lemma CountInRange(s: State, t: nat)
    requires t < |s.threads| && ThreadOk(s, t) && s.threads[t].Count?
    ensures s.threads[t].i < |s.shards| && s.threads[t].bit < 64
  {
  }

  lemma HeldMoves(s: State, t: nat, step: Step, slot: nat)
    requires t < |s.threads| && Enabled(s, t, step)
    ensures var th, s' := s.threads[t], Apply(s, t, step);
            && |s'.shards| == |s.shards| && |s'.used| == |s.used| && |s'.threads| == |s.threads|
            && (slot in s'.held ==> slot in s.held || (step.Run? && th.Count? && slot == Slot(th.i, th.bit)))
  {
    hide FirstZero, ShardOf, BitOf, Slot;
  }

  lemma HeldKept(s: State, t: nat, step: Step)
    requires Inv(s) && t < |s.threads| && Enabled(s, t, step)
    ensures var s' := Apply(s, t, step);
            && |s'.shards| == |s.shards| && |s'.used| == |s.used| && |s'.threads| == |s.threads|
            && forall slot :: slot in s'.held ==> slot / 64 < |s'.shards|
  {
    assert ThreadOk(s, t);
    hide SlotOk, CounterOk, ThreadOk, Slot, Apply, Enabled;
    var s' := Apply(s, t, step);
    HeldMoves(s, t, step, 0);
    forall slot | slot in s'.held ensures slot / 64 < |s'.shards| {
      HeldMoves(s, t, step, slot);
      if slot !in s.held {
        CountInRange(s, t);
        SlotUnique(s.threads[t].i, s.threads[t].bit, 0, 0);
      }
    }
  }

  lemma Keeps(s: State, t: nat, step: Step)
    requires Inv(s) && t < |s.threads| && Enabled(s, t, step) && Agrees(s, t, step)
    ensures Inv(Apply(s, t, step))
  {
    hide SlotOk, CounterOk, ThreadOk, Enabled, Apply, Agrees;
    var s' := Apply(s, t, step);
    HeldKept(s, t, step);
    forall u | 0 <= u < |s'.threads| ensures ThreadOk(s', u) { ThreadsKept(s, t, step, u); }
    forall i | 0 <= i < |s'.shards| ensures CounterOk(s', i) { CountersKept(s, t, step, i); }
    forall i, bit | 0 <= i < |s'.shards| && 0 <= bit < 64 ensures SlotOk(s', i, bit) { SlotsKept(s, t, step, i, bit); }
  }

  /**
   A step keeps the invariant exactly when it is neither a swap whose two reads disagreed nor the
   release of a slot whose shard number is cut to 16 bits.
   */
  lemma KeepsExactly(s: State, t: nat, step: Step)
    requires Inv(s) && t < |s.threads| && Enabled(s, t, step)
    ensures Inv(Apply(s, t, step)) <==> Agrees(s, t, step)
  {
    if Agrees(s, t, step) {
      Keeps(s, t, step);
    } else if step.CallRelease? {
      ReleaseElsewhere(s, t, step.slot);
    } else {
      Breaks(s, t);
    }
  }

  /** Releasing a slot of a shard beyond the 16-bit numbers leaves its bit set without an owner. */
  lemma ReleaseElsewhere(s: State, t: nat, slot: nat)
    requires Inv(s) && t < |s.threads| && Enabled(s, t, CallRelease(slot)) && slot / 64 >= 65536
    ensures !Inv(Apply(s, t, CallRelease(slot)))
  {
    var i, bit, s' := slot / 64, BitOf(slot), Apply(s, t, CallRelease(slot));
    SlotIs(slot);
    BitBelow(slot);
    HeldAfter(s, t, CallRelease(slot), i, bit);
    TotalUpdate(s.threads, t, s'.threads[t], Claiming(i, bit));
    assert SlotOk(s, i, bit);
    hide Total, CounterOk, Slot, BitOf;
    assert !SlotOk(s', i, bit);
  }

  /** Reads that disagree on a bit leave that bit set without an owner, or clear under its owner. */
  lemma Breaks(s: State, t: nat)
    requires Inv(s) && t < |s.threads| && Enabled(s, t, Run) && !Agrees(s, t, Run)
    ensures !Inv(Apply(s, t, Run))
  {
    var th, s' := s.threads[t], Apply(s, t, Run);
    assert ThreadOk(s, t);
    var bit: nat :| bit < 64 && bit != th.bit && (bit in th.want <==> bit !in th.seen) by {
      WordsDiffer(th.want, th.seen + {th.bit});
    }
    assert SlotOk(s, th.i, bit);
    ClaimsAfter(s, t, Run, th.i, bit);
    hide Claims, CounterOk;
    assert !SlotOk(s', th.i, bit);
  }

  lemma WordsDiffer(v: Word, w: Word)
    requires v != w
    ensures exists bit: nat :: bit < 64 && (bit in v <==> bit !in w)
  {
    assert (exists bit :: bit in v && bit !in w) || (exists bit :: bit in w && bit !in v);
  }

  // ----- Every run -----

  /** A run is a sequence of states with the thread and the step that leads to each. */
  datatype Action = Action(t: nat, step: Step)

  ghost predicate NextAt(run: seq<State>, acts: seq<Action>, i: nat)
    requires i < |acts| && |run| == |acts| + 1
  {
    && acts[i].t < |run[i].threads| && Enabled(run[i], acts[i].t, acts[i].step)
    && run[i + 1] == Apply(run[i], acts[i].t, acts[i].step)
  }

  ghost predicate IsRun(run: seq<State>, acts: seq<Action>) {
    && |run| == |acts| + 1 && Initial(run[0])
    && forall i :: 0 <= i < |acts| ==> NextAt(run, acts, i)
  }

  /** The action is not one of those that break the invariant. */
  ghost predicate AgreesAt(run: seq<State>, acts: seq<Action>, i: nat)
    requires i < |acts| && |run| == |acts| + 1 && NextAt(run, acts, i)
  {
    Agrees(run[i], acts[i].t, acts[i].step)
  }

  lemma {:induction false} RunInv(run: seq<State>, acts: seq<Action>, i: nat)
    requires IsRun(run, acts) && i < |run|
    requires forall j :: 0 <= j < i ==> AgreesAt(run, acts, j)
    ensures Inv(run[i])
  {
    hide Inv, Initial, Agrees, Apply, Enabled;
    if i == 0 {
      InitialInv(run[0]);
    } else {
      RunInv(run, acts, i - 1);
      assert NextAt(run, acts, i - 1) && AgreesAt(run, acts, i - 1);
      Keeps(run[i - 1], acts[i - 1].t, acts[i - 1].step);
    }
  }

  /**
   A run is sound in all its states if and only if no successful swap had two different reads and
   no released slot lay beyond the 16-bit shard numbers.
   */
  lemma RunsExactly(run: seq<State>, acts: seq<Action>)
    requires IsRun(run, acts)
    ensures (forall i :: 0 <= i < |run| ==> Inv(run[i])) <==> (forall i :: 0 <= i < |acts| ==> AgreesAt(run, acts, i))
  {
    hide Inv, Initial, Agrees, Apply, Enabled;
    if forall i :: 0 <= i < |acts| ==> AgreesAt(run, acts, i) {
      forall i | 0 <= i < |run| ensures Inv(run[i]) { RunInv(run, acts, i); }
    }
    if forall i :: 0 <= i < |run| ==> Inv(run[i]) {
      forall i | 0 <= i < |acts| ensures AgreesAt(run, acts, i) {
        assert NextAt(run, acts, i) && Inv(run[i]) && Inv(run[i + 1]);
        KeepsExactly(run[i], acts[i].t, acts[i].step);
      }
    }
  }

  /** No slot has two owners, and an owned slot has its bit set. */
  lemma OneOwner(s: State, slot: nat)
    requires Inv(s) && slot in s.held
    ensures s.held[slot] == 1 && slot / 64 < |s.shards| && BitOf(slot) in s.shards[slot / 64]
  {
    SlotIs(slot);
    assert SlotOk(s, slot / 64, BitOf(slot));
  }

  /** When no call is under way, the set bits are the owned slots and the counters count them. */
  lemma AtRest(s: State, i: nat)
    requires Inv(s) && i < |s.shards| && forall t :: 0 <= t < |s.threads| ==> s.threads[t] == Idle
    ensures s.used[i] == |s.shards[i]|
    ensures forall bit :: 0 <= bit < 64 ==> (bit in s.shards[i] <==> Slot(i, bit) in s.held)
  {
    assert CounterOk(s, i);
    TotalIdle(s.threads, Counting(i));
    TotalIdle(s.threads, Uncounting(i));
    SizeBelow(s.shards[i], 64);
    forall bit | 0 <= bit < 64 ensures bit in s.shards[i] <==> Slot(i, bit) in s.held {
      assert SlotOk(s, i, bit);
      TotalIdle(s.threads, Claiming(i, bit));
    }
  }

  /**
   A swap whose second read missed a bit that its first read and the shard have takes that slot
   from its owner: the next acquire of the shard can hand the slot out again.
   */
  lemma StaleReadFreesOwnedSlot(s: State, t: nat, bit: nat)
    requires Inv(s) && t < |s.threads| && s.threads[t].Swap? && Enabled(s, t, Run) && bit < 64
    requires bit in s.threads[t].seen && bit !in s.threads[t].want
    ensures Claims(Apply(s, t, Run), s.threads[t].i, bit) == 1 && bit !in Apply(s, t, Run).shards[s.threads[t].i]
  {
    assert ThreadOk(s, t);
    ClaimsAfter(s, t, Run, s.threads[t].i, bit);
    assert SlotOk(s, s.threads[t].i, bit);
  }
}
