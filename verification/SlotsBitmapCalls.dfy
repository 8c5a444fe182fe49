/**
 What the calls of the concurrent slot bitmap answer: which slot an acquire takes and when it
 fails, with nobody else moving and in every interleaving, and what a release does.
 */
module SlotsBitmapCalls {

  import opened Modulo
  import opened ShardWord
  import opened SlotsBitmapMpmc

  // ----- The shards an acquire visits -----

  /** The shard visited after `k` others. */
  function Place(start: nat, inc: nat, k: nat): nat { start + k * inc }

  lemma PlaceNext(start: nat, inc: nat, k: nat)
    ensures Place(start, inc, 0) == start && Place(start, inc, k + 1) == Place(start, inc, k) + inc
  {
  }

  lemma PlaceOrder(start: nat, inc: nat, k: nat, n: nat)
    requires k >= n
    ensures Place(start, inc, k) >= Place(start, inc, n)
  {
    assert k * inc >= n * inc;
  }

  predicate Full(w: Word) { FirstZero(w, 0) == 64 }

  /** An acquire passes the shard by: its counter says 64, or its word has no zero bit. */
  predicate Passed(s: State, i: nat)
    requires i < |s.shards| == |s.used|
  {
    s.used[i] == 64 || Full(s.shards[i])
  }

  // ----- Steps of one thread alone -----

  ghost predicate AloneAt(run: seq<State>, t: nat, i: nat)
    requires 0 < i < |run|
  {
    t < |run[i - 1].threads| && Enabled(run[i - 1], t, Run) && run[i] == Apply(run[i - 1], t, Run)
  }

  ghost predicate RunsAlone(run: seq<State>, t: nat) {
    run != [] && forall i :: 0 < i < |run| ==> AloneAt(run, t, i)
  }

  lemma OneAlone(s: State, t: nat)
    ensures RunsAlone([s], t)
  {
  }

  lemma Goes(run: seq<State>, t: nat) returns (run': seq<State>)
    requires RunsAlone(run, t) && t < |run[|run| - 1].threads| && Enabled(run[|run| - 1], t, Run)
    ensures RunsAlone(run', t) && run'[0] == run[0] && run'[|run'| - 1] == Apply(run[|run| - 1], t, Run)
  {
    hide Enabled, Apply;
    run' := run + [Apply(run[|run| - 1], t, Run)];
    forall i | 0 < i < |run'| ensures AloneAt(run', t, i) {
      if i < |run| { assert AloneAt(run, t, i); }
    }
  }

  /** The state with thread `t` at the scan of shard `i`. */
  function Scanning(s: State, t: nat, start: nat, inc: nat, i: nat): State
    requires t < |s.threads|
  {
    Move(s, t, Scan(start, inc, i, false))
  }

  lemma MoveTwice(s: State, t: nat, a: Thread, b: Thread)
    requires t < |s.threads|
    ensures Move(Move(s, t, a), t, b) == Move(s, t, b)
  {
  }

  /** A shard that is passed by. */
  lemma Skips(run: seq<State>, s: State, t: nat, start: nat, inc: nat, i: nat) returns (run': seq<State>)
    requires t < |s.threads| && i < |s.shards| == |s.used| && Passed(s, i)
    requires RunsAlone(run, t) && run[|run| - 1] == Scanning(s, t, start, inc, i)
    ensures RunsAlone(run', t) && run'[0] == run[0] && run'[|run'| - 1] == Scanning(s, t, start, inc, i + inc)
  {
    hide RunsAlone, FirstZero;
    MoveTwice(s, t, Scan(start, inc, i, false), Scan(start, inc, i + inc, false));
    run' := Goes(run, t);
    if s.used[i] != 64 {
      MoveTwice(s, t, Scan(start, inc, i, false), Load(start, inc, i, false));
      MoveTwice(s, t, Load(start, inc, i, false), Scan(start, inc, i + inc, false));
      run' := Goes(run', t);
    }
  }

  /** The state after an acquire has taken the lowest zero bit of shard `i`. */
  function Taken(s: State, i: nat): State
    requires i < |s.shards| == |s.used| && !Full(s.shards[i])
  {
    var b := FirstZero(s.shards[i], 0);
    s.(shards := s.shards[i := s.shards[i] + {b}], used := s.used[i := Byte(s.used[i] + 1)],
       held := s.held + multiset{Slot(i, b)})
  }

  /** A shard with a free slot: the lowest is taken. */
  lemma Takes(run: seq<State>, s: State, t: nat, start: nat, inc: nat, i: nat) returns (run': seq<State>)
    requires t < |s.threads| && i < |s.shards| == |s.used| && !Passed(s, i)
    requires RunsAlone(run, t) && run[|run| - 1] == Scanning(s, t, start, inc, i)
    ensures RunsAlone(run', t) && run'[0] == run[0] && run'[|run'| - 1] == Move(Taken(s, i), t, Idle)
  {
    hide RunsAlone, FirstZero;
    var w, b := s.shards[i], FirstZero(s.shards[i], 0);
    run' := Goes(run, t);
    MoveTwice(s, t, Scan(start, inc, i, false), Load(start, inc, i, false));
    run' := Goes(run', t);
    MoveTwice(s, t, Load(start, inc, i, false), Reload(start, inc, i, false, w, b));
    run' := Goes(run', t);
    MoveTwice(s, t, Reload(start, inc, i, false, w, b), Swap(start, inc, i, false, w, b, w + {b}));
    run' := Goes(run', t);
    MoveTwice(SetShard(s, i, w + {b}), t, Swap(start, inc, i, false, w, b, w + {b}), Count(i, b));
    run' := Goes(run', t);
    MoveTwice(Taken(s, i), t, Count(i, b), Idle);
  }

  lemma Ends(run: seq<State>, s: State, t: nat, start: nat, inc: nat, i: nat) returns (run': seq<State>)
    requires t < |s.threads| && i >= |s.shards|
    requires RunsAlone(run, t) && run[|run| - 1] == Scanning(s, t, start, inc, i)
    ensures RunsAlone(run', t) && run'[0] == run[0] && run'[|run'| - 1] == Move(s, t, Idle)
  {
    hide RunsAlone;
    run' := Goes(run, t);
    MoveTwice(s, t, Scan(start, inc, i, false), Idle);
  }

  /** The first `n` shards that an acquire visits are passed by. */
  predicate PassedUpTo(s: State, start: nat, inc: nat, n: nat)
    requires |s.shards| == |s.used|
  {
    forall k :: 0 <= k < n ==> PassedAt(s, start, inc, k)
  }

  predicate PassedAt(s: State, start: nat, inc: nat, k: nat)
    requires |s.shards| == |s.used|
  {
    Place(start, inc, k) < |s.shards| && Passed(s, Place(start, inc, k))
  }

  lemma {:induction false} SkipsTo(s: State, t: nat, start: nat, inc: nat, n: nat) returns (run: seq<State>)
    requires t < |s.threads| && |s.shards| == |s.used| && PassedUpTo(s, start, inc, n)
    ensures RunsAlone(run, t) && run[0] == Scanning(s, t, start, inc, start)
    ensures run[|run| - 1] == Scanning(s, t, start, inc, Place(start, inc, n))
    decreases n
  {
    hide RunsAlone, Passed, Place, Scanning;
    PlaceNext(start, inc, if n > 0 then n - 1 else 0);
    if n == 0 {
      run := [Scanning(s, t, start, inc, start)];
      OneAlone(run[0], t);
    } else {
      run := SkipsTo(s, t, start, inc, n - 1);
      assert PassedAt(s, start, inc, n - 1);
      run := Skips(run, s, t, start, inc, Place(start, inc, n - 1));
    }
  }

  // ----- An acquire that nobody disturbs -----

  /** The number of shards that an acquire with a positive step passes by. */
  lemma {:induction false} Stops(s: State, start: nat, inc: nat, n: nat) returns (m: nat)
    requires |s.shards| == |s.used| && inc > 0 && PassedUpTo(s, start, inc, n)
    ensures PassedUpTo(s, start, inc, m) && !PassedAt(s, start, inc, m)
    decreases if Place(start, inc, n) < |s.shards| then |s.shards| - Place(start, inc, n) else 0
  {
    hide Passed, Place;
    PlaceNext(start, inc, n);
    if PassedAt(s, start, inc, n) { m := Stops(s, start, inc, n + 1); } else { m := n; }
  }

  /** Every shard that an acquire visits is passed by. */
  ghost predicate AllPassed(s: State, start: nat, inc: nat)
    requires |s.shards| == |s.used|
  {
    forall k: nat :: Place(start, inc, k) < |s.shards| ==> PassedAt(s, start, inc, k)
  }

  lemma AllPassedIs(s: State, start: nat, inc: nat, n: nat)
    requires |s.shards| == |s.used| && PassedUpTo(s, start, inc, n) && !PassedAt(s, start, inc, n)
    ensures AllPassed(s, start, inc) <==> Place(start, inc, n) >= |s.shards|
  {
    hide Passed, Place;
    if Place(start, inc, n) >= |s.shards| {
      forall k: nat | Place(start, inc, k) < |s.shards| ensures PassedAt(s, start, inc, k) {
        if k >= n { PlaceOrder(start, inc, k, n); }
      }
    }
  }

  /**
   From every state, with all other threads at rest wherever they are: an acquire with a positive step
   takes the lowest zero bit of the first shard of `start`, `start + inc`, … that it does not pass by, and
   fails, leaving everything as it was, if and only if it passes by all of them.
   */
  lemma AcquireAlone(s: State, t: nat, start: nat, inc: nat) returns (run: seq<State>, n: nat)
    requires t < |s.threads| && s.threads[t].Idle? && |s.shards| == |s.used| && inc > 0
    ensures RunsAlone(run, t) && run[0] == Apply(s, t, CallAcquire(start, inc))
    ensures PassedUpTo(s, start, inc, n) && !PassedAt(s, start, inc, n)
    ensures var f, i := run[|run| - 1], Place(start, inc, n);
            && f == (if i < |s.shards| then Taken(s, i) else s)
            && (AllPassed(s, start, inc) <==> i >= |s.shards|)
            && (f == s <==> AllPassed(s, start, inc))
  {
    hide RunsAlone, Place, AllPassed;
    n := Stops(s, start, inc, 0);
    run := SkipsTo(s, t, start, inc, n);
    AllPassedIs(s, start, inc, n);
    IdleAgain(s, t);
    if Place(start, inc, n) < |s.shards| {
      IdleAgain(Taken(s, Place(start, inc, n)), t);
      run := Takes(run, s, t, start, inc, Place(start, inc, n));
      TakenDiffers(s, Place(start, inc, n));
    } else {
      run := Ends(run, s, t, start, inc, Place(start, inc, n));
    }
  }

  lemma IdleAgain(s: State, t: nat)
    requires t < |s.threads| && s.threads[t].Idle?
    ensures Move(s, t, Idle) == s
  {
  }

  lemma TakenDiffers(s: State, i: nat)
    requires i < |s.shards| == |s.used| && !Full(s.shards[i])
    ensures Taken(s, i) != s
  {
    assert |Taken(s, i).held| == |s.held| + 1;
  }

  /** With a step of 0 an acquire never ends if it passes by its one shard. */
  lemma {:induction false} StepZeroNeverEnds(s: State, t: nat, start: nat, run: seq<State>, i: nat)
    requires t < |s.threads| && s.threads[t].Idle? && start < |s.shards| == |s.used| && Passed(s, start)
    requires RunsAlone(run, t) && run[0] == Apply(s, t, CallAcquire(start, 0)) && i < |run|
    ensures run[i] == Move(s, t, Scan(start, 0, start, false)) || run[i] == Move(s, t, Load(start, 0, start, false))
    ensures run[i] == Move(s, t, Load(start, 0, start, false)) ==> Full(s.shards[start])
    ensures t < |run[i].threads| && !run[i].threads[t].Idle?
  {
    hide FirstZero;
    assert run[0].threads[t].Scan?;
    if i > 0 {
      StepZeroNeverEnds(s, t, start, run, i - 1);
      assert AloneAt(run, t, i);
      MoveTwice(s, t, Scan(start, 0, start, false), Scan(start, 0, start, false));
      MoveTwice(s, t, Scan(start, 0, start, false), Load(start, 0, start, false));
      MoveTwice(s, t, Load(start, 0, start, false), Scan(start, 0, start, false));
      assert run[i].threads[t].Load? ==> run[i - 1].threads[t].Scan?;
    }
  }

  // ----- Counters and free slots -----

  /** The claims of threads on the bits of a shard below `n`. */
  function ClaimsBelow(threads: seq<Thread>, i: nat, n: nat): nat {
    if n == 0 then 0 else ClaimsBelow(threads, i, n - 1) + Total(threads, Claiming(i, n - 1))
  }

  lemma {:induction false} ClaimsStep(threads: seq<Thread>, i: nat, n: nat)
    requires threads != []
    ensures var th := threads[|threads| - 1];
            ClaimsBelow(threads, i, n) >= ClaimsBelow(threads[..|threads| - 1], i, n)
            + (if Has(th, Counting(i)) && th.bit < n then 1 else 0)
  {
    if n > 0 { ClaimsStep(threads, i, n - 1); }
  }

  predicate BitsOk(threads: seq<Thread>) {
    forall t :: 0 <= t < |threads| && threads[t].Count? ==> threads[t].bit < 64
  }

  /** Each acquire that is not counted yet claims a bit of its own. */
  lemma {:induction false} CountingClaims(threads: seq<Thread>, i: nat)
    requires BitsOk(threads)
    ensures Total(threads, Counting(i)) <= ClaimsBelow(threads, i, 64)
    decreases |threads|
  {
    hide ClaimsBelow;
    if threads != [] {
      CountingClaims(threads[..|threads| - 1], i);
      ClaimsStep(threads, i, 64);
    }
  }

  /** The bits of a word below `n`. */
  function BitsBelow(w: Word, n: nat): set<nat> { set b | b in w && b < n }

  lemma {:induction false} ClaimsAreBits(s: State, i: nat, n: nat)
    requires Inv(s) && i < |s.shards| && n <= 64
    ensures ClaimsBelow(s.threads, i, n) <= |BitsBelow(s.shards[i], n)|
  {
    hide Total;
    if n > 0 {
      ClaimsAreBits(s, i, n - 1);
      assert SlotOk(s, i, n - 1);
      var w := s.shards[i];
      if n - 1 in w {
        assert BitsBelow(w, n) == BitsBelow(w, n - 1) + {n - 1};
      } else {
        assert BitsBelow(w, n) == BitsBelow(w, n - 1);
      }
    }
  }

  lemma CountingBound(s: State, i: nat)
    requires Inv(s) && i < |s.shards|
    ensures Total(s.threads, Counting(i)) <= |s.shards[i]| <= 64
  {
    forall t | 0 <= t < |s.threads| && s.threads[t].Count? ensures s.threads[t].bit < 64 { assert ThreadOk(s, t); }
    hide Inv, Total, ClaimsBelow;
    CountingClaims(s.threads, i);
    ClaimsAreBits(s, i, 64);
    assert BitsBelow(s.shards[i], 64) == s.shards[i];
    SizeBelow(s.shards[i], 64);
  }

  lemma FullIs(w: Word)
    ensures Full(w) <==> |w| == 64
  {
    SizeBelow(w, 64);
    if Full(w) { assert forall b :: 0 <= b < 64 ==> b in w; }
  }

  /** No release is between clearing a bit of the shard and counting it. */
  predicate Settled(s: State, i: nat) {
    forall t :: 0 <= t < |s.threads| ==> !Has(s.threads[t], Uncounting(i))
  }

  lemma {:induction false} NoneUncounting(threads: seq<Thread>, i: nat)
    requires forall t :: 0 <= t < |threads| ==> !Has(threads[t], Uncounting(i))
    ensures Total(threads, Uncounting(i)) == 0
    decreases |threads|
  {
    if threads != [] { NoneUncounting(threads[..|threads| - 1], i); }
  }

  /** In a sound state, a shard is passed by exactly when it is full, unless a release is about to count. */
  lemma PassedIsFull(s: State, i: nat)
    requires Inv(s) && i < |s.shards| && Settled(s, i)
    ensures Passed(s, i) <==> Full(s.shards[i])
  {
    assert CounterOk(s, i);
    hide Inv, Total, FirstZero;
    CountingBound(s, i);
    NoneUncounting(s.threads, i);
    FullIs(s.shards[i]);
  }

  /** A release that has cleared a bit of a full shard and not counted it: the shard is still passed by. */
  lemma StaleCounter(s: State, t: nat)
    requires Inv(s) && t < |s.threads| && s.threads[t].FreeSwap? && Enabled(s, t, Run)
    requires var i := s.threads[t].i; i < |s.shards| && Full(s.shards[i]) && s.used[i] == 64
    ensures var s', i := Apply(s, t, Run), s.threads[t].i;
            |s'.shards| == |s'.used| == |s.shards| && Passed(s', i) && !Full(s'.shards[i])
  {
    var FreeSwap(i, bit, seen) := s.threads[t];
    assert ThreadOk(s, t);
    hide Inv, Total, FirstZero;
    FullIs(seen);
    FullIs(seen - {bit});
  }

  /**
   From every sound state in which no release is between clearing and counting: an undisturbed acquire with
   a positive step takes the lowest zero bit of the first visited shard that has one, and fails if and
   only if every visited shard is full.
   */
  lemma AcquireLowest(s: State, t: nat, start: nat, inc: nat) returns (run: seq<State>, n: nat)
    requires Inv(s) && t < |s.threads| && s.threads[t].Idle? && inc > 0
    requires forall i :: 0 <= i < |s.shards| ==> Settled(s, i)
    ensures RunsAlone(run, t) && run[0] == Apply(s, t, CallAcquire(start, inc))
    ensures forall k :: 0 <= k < n ==> Place(start, inc, k) < |s.shards| && Full(s.shards[Place(start, inc, k)])
    ensures var f, i := run[|run| - 1], Place(start, inc, n);
            && (i < |s.shards| ==> !Full(s.shards[i]))
            && f == (if i < |s.shards| then Taken(s, i) else s)
            && (f == s <==> forall k: nat :: Place(start, inc, k) < |s.shards| ==> Full(s.shards[Place(start, inc, k)]))
  {
    assert |s.shards| == |s.used|;
    forall i | 0 <= i < |s.shards| ensures Passed(s, i) <==> Full(s.shards[i]) { PassedIsFull(s, i); }
    hide Inv, RunsAlone, Place, Passed, Full, Settled;
    run, n := AcquireAlone(s, t, start, inc);
    forall k | 0 <= k < n ensures Place(start, inc, k) < |s.shards| && Full(s.shards[Place(start, inc, k)]) {
      assert PassedAt(s, start, inc, k);
    }
    forall k: nat | Place(start, inc, k) < |s.shards|
      ensures PassedAt(s, start, inc, k) <==> Full(s.shards[Place(start, inc, k)])
    {
    }
  }

  // ----- A release that nobody disturbs -----

  /**
   From every sound state, an undisturbed release of a held slot whose shard number fits 16 bits clears
   its bit and counts it, and changes nothing else.
   */
  lemma ReleaseAlone(s: State, t: nat, slot: nat) returns (run: seq<State>)
    requires Inv(s) && t < |s.threads| && s.threads[t].Idle? && slot in s.held && slot / 64 < 65536
    ensures RunsAlone(run, t) && run[0] == Apply(s, t, CallRelease(slot))
    ensures var f, i, b := run[|run| - 1], slot / 64, slot % 64;
            && i < |s.shards| == |s.used| && b in s.shards[i]
            && f == s.(shards := s.shards[i := s.shards[i] - {b}], used := s.used[i := Byte(s.used[i] + 255)],
                       held := s.held - multiset{slot})
  {
    var i, b := slot / 64, slot % 64;
    SlotIs(slot);
    HeldBit(s, slot);
    hide Inv, RunsAlone, Slot;
    var s' := s.(held := s.held - multiset{slot});
    run := [Apply(s, t, CallRelease(slot))];
    OneAlone(run[0], t);
    var w := s.shards[i];
    run := Goes(run, t);
    MoveTwice(s', t, Free(i, b), FreeSwap(i, b, w));
    run := Goes(run, t);
    MoveTwice(SetShard(s', i, w - {b}), t, FreeSwap(i, b, w), Uncount(i));
    run := Goes(run, t);
    var f := SetUsed(SetShard(s', i, w - {b}), i, Byte(s.used[i] + 255));
    MoveTwice(f, t, Uncount(i), Idle);
    IdleAgain(f, t);
  }

  lemma HeldBit(s: State, slot: nat)
    requires Inv(s) && slot in s.held
    ensures slot / 64 < |s.shards| == |s.used| && slot % 64 in s.shards[slot / 64]
  {
    assert SlotOk(s, slot / 64, slot % 64);
    SlotIs(slot);
  }

  // ----- A failed acquire, in every interleaving -----

  /** The thread is in an acquire of this start and step. */
  predicate Acquiring(th: Thread, start: nat, inc: nat) {
    (th.Scan? || th.Load? || th.Reload? || th.Swap?) && th.start == start && th.step == inc
  }

  ghost predicate During(run: seq<State>, t: nat, start: nat, inc: nat, c: nat, i: nat)
    requires i < |run|
  {
    c <= i && forall m :: c <= m <= i ==> t < |run[m].threads| && Acquiring(run[m].threads[t], start, inc)
  }

  /** At some moment from `c` to `i` the shard was passed by. */
  ghost predicate Saw(run: seq<State>, c: nat, i: nat, x: nat)
    requires i < |run|
  {
    exists m :: c <= m <= i && WasPassed(run[m], x)
  }

  predicate WasPassed(s: State, x: nat) { x < |s.shards| == |s.used| && Passed(s, x) }

  /** What an acquire has seen since it was called at `c`, having passed by `n` shards since it last started over. */
  ghost predicate Searched(run: seq<State>, t: nat, i: nat, c: nat, n: nat)
    requires i < |run| && t < |run[i].threads|
  {
    var th := run[i].threads[t];
    && (th.Scan? || th.Load? || th.Reload? || th.Swap?) && During(run, t, th.start, th.step, c, i)
    && (!th.again ==> th.i == Place(th.start, th.step, n) &&
                      forall k :: 0 <= k < n ==> Saw(run, c, i, Place(th.start, th.step, k)))
  }

  /** What one access of an acquire does to its place. */
  predicate Searches(s: State, th: Thread, th': Thread, step: Step) {
    && (step.CallAcquire? ==> th' == Scan(step.start, step.step, step.start, false))
    && (!step.CallAcquire? && Working(th') ==>
          && Working(th) && Acquiring(th', th.start, th.step)
          && (!th'.again ==>
                || (!th.again && th'.i == th.i)
                || (!th.again && th'.i == th.i + th.step && WasPassed(s, th.i))
                || (th.again && th'.i == th.start)))
    && (th.Scan? && th'.Idle? ==> th.i >= |s.shards| && !th.again)
  }

  /** The step changes only the stepping thread and no number of shards. */
  predicate SameShape(s: State, s': State, t: nat) {
    && t < |s.threads| == |s'.threads| && s'.threads == s.threads[t := s'.threads[t]]
    && |s'.shards| == |s.shards| && |s'.used| == |s.used|
  }

  lemma ShapeStays(s: State, t: nat, step: Step)
    requires t < |s.threads| && Enabled(s, t, step)
    ensures SameShape(s, Apply(s, t, step), t)
  {
    hide FirstZero, ShardOf, BitOf, Slot, Byte;
  }

  lemma ScanMoves(s: State, t: nat)
    requires t < |s.threads| && Enabled(s, t, Run) && |s.shards| == |s.used| && Working(s.threads[t])
    ensures t < |Apply(s, t, Run).threads| && Searches(s, s.threads[t], Apply(s, t, Run).threads[t], Run)
  {
    hide FirstZero, Slot, Byte;
  }

  lemma OtherMoves(s: State, t: nat, step: Step)
    requires t < |s.threads| && Enabled(s, t, step) && (!step.Run? || !Working(s.threads[t]))
    ensures t < |Apply(s, t, step).threads| && Searches(s, s.threads[t], Apply(s, t, step).threads[t], step)
  {
    hide FirstZero, ShardOf, BitOf, Slot, Byte;
  }

  lemma AcquireMoves(s: State, t: nat, step: Step)
    requires t < |s.threads| && Enabled(s, t, step) && |s.shards| == |s.used|
    ensures SameShape(s, Apply(s, t, step), t) && Searches(s, s.threads[t], Apply(s, t, step).threads[t], step)
  {
    hide Apply, Enabled, Searches;
    ShapeStays(s, t, step);
    if step.Run? && Working(s.threads[t]) { ScanMoves(s, t); } else { OtherMoves(s, t, step); }
  }

  predicate Working(th: Thread) { th.Scan? || th.Load? || th.Reload? || th.Swap? }

  lemma DuringGrows(run: seq<State>, t: nat, start: nat, inc: nat, c: nat, i: nat)
    requires i + 1 < |run| && During(run, t, start, inc, c, i)
    requires t < |run[i + 1].threads| && Acquiring(run[i + 1].threads[t], start, inc)
    ensures During(run, t, start, inc, c, i + 1)
  {
  }

  lemma SawGrows(run: seq<State>, c: nat, i: nat, x: nat)
    requires i + 1 < |run| && Saw(run, c, i, x)
    ensures Saw(run, c, i + 1, x)
  {
    var m :| c <= m <= i && WasPassed(run[m], x);
    assert WasPassed(run[m], x);
  }

  /** The thread has not moved. */
  lemma SearchedStays(run: seq<State>, t: nat, i: nat, c: nat, n: nat)
    requires i + 1 < |run| && t < |run[i].threads| && t < |run[i + 1].threads| && Searched(run, t, i, c, n)
    requires run[i + 1].threads[t] == run[i].threads[t]
    ensures Searched(run, t, i + 1, c, n)
  {
    hide During, Saw, Place;
    var th := run[i].threads[t];
    AcquiringSelf(th);
    DuringGrows(run, t, th.start, th.step, c, i);
    forall k | 0 <= k < n && !th.again ensures Saw(run, c, i + 1, Place(th.start, th.step, k)) {
      SawGrows(run, c, i, Place(th.start, th.step, k));
    }
  }

  lemma AcquiringSelf(th: Thread)
    requires Working(th)
    ensures Acquiring(th, th.start, th.step)
  {
  }

  lemma SearchedGoes(run: seq<State>, t: nat, i: nat, c: nat, n: nat, step: Step) returns (n': nat)
    requires i + 1 < |run| && t < |run[i].threads| && Searched(run, t, i, c, n) && |run[i].shards| == |run[i].used|
    requires Enabled(run[i], t, step) && run[i + 1] == Apply(run[i], t, step) && !step.CallAcquire?
    ensures t < |run[i + 1].threads|
    ensures Working(run[i + 1].threads[t]) ==> Searched(run, t, i + 1, c, n')
  {
    hide During, Saw, Place, Enabled, Apply, WasPassed;
    AcquireMoves(run[i], t, step);
    var th, th' := run[i].threads[t], run[i + 1].threads[t];
    n' := 0;
    if Working(th') {
      DuringGrows(run, t, th.start, th.step, c, i);
      PlaceNext(th.start, th.step, n);
      if !th'.again && !th.again {
        forall k | 0 <= k < n ensures Saw(run, c, i + 1, Place(th.start, th.step, k)) {
          SawGrows(run, c, i, Place(th.start, th.step, k));
        }
        if th'.i == th.i {
          n' := n;
        } else {
          n' := n + 1;
          SawNow(run, t, th.start, th.step, c, i, th.i);
        }
      }
    }
  }

  lemma SawNow(run: seq<State>, t: nat, start: nat, inc: nat, c: nat, i: nat, x: nat)
    requires i + 1 < |run| && During(run, t, start, inc, c, i) && WasPassed(run[i], x)
    ensures Saw(run, c, i + 1, x)
  {
    hide WasPassed;
  }

  lemma SearchBegins(run: seq<State>, t: nat, i: nat, step: Step)
    requires i + 1 < |run| && t < |run[i].threads| && |run[i].shards| == |run[i].used|
    requires step.CallAcquire? && Enabled(run[i], t, step) && run[i + 1] == Apply(run[i], t, step)
    ensures t < |run[i + 1].threads| && Searched(run, t, i + 1, i + 1, 0)
  {
    hide Place;
    PlaceNext(step.start, step.step, 0);
  }

  lemma {:induction false} RunSearches(run: seq<State>, acts: seq<Action>, t: nat, i: nat) returns (c: nat, n: nat)
    requires IsRun(run, acts) && i < |run| && t < |run[0].threads|
    ensures |run[i].threads| == |run[0].threads| && |run[i].shards| == |run[i].used|
    ensures Working(run[i].threads[t]) ==> Searched(run, t, i, c, n)
    decreases i
  {
    hide Enabled, Apply, Searched, Working;
    c, n := 0, 0;
    if i == 0 {
      IdleWorks(run[0], t);
    } else {
      c, n := RunSearches(run, acts, t, i - 1);
      assert NextAt(run, acts, i - 1);
      var u, step := acts[i - 1].t, acts[i - 1].step;
      AcquireMoves(run[i - 1], u, step);
      if u != t {
        if Working(run[i].threads[t]) { SearchedStays(run, t, i - 1, c, n); }
      } else if step.CallAcquire? {
        SearchBegins(run, t, i - 1, step);
        c, n := i, 0;
      } else if Working(run[i].threads[t]) {
        WorkedBefore(run[i - 1], t, step);
        n := SearchedGoes(run, t, i - 1, c, n, step);
      }
    }
  }

  lemma IdleWorks(s: State, t: nat)
    requires Initial(s) && t < |s.threads|
    ensures !Working(s.threads[t]) && |s.shards| == |s.used|
  {
  }

  lemma WorkedBefore(s: State, t: nat, step: Step)
    requires t < |s.threads| && Enabled(s, t, step) && |s.shards| == |s.used| && !step.CallAcquire?
    requires t < |Apply(s, t, step).threads| && Working(Apply(s, t, step).threads[t])
    ensures Working(s.threads[t])
  {
    hide Enabled, Apply;
    AcquireMoves(s, t, step);
  }

  /**
   In every interleaving: an acquire that ends without a slot has, since it was called, passed by every
   shard of `start`, `start + inc`, … at some moment.
   */
  lemma FailureSawAll(run: seq<State>, acts: seq<Action>, t: nat, i: nat) returns (c: nat)
    requires IsRun(run, acts) && i < |acts| && acts[i].t == t && t < |run[i].threads| && t < |run[i + 1].threads|
    requires run[i].threads[t].Scan? && run[i + 1].threads[t].Idle?
    ensures var th := run[i].threads[t];
            && During(run, t, th.start, th.step, c, i)
            && forall k: nat :: Place(th.start, th.step, k) < |run[i].shards| ==> Saw(run, c, i, Place(th.start, th.step, k))
  {
    hide Enabled, Apply, Place, Saw, During, Initial;
    assert NextAt(run, acts, i);
    SameThreads(run, acts, i);
    var n;
    c, n := RunSearches(run, acts, t, i);
    AcquireMoves(run[i], t, acts[i].step);
    var th := run[i].threads[t];
    forall k: nat | Place(th.start, th.step, k) < |run[i].shards| ensures Saw(run, c, i, Place(th.start, th.step, k)) {
      if k >= n { PlaceOrder(th.start, th.step, k, n); }
    }
  }

  lemma {:induction false} SameThreads(run: seq<State>, acts: seq<Action>, i: nat)
    requires IsRun(run, acts) && i < |run|
    ensures |run[i].threads| == |run[0].threads| && |run[i].shards| == |run[i].used|
  {
    hide Enabled, Apply;
    if i > 0 {
      SameThreads(run, acts, i - 1);
      assert NextAt(run, acts, i - 1);
      AcquireMoves(run[i - 1], acts[i - 1].t, acts[i - 1].step);
    }
  }
}
