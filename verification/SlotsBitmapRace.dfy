/**
 A run of the concurrent slot bitmap in which one slot is handed out twice: an acquire reads the
 shard before and after a release, and swaps when the slot has been acquired again.
 */
module SlotsBitmapRace {

  import opened ShardWord
  import opened SlotsBitmapMpmc

  datatype Outcome = Stuck | Ends(state: State)

  /** The state after a sequence of actions. */
  function Exec(s: State, acts: seq<Action>): Outcome
    decreases |acts|
  {
    if acts == [] then Ends(s)
    else if acts[0].t < |s.threads| && Enabled(s, acts[0].t, acts[0].step) then
      Exec(Apply(s, acts[0].t, acts[0].step), acts[1..])
    else Stuck
  }

  lemma {:induction false} ExecConcat(s: State, a: seq<Action>, b: seq<Action>)
    requires Exec(s, a).Ends?
    ensures Exec(s, a + b) == Exec(Exec(s, a).state, b)
    decreases |a|
  {
    hide Enabled, Apply;
    if a == [] {
      assert a + b == b;
    } else {
      assert (a + b)[1..] == a[1..] + b;
      ExecConcat(Apply(s, a[0].t, a[0].step), a[1..], b);
    }
  }

  lemma {:induction false} ExecIsRun(s: State, acts: seq<Action>) returns (run: seq<State>)
    requires Exec(s, acts).Ends?
    ensures |run| == |acts| + 1 && run[0] == s && Ends(run[|acts|]) == Exec(s, acts)
    ensures forall i :: 0 <= i < |acts| ==> NextAt(run, acts, i)
    decreases |acts|
  {
    hide Enabled, Apply;
    if acts == [] {
      run := [s];
    } else {
      var rest := ExecIsRun(Apply(s, acts[0].t, acts[0].step), acts[1..]);
      run := [s] + rest;
      forall i | 0 <= i < |acts| ensures NextAt(run, acts, i) {
        assert i > 0 ==> NextAt(rest, acts[1..], i - 1);
      }
    }
  }

  ghost predicate Reaches(s: State, s': State) {
    exists acts :: Exec(s, acts) == Ends(s')
  }

  lemma Chain(s: State, m: State, s': State)
    requires Reaches(s, m) && Reaches(m, s')
    ensures Reaches(s, s')
  {
    hide Exec;
    var a :| Exec(s, a) == Ends(m);
    var b :| Exec(m, b) == Ends(s');
    ExecConcat(s, a, b);
  }

  /** One more action before the rest. */
  lemma Then(s: State, t: nat, step: Step, m: State, s': State)
    requires t < |s.threads| && Enabled(s, t, step) && Apply(s, t, step) == m && Reaches(m, s')
    ensures Reaches(s, s')
  {
    hide Enabled, Apply;
    var b :| Exec(m, b) == Ends(s');
    var acts := [Action(t, step)] + b;
    assert acts[1..] == b;
    assert Exec(s, acts) == Ends(s');
  }

  lemma Here(s: State)
    ensures Reaches(s, s)
  {
    assert Exec(s, []) == Ends(s);
  }

  /** One shard and two threads. */
  function Pair(w: Word, used: nat, a: Thread, b: Thread, held: multiset<nat>): State {
    State([w], [used], [a, b], held)
  }

  lemma AcquireEnds(w: Word, used: nat, b: Thread, held: multiset<nat>, bit: nat)
    requires bit < 64 && used < 64
    ensures Reaches(Pair(w, used, Swap(0, 1, 0, false, w, bit, w + {bit}), b, held),
                    Pair(w + {bit}, used + 1, Idle, b, held + multiset{bit}))
  {
    hide Reaches;
    var swap := Pair(w, used, Swap(0, 1, 0, false, w, bit, w + {bit}), b, held);
    var count := Pair(w + {bit}, used, Count(0, bit), b, held);
    var end := Pair(w + {bit}, used + 1, Idle, b, held + multiset{bit});
    Here(end);
    Then(count, 0, Run, end, end);
    Then(swap, 0, Run, count, end);
  }

  lemma AcquireReads(w: Word, used: nat, b: Thread, held: multiset<nat>, bit: nat)
    requires bit == FirstZero(w, 0) < 64 && used < 64
    ensures Reaches(Pair(w, used, Load(0, 1, 0, false), b, held),
                    Pair(w, used, Swap(0, 1, 0, false, w, bit, w + {bit}), b, held))
  {
    hide Reaches, FirstZero;
    var load := Pair(w, used, Load(0, 1, 0, false), b, held);
    var reload := Pair(w, used, Reload(0, 1, 0, false, w, bit), b, held);
    var swap := Pair(w, used, Swap(0, 1, 0, false, w, bit, w + {bit}), b, held);
    Here(swap);
    Then(reload, 0, Run, swap, swap);
    Then(load, 0, Run, reload, swap);
  }

  lemma AcquireStarts(w: Word, used: nat, b: Thread, held: multiset<nat>)
    requires used < 64
    ensures Reaches(Pair(w, used, Idle, b, held), Pair(w, used, Load(0, 1, 0, false), b, held))
  {
    hide Reaches, FirstZero;
    var scan := Pair(w, used, Scan(0, 1, 0, false), b, held);
    var load := Pair(w, used, Load(0, 1, 0, false), b, held);
    Here(load);
    Then(scan, 0, Run, load, load);
    Then(Pair(w, used, Idle, b, held), 0, CallAcquire(0, 1), scan, load);
  }

  /** An acquire that nobody disturbs. */
  lemma QuietAcquire(w: Word, used: nat, b: Thread, held: multiset<nat>, bit: nat, end: State)
    requires bit == FirstZero(w, 0) < 64 && used < 64
    requires end == Pair(w + {bit}, used + 1, Idle, b, held + multiset{bit})
    ensures Reaches(Pair(w, used, Idle, b, held), end)
  {
    hide Reaches, FirstZero, Pair;
    AcquireStarts(w, used, b, held);
    AcquireReads(w, used, b, held, bit);
    AcquireEnds(w, used, b, held, bit);
    var idle, load := Pair(w, used, Idle, b, held), Pair(w, used, Load(0, 1, 0, false), b, held);
    Chain(idle, load, Pair(w, used, Swap(0, 1, 0, false, w, bit, w + {bit}), b, held));
    Chain(idle, Pair(w, used, Swap(0, 1, 0, false, w, bit, w + {bit}), b, held), end);
  }

  /** A release that nobody disturbs. */
  lemma QuietRelease(b: Thread)
    ensures Reaches(Pair({0}, 1, Idle, b, multiset{0}), Pair({}, 0, Idle, b, multiset{}))
  {
    hide Reaches, Pair;
    ReleaseStarts(b);
    ReleaseEnds(b);
    Chain(Pair({0}, 1, Idle, b, multiset{0}), Pair({0}, 1, FreeSwap(0, 0, {0}), b, multiset{}), Pair({}, 0, Idle, b, multiset{}));
  }

  lemma ReleaseStarts(b: Thread)
    ensures Reaches(Pair({0}, 1, Idle, b, multiset{0}), Pair({0}, 1, FreeSwap(0, 0, {0}), b, multiset{}))
  {
    hide Reaches;
    var free, swap := Pair({0}, 1, Free(0, 0), b, multiset{}), Pair({0}, 1, FreeSwap(0, 0, {0}), b, multiset{});
    Here(swap);
    Then(free, 0, Run, swap, swap);
    Then(Pair({0}, 1, Idle, b, multiset{0}), 0, CallRelease(0), free, swap);
  }

  lemma ReleaseEnds(b: Thread)
    ensures Reaches(Pair({0}, 1, FreeSwap(0, 0, {0}), b, multiset{}), Pair({}, 0, Idle, b, multiset{}))
  {
    hide Reaches;
    var uncount, end := Pair({}, 1, Uncount(0), b, multiset{}), Pair({}, 0, Idle, b, multiset{});
    Here(end);
    Then(uncount, 0, Run, end, end);
    assert {0} - {0} == {};
    Then(Pair({0}, 1, FreeSwap(0, 0, {0}), b, multiset{}), 0, Run, uncount, end);
  }

  /** The other thread finds slot 1 free while slot 0 is taken. */
  lemma FirstRead()
    ensures Reaches(Pair({0}, 1, Idle, Idle, multiset{0}), Pair({0}, 1, Idle, Reload(0, 1, 0, false, {0}, 1), multiset{0}))
  {
    assert FirstZero({0}, 0) == 1;
    hide Reaches, FirstZero;
    var scan := Pair({0}, 1, Idle, Scan(0, 1, 0, false), multiset{0});
    var load := Pair({0}, 1, Idle, Load(0, 1, 0, false), multiset{0});
    var end := Pair({0}, 1, Idle, Reload(0, 1, 0, false, {0}, 1), multiset{0});
    Here(end);
    Then(load, 1, Run, end, end);
    Then(scan, 1, Run, load, end);
    Then(Pair({0}, 1, Idle, Idle, multiset{0}), 1, CallAcquire(0, 1), scan, end);
  }

  /** It reads the shard again when slot 0 is free. */
  lemma SecondRead()
    ensures Reaches(Pair({}, 0, Idle, Reload(0, 1, 0, false, {0}, 1), multiset{}),
                    Pair({}, 0, Idle, Swap(0, 1, 0, false, {0}, 1, {1}), multiset{}))
  {
    hide Reaches;
    var end := Pair({}, 0, Idle, Swap(0, 1, 0, false, {0}, 1, {1}), multiset{});
    Here(end);
    assert {} + {1} == {1};
    Then(Pair({}, 0, Idle, Reload(0, 1, 0, false, {0}, 1), multiset{}), 1, Run, end, end);
  }

  /** It swaps when slot 0 is taken again, and so clears its bit. */
  lemma StaleSwap()
    ensures Reaches(Pair({0}, 1, Idle, Swap(0, 1, 0, false, {0}, 1, {1}), multiset{0}),
                    Pair({1}, 2, Idle, Idle, multiset{0, 1}))
  {
    hide Reaches, Pair;
    var count, end := Pair({1}, 1, Idle, Count(0, 1), multiset{0}), Pair({1}, 2, Idle, Idle, multiset{0, 1});
    StaleCount();
    StaleWrite();
    Chain(Pair({0}, 1, Idle, Swap(0, 1, 0, false, {0}, 1, {1}), multiset{0}), count, end);
  }

  lemma StaleWrite()
    ensures Reaches(Pair({0}, 1, Idle, Swap(0, 1, 0, false, {0}, 1, {1}), multiset{0}),
                    Pair({1}, 1, Idle, Count(0, 1), multiset{0}))
  {
    hide Reaches;
    var end := Pair({1}, 1, Idle, Count(0, 1), multiset{0});
    Here(end);
    Then(Pair({0}, 1, Idle, Swap(0, 1, 0, false, {0}, 1, {1}), multiset{0}), 1, Run, end, end);
  }

  lemma StaleCount()
    ensures Reaches(Pair({1}, 1, Idle, Count(0, 1), multiset{0}), Pair({1}, 2, Idle, Idle, multiset{0, 1}))
  {
    hide Reaches;
    var end := Pair({1}, 2, Idle, Idle, multiset{0, 1});
    Here(end);
    assert multiset{0} + multiset{1} == multiset{0, 1};
    Then(Pair({1}, 1, Idle, Count(0, 1), multiset{0}), 1, Run, end, end);
  }

  lemma AcquireZero(b: Thread)
    ensures Reaches(Pair({}, 0, Idle, b, multiset{}), Pair({0}, 1, Idle, b, multiset{0}))
  {
    assert FirstZero({}, 0) == 0;
    hide Reaches, FirstZero;
    assert {} + {0} == {0} && multiset{} + multiset{0} == multiset{0};
    QuietAcquire({}, 0, b, multiset{}, 0, Pair({0}, 1, Idle, b, multiset{0}));
  }

  lemma AcquireAgain()
    ensures Reaches(Pair({1}, 2, Idle, Idle, multiset{0, 1}), Pair({0, 1}, 3, Idle, Idle, multiset{0, 0, 1}))
  {
    assert FirstZero({1}, 0) == 0;
    hide Reaches, FirstZero;
    assert {1} + {0} == {0, 1} && multiset{0, 1} + multiset{0} == multiset{0, 0, 1};
    QuietAcquire({1}, 2, Idle, multiset{0, 1}, 0, Pair({0, 1}, 3, Idle, Idle, multiset{0, 0, 1}));
  }

  /** From the empty bitmap to a state in which slot 0 has been handed out twice. */
  lemma TwiceReached()
    ensures Reaches(Pair({}, 0, Idle, Idle, multiset{}), Pair({0, 1}, 3, Idle, Idle, multiset{0, 0, 1}))
  {
    hide Reaches, Pair;
    var r, w := Reload(0, 1, 0, false, {0}, 1), Swap(0, 1, 0, false, {0}, 1, {1});
    var s0, s1 := Pair({}, 0, Idle, Idle, multiset{}), Pair({0}, 1, Idle, Idle, multiset{0});
    var s2, s3 := Pair({0}, 1, Idle, r, multiset{0}), Pair({}, 0, Idle, r, multiset{});
    var s4, s5 := Pair({}, 0, Idle, w, multiset{}), Pair({0}, 1, Idle, w, multiset{0});
    var s6, s7 := Pair({1}, 2, Idle, Idle, multiset{0, 1}), Pair({0, 1}, 3, Idle, Idle, multiset{0, 0, 1});
    AcquireZero(Idle);
    FirstRead();
    Chain(s0, s1, s2);
    QuietRelease(r);
    Chain(s0, s2, s3);
    SecondRead();
    Chain(s0, s3, s4);
    AcquireZero(w);
    Chain(s0, s4, s5);
    StaleSwap();
    Chain(s0, s5, s6);
    AcquireAgain();
    Chain(s0, s6, s7);
  }

  /** Two owners of one slot are reachable. */
  lemma TwoOwners() returns (run: seq<State>, acts: seq<Action>)
    ensures IsRun(run, acts) && run[|acts|].held[0] == 2
  {
    hide Exec, Enabled, Apply;
    TwiceReached();
    var s, s' := Pair({}, 0, Idle, Idle, multiset{}), Pair({0, 1}, 3, Idle, Idle, multiset{0, 0, 1});
    acts :| Exec(s, acts) == Ends(s');
    run := ExecIsRun(s, acts);
  }
}
