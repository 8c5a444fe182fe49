/**
 A call of the paged container that no other call disturbs: it ends, a push leaves its argument in
 the slot of the new head, and a pop returns what the slot of the head holds.
 */
module QueueMpmcAlone {

  import opened QueueMpmc
  import opened QueueMpmcInvariant
  import opened QueueMpmcSteps
  import opened QueueMpmcRuns
  import opened QueueMpmcCalls

  // ----- What a thread that runs alone knows -----

  predicate OthersIdle(s: State, t: nat) {
    t < |s.threads| && forall u :: 0 <= u < |s.threads| && u != t ==> s.threads[u].Idle?
  }

  predicate SlotHolds(s: State, page: nat, index: int, v: nat) {
    SlotExists(s, page, index) && s.pages[page].nodes[index] == v
  }

  /** The head stands on the slot, which holds `v`. */
  predicate OnSlot(s: State, page: nat, index: int, v: nat) {
    s.head.page == page && s.head.index == index && SlotHolds(s, page, index, v)
  }

  /** What a push has read is still so. */
  predicate PushReady(s: State, th: Thread) {
    match th
    case PushPlan(_, e, _) => e == s.head
    case PushNext(_, e, _) => e == s.head
    case PushCas(_, e, _, _) => e == s.head
    case PushLink(_, page) => page == s.head.page && s.head.index == 0
    case PushWrite(_, page, index) => page == s.head.page && index == s.head.index
    case _ => true
  }

  /** What a pop has read is still so; it will return `v` from the given slot. */
  predicate PopReady(s: State, th: Thread, page: nat, index: int, v: nat) {
    match th
    case PopLoop(e) => e == s.head && OnSlot(s, page, index, v)
    case PopPrev(e, h) => e == s.head && h == s.head && OnSlot(s, page, index, v)
    case PopWait(e, h, _) => e == s.head && h == s.head && OnSlot(s, page, index, v)
    case PopCas(e, _, p, i) => e == s.head && p == page && i == index && SlotHolds(s, page, index, v)
    case PopRead(p, i) => p == page && i == index && SlotHolds(s, page, index, v)
    case PopTake(p, i, seen) => p == page && i == index && seen == v && SlotHolds(s, page, index, v)
    case _ => false
  }

  /** The accesses that a call has at most still to make. */
  function Rank(th: Thread): nat {
    match th
    case Idle => 0
    case PushStart(_) => 6
    case PushPlan(_, _, _) => 5
    case PushNext(_, _, _) => 4
    case PushCas(_, _, _, _) => 3
    case PushLink(_, _) => 2
    case PushWrite(_, _, _) => 1
    case PopStart => 7
    case PopLoop(_) => 6
    case PopPrev(_, _) => 5
    case PopWait(_, _, _) => 4
    case PopCas(_, _, _, _) => 3
    case PopRead(_, _) => 2
    case PopTake(_, _, _) => 1
  }

  /** How a call under way will still change the length. */
  function Due(th: Thread): int {
    match th
    case PushStart(_) => 1
    case PushPlan(_, _, _) => 1
    case PushNext(_, _, _) => 1
    case PushCas(_, _, _, _) => 1
    case PopLoop(_) => -1
    case PopPrev(_, _) => -1
    case PopWait(_, _, _) => -1
    case PopCas(_, _, _, _) => -1
    case _ => 0
  }

  lemma {:induction false} NetAlone(threads: seq<Thread>, t: nat, page: nat, index: int)
    requires t < |threads| && forall u :: 0 <= u < |threads| && u != t ==> threads[u].Idle?
    ensures Net(threads, page, index) == Balance(threads[t], page, index)
    decreases |threads|
  {
    var n := |threads| - 1;
    if t < n {
      NetAlone(threads[..n], t, page, index);
    } else {
      NetIdle(threads[..n], page, index);
    }
  }

  lemma {:induction false} NetIdle(threads: seq<Thread>, page: nat, index: int)
    requires forall u :: 0 <= u < |threads| ==> threads[u].Idle?
    ensures Net(threads, page, index) == 0
    decreases |threads|
  {
    if threads != [] { NetIdle(threads[..|threads| - 1], page, index); }
  }

  /** The slot of a push that runs alone is empty, and that of a pop is full. */
  lemma SlotAlone(s: State, t: nat, page: nat, index: int)
    requires Inv(s) && OthersIdle(s, t) && PlaceOk(s, page, index) && SlotExists(s, page, index)
    ensures Balance(s.threads[t], page, index) == 1 ==> s.pages[page].nodes[index] == 0
    ensures Balance(s.threads[t], page, index) == -1 ==> s.pages[page].nodes[index] != 0
  {
    KnownThread(s, t);
    NetAlone(s.threads, t, page, index);
    ChainFact(s, Ord(s.chain, page));
    assert SlotOk(s, Ord(s.chain, page), index);
  }

  lemma StepInv(s: State, t: nat)
    requires Inv(s) && t < |s.threads| && Enabled(s, t, Run)
    ensures Inv(Apply(s, t, Run))
  {
    hide Inv, Enabled, Apply;
    assert Next(s, Apply(s, t, Run));
    Keeps(s, Apply(s, t, Run));
  }

  // ----- One access of a push -----

  /** A push got ahead by one access, and ended with its argument in the slot of the head if it ended. */
  ghost predicate PushAhead(s: State, s': State, t: nat)
    requires t < |s.threads| && CallOf(s.threads[t]).Push?
  {
    var th := s.threads[t];
    && |s'.threads| == |s.threads| && PushReady(s', s'.threads[t]) && Rank(s'.threads[t]) < Rank(th)
    && s'.head.length + Due(s'.threads[t]) == s.head.length + Due(th)
    && if s'.threads[t].Idle? then OnSlot(s', s'.head.page, s'.head.index, CallOf(th).v)
       else CallOf(s'.threads[t]) == CallOf(th)
  }

  lemma PlanAlone(s: State, t: nat)
    requires t < |s.threads| && s.threads[t].PushPlan? && PushReady(s, s.threads[t]) && Enabled(s, t, Run)
    ensures PushAhead(s, Apply(s, t, Run), t)
  {
  }

  lemma PublishAlone(s: State, t: nat)
    requires Inv(s) && t < |s.threads| && s.threads[t].PushCas? && PushReady(s, s.threads[t]) && Enabled(s, t, Run)
    ensures PushAhead(s, Apply(s, t, Run), t)
  {
    KnownThread(s, t);
  }

  lemma LinkAlone(s: State, t: nat)
    requires t < |s.threads| && s.threads[t].PushLink? && PushReady(s, s.threads[t]) && Enabled(s, t, Run)
    ensures PushAhead(s, Apply(s, t, Run), t)
  {
  }

  lemma WriteAlone(s: State, t: nat)
    requires t < |s.threads| && s.threads[t].PushWrite? && PushReady(s, s.threads[t]) && Enabled(s, t, Run)
    requires s.pages[s.threads[t].page].nodes[s.threads[t].index] == 0
    ensures PushAhead(s, Apply(s, t, Run), t)
  {
  }

  lemma ReadAlone(s: State, t: nat)
    requires t < |s.threads| && (s.threads[t].PushStart? || s.threads[t].PushNext?)
    requires PushReady(s, s.threads[t]) && Enabled(s, t, Run)
    ensures PushAhead(s, Apply(s, t, Run), t)
  {
  }

  /** A push that runs alone can go on and gets ahead with every access. */
  lemma PushStep(s: State, t: nat)
    requires Inv(s) && OthersIdle(s, t) && CallOf(s.threads[t]).Push? && PushReady(s, s.threads[t])
    ensures Enabled(s, t, Run) && PushAhead(s, Apply(s, t, Run), t)
  {
    hide Inv, Apply, PushAhead, Balance, Enabled;
    CanGoOn(s, t);
    match s.threads[t]
    case PushPlan(_, _, _) => PlanAlone(s, t);
    case PushCas(_, _, _, _) => PublishAlone(s, t);
    case PushLink(_, _) => LinkAlone(s, t);
    case PushWrite(_, page, index) =>
      PlaceKnown(s, t);
      SlotAlone(s, t, page, index);
      WriteAlone(s, t);
    case _ => ReadAlone(s, t);
  }

  lemma PlaceKnown(s: State, t: nat)
    requires Inv(s) && t < |s.threads| && (s.threads[t].PushWrite? || s.threads[t].PopRead?)
    ensures var th := s.threads[t];
            && PlaceOk(s, th.page, th.index) && SlotExists(s, th.page, th.index)
            && Balance(th, th.page, th.index) == if th.PushWrite? then 1 else -1
  {
    KnownThread(s, t);
    PlaceIsSlot(s, s.threads[t].page, s.threads[t].index);
  }

  // ----- One access of a pop -----

  /** A pop got ahead by one access, and ended with the value of its slot if it ended. */
  ghost predicate PopAhead(s: State, s': State, t: nat, page: nat, index: int, v: nat)
    requires t < |s.threads|
  {
    var th := s.threads[t];
    && |s'.threads| == |s.threads| && Rank(s'.threads[t]) < Rank(th)
    && s'.head.length + Due(s'.threads[t]) == s.head.length + Due(th)
    && if s'.threads[t].Idle? then s'.log == s.log + [Popped(v)]
       else PopReady(s', s'.threads[t], page, index, v) && s'.log == s.log
  }

  /** A pop that waits alone finds the page linked. */
  lemma LinkedAlone(s: State, t: nat)
    requires Inv(s) && OthersIdle(s, t) && s.threads[t].PopWait?
    ensures s.threads[t].prev < |s.pages| && s.pages[s.threads[t].prev].next.To?
  {
    KnownThread(s, t);
    var h := s.threads[t].h;
    ChainFact(s, Ord(s.chain, h.page) - 1);
    assert LinkPending(s, Ord(s.chain, h.page));
  }

  lemma WalkAlone(s: State, t: nat, page: nat, index: int, v: nat)
    requires t < |s.threads| && Enabled(s, t, Run) && PopReady(s, s.threads[t], page, index, v)
    requires s.threads[t].PopLoop? || s.threads[t].PopPrev? || s.threads[t].PopWait?
    requires s.threads[t].PopWait? ==> s.pages[s.threads[t].prev].next.To?
    ensures PopAhead(s, Apply(s, t, Run), t, page, index, v)
  {
  }

  lemma SwapAlone(s: State, t: nat, page: nat, index: int, v: nat)
    requires Inv(s) && t < |s.threads| && Enabled(s, t, Run) && s.threads[t].PopCas?
    requires PopReady(s, s.threads[t], page, index, v)
    ensures PopAhead(s, Apply(s, t, Run), t, page, index, v)
  {
    KnownThread(s, t);
  }

  lemma TakeAlone(s: State, t: nat, page: nat, index: int, v: nat)
    requires t < |s.threads| && Enabled(s, t, Run) && (s.threads[t].PopRead? || s.threads[t].PopTake?)
    requires PopReady(s, s.threads[t], page, index, v) && (s.threads[t].PopRead? ==> v != 0)
    ensures PopAhead(s, Apply(s, t, Run), t, page, index, v)
  {
  }

  /** A pop that runs alone can go on and gets ahead with every access. */
  lemma PopStep(s: State, t: nat, page: nat, index: int, v: nat)
    requires Inv(s) && OthersIdle(s, t) && PopReady(s, s.threads[t], page, index, v)
    ensures Enabled(s, t, Run) && PopAhead(s, Apply(s, t, Run), t, page, index, v)
  {
    hide Inv, Apply, PopAhead, Balance, Enabled, PlaceOk;
    CanGoOn(s, t);
    match s.threads[t]
    case PopCas(_, _, _, _) => SwapAlone(s, t, page, index, v);
    case PopRead(_, _) =>
      PlaceKnown(s, t);
      SlotAlone(s, t, page, index);
      TakeAlone(s, t, page, index, v);
    case PopTake(_, _, _) => TakeAlone(s, t, page, index, v);
    case PopWait(_, _, _) =>
      LinkedAlone(s, t);
      WalkAlone(s, t, page, index, v);
    case _ => WalkAlone(s, t, page, index, v);
  }

  // ----- The whole call -----

  ghost predicate AloneAt(run: seq<State>, t: nat, i: nat)
    requires 0 < i < |run|
  {
    t < |run[i - 1].threads| && Enabled(run[i - 1], t, Run) && run[i] == Apply(run[i - 1], t, Run)
  }

  /** Accesses of one thread alone. */
  ghost predicate RunsAlone(run: seq<State>, t: nat) {
    run != [] && forall i :: 0 < i < |run| ==> AloneAt(run, t, i)
  }

  lemma Precede(s: State, t: nat, rest: seq<State>) returns (run: seq<State>)
    requires t < |s.threads| && Enabled(s, t, Run) && RunsAlone(rest, t) && rest[0] == Apply(s, t, Run)
    ensures RunsAlone(run, t) && run[0] == s && |run| == |rest| + 1 && run[|run| - 1] == rest[|rest| - 1]
  {
    hide Enabled, Apply;
    run := [s] + rest;
    forall i | 0 < i < |run| ensures AloneAt(run, t, i) {
      if i > 1 { assert AloneAt(rest, t, i - 1); }
    }
  }

  lemma OneAlone(s: State, t: nat)
    ensures RunsAlone([s], t)
  {
  }

  lemma AloneStays(s: State, t: nat)
    requires Inv(s) && OthersIdle(s, t) && Enabled(s, t, Run)
    ensures var s' := Apply(s, t, Run);
            Inv(s') && OthersIdle(s', t) && s'.threads == s.threads[t := s'.threads[t]]
  {
    hide Inv, Enabled, Apply, Hands;
    StepInv(s, t);
    StepHands(s, t, Run);
  }

  lemma PushLogs(s: State, t: nat)
    requires t < |s.threads| && Enabled(s, t, Run) && CallOf(s.threads[t]).Push?
    ensures var s' := Apply(s, t, Run);
            && |s'.threads| == |s.threads|
            && s'.log == s.log + (if s'.threads[t].Idle? then [Pushed(CallOf(s.threads[t]).v)] else [])
  {
    hide Enabled, Apply;
    StepReplies(s, t, Run);
    assert s.log + [] == s.log;
  }

  lemma {:induction false} PushEnds(s: State, t: nat) returns (run: seq<State>)
    requires Inv(s) && OthersIdle(s, t) && CallOf(s.threads[t]).Push? && PushReady(s, s.threads[t])
    ensures RunsAlone(run, t) && run[0] == s && |run| <= Rank(s.threads[t]) + 1
    ensures var f, v := run[|run| - 1], CallOf(s.threads[t]).v;
            && Inv(f) && f.threads == s.threads[t := Idle] && f.log == s.log + [Pushed(v)]
            && f.head.length == s.head.length + Due(s.threads[t]) && OnSlot(f, f.head.page, f.head.index, v)
    decreases Rank(s.threads[t])
  {
    hide Inv, Enabled, Apply, PushReady, CallOf, OnSlot, RunsAlone;
    PushStep(s, t);
    AloneStays(s, t);
    PushLogs(s, t);
    var s' := Apply(s, t, Run);
    var rest := [s'];
    if s'.threads[t].Idle? {
      OneAlone(s', t);
    } else {
      assert s.log + [] == s.log;
      rest := PushEnds(s', t);
      assert s'.threads[t := Idle] == s.threads[t := Idle];
    }
    run := Precede(s, t, rest);
  }

  lemma {:induction false} PopEnds(s: State, t: nat, page: nat, index: int, v: nat) returns (run: seq<State>)
    requires Inv(s) && OthersIdle(s, t) && PopReady(s, s.threads[t], page, index, v)
    ensures RunsAlone(run, t) && run[0] == s && |run| <= Rank(s.threads[t]) + 1
    ensures var f := run[|run| - 1];
            && Inv(f) && f.threads == s.threads[t := Idle] && f.log == s.log + [Popped(v)]
            && f.head.length == s.head.length + Due(s.threads[t])
    decreases Rank(s.threads[t])
  {
    hide Inv, Enabled, Apply, PopReady, RunsAlone;
    PopStep(s, t, page, index, v);
    AloneStays(s, t);
    var s' := Apply(s, t, Run);
    var rest := [s'];
    if s'.threads[t].Idle? {
      OneAlone(s', t);
    } else {
      rest := PopEnds(s', t, page, index, v);
      assert s'.threads[t := Idle] == s.threads[t := Idle];
    }
    run := Precede(s, t, rest);
  }

  predicate AllIdle(s: State) { forall u :: 0 <= u < |s.threads| ==> s.threads[u].Idle? }

  /** The state after the call step. */
  lemma Begins(s: State, t: nat, step: Step)
    requires Inv(s) && AllIdle(s) && t < |s.threads| && Called(step) != Nothing && Enabled(s, t, step)
    ensures var s' := Apply(s, t, step);
            && Inv(s') && s' == s.(threads := s'.threads) && |s'.threads| == |s.threads| && OthersIdle(s', t)
            && s'.threads == s.threads[t := s'.threads[t]]
            && s'.threads[t] == if step.CallPush? then PushStart(step.v) else PopStart
  {
    hide Inv;
    assert Next(s, Apply(s, t, step));
    Keeps(s, Apply(s, t, step));
  }

  /**
   From every sound state at rest: a push that nobody disturbs ends after at most six accesses, with its
   argument in the slot on which the head stands, one further up.
   */
  lemma PushCompletes(s: State, t: nat, v: nat) returns (run: seq<State>)
    requires Inv(s) && AllIdle(s) && t < |s.threads| && v != 0
    ensures RunsAlone(run, t) && run[0] == Apply(s, t, CallPush(v)) && |run| <= 7
    ensures var f := run[|run| - 1];
            && Inv(f) && f.threads == s.threads && f.log == s.log + [Pushed(v)]
            && f.head.length == s.head.length + 1 && OnSlot(f, f.head.page, f.head.index, v)
  {
    hide Inv, RunsAlone, OnSlot;
    Begins(s, t, CallPush(v));
    var s' := Apply(s, t, CallPush(v));
    run := PushEnds(s', t);
    assert s'.threads[t := Idle] == s.threads;
  }

  lemma NothingTaken(s: State, t: nat)
    requires t < |s.threads| && s.threads[t].PopStart? && s.head.length <= 0
    ensures Enabled(s, t, Run) && Apply(s, t, Run) == Log(Move(s, t, Idle), PoppedNothing)
  {
  }

  lemma PopBegins(s: State, t: nat)
    requires Inv(s) && t < |s.threads| && s.threads[t].PopStart? && s.head.length > 0
    ensures SlotExists(s, s.head.page, s.head.index) && Enabled(s, t, Run)
    ensures var s' := Apply(s, t, Run);
            && s' == Move(s, t, PopLoop(s.head))
            && PopReady(s', s'.threads[t], s.head.page, s.head.index, s.pages[s.head.page].nodes[s.head.index])
  {
    KnownThread(s, t);
    NotEmpty(s, s.head);
    PlaceIsSlot(s, s.head.page, s.head.index);
  }

  lemma EmptyPop(s: State, t: nat) returns (run: seq<State>)
    requires Inv(s) && OthersIdle(s, t) && s.threads[t].PopStart? && s.head.length <= 0
    ensures RunsAlone(run, t) && run[0] == s && |run| <= 8
    ensures var f := run[|run| - 1];
            Inv(f) && f.threads == s.threads[t := Idle] && f.log == s.log + [PoppedNothing] && f.head == s.head
  {
    hide Inv, RunsAlone, Apply, Enabled;
    NothingTaken(s, t);
    AloneStays(s, t);
    OneAlone(Apply(s, t, Run), t);
    run := Precede(s, t, [Apply(s, t, Run)]);
  }

  lemma FullPop(s: State, t: nat) returns (run: seq<State>)
    requires Inv(s) && OthersIdle(s, t) && s.threads[t].PopStart? && s.head.length > 0
    ensures RunsAlone(run, t) && run[0] == s && |run| <= 8
    ensures var f := run[|run| - 1];
            && Inv(f) && f.threads == s.threads[t := Idle] && f.head.length == s.head.length - 1
            && SlotExists(s, s.head.page, s.head.index)
            && f.log == s.log + [Popped(s.pages[s.head.page].nodes[s.head.index])]
  {
    hide Inv, RunsAlone, PopReady, Apply, Enabled;
    PopBegins(s, t);
    AloneStays(s, t);
    var s' := Apply(s, t, Run);
    var rest := PopEnds(s', t, s.head.page, s.head.index, s.pages[s.head.page].nodes[s.head.index]);
    run := Precede(s, t, rest);
    assert s'.threads[t := Idle] == s.threads[t := Idle];
  }

  /**
   From every sound state at rest: a pop that nobody disturbs ends after at most seven accesses, with
   nothing if and only if the container is empty, and otherwise with what the slot of the head holds.
   */
  lemma PopCompletes(s: State, t: nat) returns (run: seq<State>)
    requires Inv(s) && AllIdle(s) && t < |s.threads|
    ensures RunsAlone(run, t) && run[0] == Apply(s, t, CallPop) && |run| <= 8
    ensures var f := run[|run| - 1];
            && Inv(f) && f.threads == s.threads
            && if s.head.length <= 0 then f.log == s.log + [PoppedNothing] && f.head == s.head
               else && SlotExists(s, s.head.page, s.head.index) && f.head.length == s.head.length - 1
                    && f.log == s.log + [Popped(s.pages[s.head.page].nodes[s.head.index])]
  {
    hide Inv, RunsAlone, SlotExists;
    Begins(s, t, CallPop);
    var s' := Apply(s, t, CallPop);
    if s.head.length <= 0 { run := EmptyPop(s', t); } else { run := FullPop(s', t); }
    SameSlot(s, s', s.head.page, s.head.index);
    assert s'.threads[t := Idle] == s.threads;
  }

  lemma SameSlot(s: State, s': State, page: nat, index: int)
    requires s'.pages == s.pages
    ensures SlotExists(s', page, index) <==> SlotExists(s, page, index)
  {
  }
}
