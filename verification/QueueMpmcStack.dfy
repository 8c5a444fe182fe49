/**
 With a single thread the paged container is a stack.
 */
module QueueMpmcStack {

  import opened QueueMpmc
  import opened QueueMpmcInvariant
  import opened QueueMpmcSteps
  import opened QueueMpmcRuns

  // ----- One thread: a stack -----

  /** The stack after a history of calls. */
  function StackAfter(log: seq<Event>): seq<nat>
    decreases |log|
  {
    if log == [] then [] else
    var st := StackAfter(log[..|log| - 1]);
    match log[|log| - 1]
    case Pushed(v) => st + [v]
    case Popped(_) => if st == [] then [] else st[..|st| - 1]
    case PoppedNothing => st
  }

  /** Every pop returned the value last pushed and not yet popped, or nothing when there was none. */
  predicate IsLifo(log: seq<Event>)
    decreases |log|
  {
    log == [] ||
    (var st := StackAfter(log[..|log| - 1]);
     && IsLifo(log[..|log| - 1])
     && match log[|log| - 1] {
          case Pushed(_) => true
          case Popped(v) => st != [] && st[|st| - 1] == v
          case PoppedNothing => st == []
        })
  }

  lemma LogEvent(log: seq<Event>, event: Event)
    ensures (log + [event])[..|log|] == log && (log + [event])[|log|] == event
  {
  }

  /** The slot at page ordinal `o` holds the stack's element of that number. */
  ghost predicate HoldsAt(s: State, st: seq<nat>, o: nat, index: nat)
    requires o < |s.chain|
  {
    Base(o, s.max) + index < |st| ==>
      SlotExists(s, s.chain[o], index) && s.pages[s.chain[o]].nodes[index] == st[Base(o, s.max) + index]
  }

  ghost predicate Holds(s: State, st: seq<nat>) {
    forall o, index :: 0 <= o < |s.chain| && 0 <= index < s.max ==> HoldsAt(s, st, o, index)
  }

  /** The number of a published slot. */
  ghost predicate IsNumber(s: State, page: nat, index: int, k: int) {
    page in s.chain && 0 <= index < s.max && k == Base(Ord(s.chain, page), s.max) + index
  }

  ghost predicate Solo(s: State) {
    var st := StackAfter(s.log);
    && |s.threads| == 1 && IsLifo(s.log) && Holds(s, st)
    && match s.threads[0] {
         case PushLink(_, page) => s.head.length == |st| + 1 && IsNumber(s, page, 0, |st|)
         case PushWrite(_, page, index) => s.head.length == |st| + 1 && IsNumber(s, page, index, |st|)
         case PopRead(page, index) => s.head.length == |st| - 1 && IsNumber(s, page, index, |st| - 1)
         case PopTake(page, index, seen) =>
           && s.head.length == |st| - 1 && IsNumber(s, page, index, |st| - 1) && seen == st[|st| - 1]
         case _ => s.head.length == |st|
       }
  }

  /** The slots of the published pages and the head are as before. */
  ghost predicate SameSlots(s: State, s': State) {
    && s'.chain == s.chain && s'.max == s.max && |s.pages| <= |s'.pages|
    && forall p :: 0 <= p < |s.pages| && p in s.chain ==> s'.pages[p].nodes == s.pages[p].nodes
  }

  lemma HoldsStays(s: State, s': State, st: seq<nat>)
    requires Holds(s, st) && SameSlots(s, s')
    ensures Holds(s', st)
  {
    hide Base;
    forall o, index | 0 <= o < |s'.chain| && 0 <= index < s'.max ensures HoldsAt(s', st, o, index) {
      assert HoldsAt(s, st, o, index);
      assert s.chain[o] in s.chain;
    }
  }

  lemma NumbersDiffer(o: nat, i: nat, o': nat, i': nat, max: nat)
    requires i < max && i' < max && Base(o, max) + i == Base(o', max) + i'
    ensures o == o' && i == i'
  {
    if o < o' { BaseGrows(o, o', max); }
    if o' < o { BaseGrows(o', o, max); }
  }

  /** Writing or clearing the slot of number `k` changes no other number. */
  lemma HoldsElsewhere(s: State, s': State, st: seq<nat>, st': seq<nat>, page: nat, index: nat, v: nat, k: nat)
    requires Inv(s) && Holds(s, st) && IsNumber(s, page, index, k) && SlotExists(s, page, index)
    requires s' == SetSlot(s, page, index, v).(threads := s'.threads, popped := s'.popped, log := s'.log)
    requires |st'| <= k + 1 && k <= |st| && st'[..if |st'| < k then |st'| else k] == st[..if |st'| < k then |st'| else k]
    requires |st'| == k + 1 ==> st'[k] == v
    ensures Holds(s', st')
  {
    forall o, j | 0 <= o < |s'.chain| && 0 <= j < s'.max ensures HoldsAt(s', st', o, j) {
      var n := Base(o, s.max) + j;
      if n < |st'| {
        ChainFact(s, o);
        if n == k {
          NumbersDiffer(o, j, Ord(s.chain, page), index, s.max);
        } else {
          assert HoldsAt(s, st, o, j);
          assert st'[n] == st'[..if |st'| < k then |st'| else k][n] == st[n];
          assert s.chain[o] == page && j == index ==> n == k;
        }
      }
    }
  }

  // ----- Each step of the only thread -----

  /** A phase in which the slots below the head are exactly the stack. */
  predicate Settled(th: Thread) {
    !th.PushLink? && !th.PushWrite? && !th.PopRead? && !th.PopTake?
  }

  /** A step that leaves the published slots, the head and the history alone. */
  lemma SoloQuiet(s: State, s': State)
    requires Solo(s) && |s'.threads| == 1 && Settled(s.threads[0]) && Settled(s'.threads[0])
    requires SameSlots(s, s') && s'.head == s.head && s'.log == s.log
    ensures Solo(s')
  {
    HoldsStays(s, s', StackAfter(s.log));
  }

  lemma SoloNothing(s: State, s': State)
    requires Solo(s) && |s'.threads| == 1 && Settled(s.threads[0]) && s'.threads[0].Idle?
    requires SameSlots(s, s') && s'.head == s.head && s.head.length <= 0 && s'.log == s.log + [PoppedNothing]
    ensures Solo(s')
  {
    LogEvent(s.log, PoppedNothing);
    HoldsStays(s, s', StackAfter(s.log));
  }

  lemma SoloPublishNew(s: State)
    requires Inv(s) && Solo(s) && s.threads[0].PushCas? && s.head == s.threads[0].e
    requires s.threads[0].spare == To(s.threads[0].want.page)
    ensures Solo(Publish(s, 0))
  {
    hide Structure, Evolves, ThreadsOk, LinksPending, SlotsOk, Conserved, Unlinked;
    var s', st := Publish(s, 0), StackAfter(s.log);
    KnownThread(s, 0);
    PublishStructure(s, 0);
    forall o, index | 0 <= o < |s'.chain| && 0 <= index < s'.max ensures HoldsAt(s', st, o, index) {
      if o < |s.chain| { assert HoldsAt(s, st, o, index); }
    }
  }

  lemma SoloPublishOnChain(s: State)
    requires Inv(s) && Solo(s) && s.threads[0].PushCas? && s.head == s.threads[0].e
    requires s.threads[0].spare != To(s.threads[0].want.page)
    ensures Solo(Publish(s, 0))
  {
    KnownThread(s, 0);
    PublishSnapshot(s, 0);
    hide Inv;
    HoldsStays(s, Publish(s, 0), StackAfter(s.log));
  }

  lemma SoloPopCas(s: State)
    requires Inv(s) && Solo(s) && s.threads[0].PopCas? && s.head == s.threads[0].e
    ensures Solo(Apply(s, 0, Run))
  {
    PopCasSnapshot(s, 0);
    KnownThread(s, 0);
    HoldsStays(s, Apply(s, 0, Run), StackAfter(s.log));
  }

  lemma SoloLink(s: State)
    requires Inv(s) && Solo(s) && s.threads[0].PushLink? && Enabled(s, 0, Run)
    ensures Solo(LinkPage(s, 0))
  {
    HoldsStays(s, LinkPage(s, 0), StackAfter(s.log));
  }

  lemma SoloWrite(s: State)
    requires Inv(s) && Solo(s) && s.threads[0].PushWrite? && Enabled(s, 0, Run)
    ensures Solo(Apply(s, 0, Run))
  {
    var PushWrite(v, page, index) := s.threads[0];
    var s', st := Apply(s, 0, Run), StackAfter(s.log);
    if s.pages[page].nodes[index] == 0 {
      LogEvent(s.log, Pushed(v));
      hide Inv;
      HoldsElsewhere(s, s', st, st + [v], page, index, v, |st|);
    }
  }

  lemma SoloRead(s: State)
    requires Inv(s) && Solo(s) && s.threads[0].PopRead? && Enabled(s, 0, Run)
    ensures Solo(Apply(s, 0, Run))
  {
    var PopRead(page, index) := s.threads[0];
    var s', st := Apply(s, 0, Run), StackAfter(s.log);
    HoldsStays(s, s', st);
    assert HoldsAt(s, st, Ord(s.chain, page), index);
  }

  lemma SoloTake(s: State)
    requires Inv(s) && Solo(s) && s.threads[0].PopTake? && Enabled(s, 0, Run)
    ensures Solo(Apply(s, 0, Run))
  {
    var PopTake(page, index, seen) := s.threads[0];
    var s', st := Apply(s, 0, Run), StackAfter(s.log);
    if s.pages[page].nodes[index] == seen {
      LogEvent(s.log, Popped(seen));
      var k := |st| - 1;
      hide Inv;
      HoldsElsewhere(s, s', st, st[..k], page, index, 0, k);
    } else {
      HoldsStays(s, s', st);
    }
  }

  lemma PlanSameSlots(s: State)
    requires Inv(s) && |s.threads| == 1 && s.threads[0].PushPlan? && Enabled(s, 0, Run)
    ensures SameSlots(s, Plan(s, 0)) && Plan(s, 0).head == s.head && Plan(s, 0).log == s.log
    ensures |Plan(s, 0).threads| == 1 && Settled(Plan(s, 0).threads[0])
  {
  }

  lemma SoloCall(s: State, step: Step)
    requires Solo(s) && Enabled(s, 0, step) && !step.Run?
    ensures Solo(Apply(s, 0, step))
  {
    var s' := Apply(s, 0, step);
    hide Solo;
    if step.CasFails? && s.threads[0].PopCas? && s.head.length <= 0 { SoloNothing(s, s'); } else { SoloQuiet(s, s'); }
  }

  lemma SoloRunQuiet(s: State)
    requires Solo(s) && Enabled(s, 0, Run)
    requires var th := s.threads[0]; th.PushStart? || th.PushNext? || th.PopStart? || th.PopLoop? || th.PopPrev? || th.PopWait?
    ensures Solo(Apply(s, 0, Run))
  {
    var s' := Apply(s, 0, Run);
    hide Solo;
    if s.threads[0].PopStart? && s.head.length <= 0 { SoloNothing(s, s'); } else { SoloQuiet(s, s'); }
  }

  lemma SoloKeeps(s: State, s': State)
    requires Inv(s) && Solo(s) && Next(s, s')
    ensures Solo(s')
  {
    var t, step :| 0 <= t < |s.threads| && Enabled(s, t, step) && s' == Apply(s, t, step);
    assert |s.threads| == 1 && t == 0;
    hide Inv, Solo, Plan, Publish, LinkPage;
    if !step.Run? {
      SoloCall(s, step);
    } else {
      match s.threads[0]
      case PushPlan(_, _, _) =>
        PlanSameSlots(s);
        SoloQuiet(s, s');
      case PushCas(_, _, want, spare) =>
        if spare == To(want.page) { SoloPublishNew(s); } else { SoloPublishOnChain(s); }
      case PushLink(_, _) => SoloLink(s);
      case PushWrite(_, _, _) => SoloWrite(s);
      case PopCas(_, _, _, _) => SoloPopCas(s);
      case PopRead(_, _) => SoloRead(s);
      case PopTake(_, _, _) => SoloTake(s);
      case _ => SoloRunQuiet(s);
    }
  }

  lemma {:induction false} SoloRun(run: seq<State>, i: nat)
    requires IsRun(run) && |run[0].threads| == 1 && i < |run|
    ensures Solo(run[i])
  {
    if i == 0 {
      hide Inv;
    } else {
      hide Inv, Solo, Next, Initial;
      SoloRun(run, i - 1);
      RunInv(run, i - 1);
      assert NextAt(run, i);
      SoloKeeps(run[i - 1], run[i]);
    }
  }

  /** With one thread, every history is that of a stack, and between calls the slots below the head are the stack. */
  lemma SingleThreadIsStack(run: seq<State>, i: nat)
    requires IsRun(run) && |run[0].threads| == 1 && i < |run|
    ensures IsLifo(run[i].log)
    ensures run[i].threads == [Idle] ==> run[i].head.length == |StackAfter(run[i].log)| && Holds(run[i], StackAfter(run[i].log))
  {
    SoloRun(run, i);
  }
}
