/**
 What holds in every run of the paged container: nothing is lost or duplicated, nobody waits
 without a partner, and the chain of pages never forks.
 */
module QueueMpmcRuns {

  import opened QueueMpmc
  import opened QueueMpmcInvariant
  import opened QueueMpmcSteps

  // ----- What every run keeps -----

  lemma {:induction false} BaseIs(i: nat, max: nat)
    ensures Base(i, max) == i * max
  {
    if i > 0 {
      BaseIs(i - 1, max);
      assert i * max == (i - 1) * max + max;
    }
  }

  /** Nothing is lost or duplicated, in every interleaving. */
  lemma NothingLostOrDuplicated(run: seq<State>, i: nat)
    requires IsRun(run) && i < |run|
    ensures run[i].reserved == AllPending(run[i].threads) + AllStored(run[i].pages) + run[i].popped
  {
    RunInv(run, i);
  }

  /** When no call is under way, what was pushed is what was popped plus what the slots hold. */
  lemma ConservedAtRest(run: seq<State>, i: nat)
    requires IsRun(run) && i < |run|
    requires forall t :: 0 <= t < |run[i].threads| ==> run[i].threads[t].Idle?
    ensures run[i].reserved == AllStored(run[i].pages) + run[i].popped
  {
    NothingLostOrDuplicated(run, i);
    IdlePending(run[i].threads);
  }

  /** For each slot: pending pushes plus its value minus pending pops is 1 below the head and 0 above it. */
  lemma SlotsBalance(run: seq<State>, i: nat, o: nat, index: nat)
    requires IsRun(run) && i < |run|
    ensures var s := run[i];
            && s.head.page in s.chain
            && (o < |s.chain| && index < s.max ==>
                  && s.chain[o] < |s.pages| && |s.pages[s.chain[o]].nodes| == s.max
                  && Net(s.threads, s.chain[o], index) + (if s.pages[s.chain[o]].nodes[index] != 0 then 1 else 0) ==
                     (if o * s.max + index < s.head.length then 1 else 0))
  {
    RunInv(run, i);
    var s := run[i];
    if o < |s.chain| && index < s.max {
      assert SlotOk(s, o, index) && ChainOk(s, o) && PageOk(s, s.chain[o]);
      BaseIs(o, s.max);
      BelowIsLength(s, o, index);
    }
  }

  lemma {:induction false} BaseGrows(i: nat, j: nat, max: nat)
    requires i < j
    ensures Base(i, max) + max <= Base(j, max)
    decreases j
  {
    if i + 1 < j { BaseGrows(i, j - 1, max); }
  }

  lemma BelowIsLength(s: State, o: nat, index: nat)
    requires Snapshot(s, s.head) && index < s.max
    ensures Below(s, o, index) <==> Base(o, s.max) + index < s.head.length
  {
    var h := Ord(s.chain, s.head.page);
    if o < h { BaseGrows(o, h, s.max); }
    if h < o { BaseGrows(h, o, s.max); }
  }

  /** The head's length is the number of the slot it stands on, counted from 1. */
  lemma HeadCountsSlots(run: seq<State>, i: nat)
    requires IsRun(run) && i < |run|
    ensures var s := run[i];
            && s.head.page in s.chain && -1 <= s.head.index < s.max
            && s.head.length == Ord(s.chain, s.head.page) * s.max + s.head.index + 1
  {
    RunInv(run, i);
    BaseIs(Ord(run[i].chain, run[i].head.page), run[i].max);
  }

  // ----- No thread is stuck -----

  lemma PlaceIsSlot(s: State, page: nat, index: int)
    requires Inv(s) && PlaceOk(s, page, index)
    ensures SlotExists(s, page, index)
  {
    ChainFact(s, Ord(s.chain, page));
    assert PageOk(s, page);
  }

  lemma SnapshotExists(s: State, h: Head)
    requires Inv(s) && Snapshot(s, h)
    ensures h.page < |s.pages|
  {
    ChainFact(s, Ord(s.chain, h.page));
  }

  /**
   A thread inside a call can always go on: all pages and slots it refers to exist, and only a
   compare-and-swap depends on the head.
   */
  lemma CanGoOn(s: State, t: nat)
    requires Inv(s) && t < |s.threads|
    ensures var th := s.threads[t];
            Enabled(s, t, Run) <==> !th.Idle? && (th.PushCas? || th.PopCas? ==> s.head == th.e)
  {
    hide Inv, Snapshot, SlotExists, PlaceOk;
    KnownThread(s, t);
    match s.threads[t]
    case PushPlan(_, e, _) => SnapshotExists(s, e);
    case PushNext(_, e, _) => SnapshotExists(s, e);
    case PushLink(_, page) =>
      var o := Ord(s.chain, page);
      ChainFact(s, o);
      ChainFact(s, o - 1);
    case PushWrite(_, page, index) => PlaceIsSlot(s, page, index);
    case PopPrev(_, h) => SnapshotExists(s, h);
    case PopWait(_, h, prev) => ChainFact(s, Ord(s.chain, h.page) - 1);
    case PopRead(page, index) => PlaceIsSlot(s, page, index);
    case PopTake(page, index, _) => PlaceIsSlot(s, page, index);
    case _ =>
  }

  /** In every run, a thread inside a call has a next access to make. */
  lemma NeverStuck(run: seq<State>, i: nat, t: nat)
    requires IsRun(run) && i < |run| && t < |run[i].threads|
    ensures var s, th := run[i], run[i].threads[t];
            && (Enabled(s, t, Run) <==> !th.Idle? && (th.PushCas? || th.PopCas? ==> s.head == th.e))
            && (!th.Idle? ==> Enabled(s, t, Run) || Enabled(s, t, CasFails))
  {
    RunInv(run, i);
    CanGoOn(run[i], t);
  }

  // ----- Nobody waits without a partner -----

  lemma {:induction false} SomePush(threads: seq<Thread>, t: nat, page: nat, index: int)
    requires t < |threads|
    requires forall u :: 0 <= u < |threads| ==> Balance(threads[u], page, index) <= 0
    ensures Net(threads, page, index) <= Balance(threads[t], page, index)
    decreases |threads|
  {
    var n := |threads| - 1;
    if t < n { SomePush(threads[..n], t, page, index); } else if n > 0 { SomePush(threads[..n], 0, page, index); }
  }

  lemma {:induction false} SomePop(threads: seq<Thread>, t: nat, page: nat, index: int)
    requires t < |threads|
    requires forall u :: 0 <= u < |threads| ==> Balance(threads[u], page, index) >= 0
    ensures Net(threads, page, index) >= Balance(threads[t], page, index)
    decreases |threads|
  {
    var n := |threads| - 1;
    if t < n { SomePop(threads[..n], t, page, index); } else if n > 0 { SomePop(threads[..n], 0, page, index); }
  }

  ghost predicate PushUnderWay(s: State, page: nat, index: int) {
    exists u :: 0 <= u < |s.threads| && Balance(s.threads[u], page, index) == 1
  }

  ghost predicate PopUnderWay(s: State, page: nat, index: int) {
    exists u :: 0 <= u < |s.threads| && Balance(s.threads[u], page, index) == -1
  }

  /** A pop that waits at an empty slot has a push under way for that slot. */
  lemma WaitingPopHasPush(run: seq<State>, i: nat, t: nat)
    requires IsRun(run) && i < |run| && t < |run[i].threads| && run[i].threads[t].PopRead?
    ensures var s, page, index := run[i], run[i].threads[t].page, run[i].threads[t].index;
            SlotExists(s, page, index) && (s.pages[page].nodes[index] == 0 ==> PushUnderWay(s, page, index))
  {
    var s := run[i];
    var PopRead(page, index) := s.threads[t];
    RunInv(run, i);
    CanGoOn(s, t);
    KnownThread(s, t);
    assert SlotOk(s, Ord(s.chain, page), index);
    if s.pages[page].nodes[index] == 0 && forall u :: 0 <= u < |s.threads| ==> Balance(s.threads[u], page, index) <= 0 {
      SomePush(s.threads, t, page, index);
      assert false;
    }
  }

  /** A push that waits at a full slot has a pop under way for that slot. */
  lemma WaitingPushHasPop(run: seq<State>, i: nat, t: nat)
    requires IsRun(run) && i < |run| && t < |run[i].threads| && run[i].threads[t].PushWrite?
    ensures var s, page, index := run[i], run[i].threads[t].page, run[i].threads[t].index;
            SlotExists(s, page, index) && (s.pages[page].nodes[index] != 0 ==> PopUnderWay(s, page, index))
  {
    var s := run[i];
    var PushWrite(v, page, index) := s.threads[t];
    RunInv(run, i);
    CanGoOn(s, t);
    KnownThread(s, t);
    assert SlotOk(s, Ord(s.chain, page), index);
    if s.pages[page].nodes[index] != 0 && forall u :: 0 <= u < |s.threads| ==> Balance(s.threads[u], page, index) >= 0 {
      SomePop(s.threads, t, page, index);
      assert false;
    }
  }

  /** A pop that waits for a page to be linked has a push about to link the page after it. */
  lemma WaitingLinkHasPush(run: seq<State>, i: nat, t: nat)
    requires IsRun(run) && i < |run| && t < |run[i].threads| && run[i].threads[t].PopWait?
    ensures var s, th := run[i], run[i].threads[t];
            && th.prev < |s.pages|
            && (s.pages[th.prev].next.Null? ==>
                  exists u :: 0 <= u < |s.threads| && s.threads[u].PushLink? && s.threads[u].page == th.h.page)
  {
    var s := run[i];
    var h := s.threads[t].h;
    RunInv(run, i);
    CanGoOn(s, t);
    KnownThread(s, t);
    assert LinkPending(s, Ord(s.chain, h.page));
  }

  // ----- The chain never forks -----

  ghost predicate ExtendsChain(s: State, s': State) {
    && s.chain <= s'.chain && |s.pages| <= |s'.pages|
    && forall p :: 0 <= p < |s.pages| && s.pages[p].next.To? ==> s'.pages[p].next == s.pages[p].next
  }

  lemma LinkExtendsChain(s: State, t: nat)
    requires Inv(s) && t < |s.threads| && s.threads[t].PushLink? && Enabled(s, t, Run)
    ensures ExtendsChain(s, LinkPage(s, t))
  {
    KnownThread(s, t);
    LinkStructure(s, t);
  }

  /** One step only adds to the chain, and sets a next page only where there was none. */
  lemma StepExtendsChain(s: State, t: nat, step: Step)
    requires Inv(s) && t < |s.threads| && Enabled(s, t, step)
    ensures ExtendsChain(s, Apply(s, t, step))
  {
    hide Inv;
    var th := s.threads[t];
    if step.Run? && th.PushLink? {
      LinkExtendsChain(s, t);
      hide LinkPage, ExtendsChain;
      assert Apply(s, t, step) == LinkPage(s, t);
    } else if step.Run? && th.PushPlan? {
    } else if step.Run? && th.PushCas? {
    } else if step.Run? && (th.PushWrite? || th.PopTake?) {
    } else {
      assert Apply(s, t, step).pages == s.pages && Apply(s, t, step).chain == s.chain;
    }
  }

  lemma NextExtendsChain(s: State, s': State)
    requires Inv(s) && Next(s, s')
    ensures ExtendsChain(s, s')
  {
    hide Inv, Apply, Enabled, ExtendsChain;
    var t, step :| 0 <= t < |s.threads| && Enabled(s, t, step) && s' == Apply(s, t, step);
    StepExtendsChain(s, t, step);
  }

  lemma ExtendsReflexive(s: State)
    ensures ExtendsChain(s, s)
  {
  }

  lemma ExtendsTransitive(s: State, s': State, s'': State)
    requires ExtendsChain(s, s') && ExtendsChain(s', s'')
    ensures ExtendsChain(s, s'')
  {
  }

  /** Along every run the chain only grows and a next page, once set, stays. */
  lemma {:induction false} ChainNeverForks(run: seq<State>, i: nat, j: nat)
    requires IsRun(run) && i <= j < |run|
    ensures ExtendsChain(run[i], run[j])
    decreases j
  {
    ExtendsReflexive(run[i]);
    hide Inv, Next, Initial, ExtendsChain;
    if i < j {
      ChainNeverForks(run, i, j - 1);
      RunInv(run, j - 1);
      assert NextAt(run, j);
      NextExtendsChain(run[j - 1], run[j]);
      ExtendsTransitive(run[i], run[j - 1], run[j]);
    }
  }
}
