/**
 Every step of every thread of the paged container keeps the invariant.
 */
module QueueMpmcSteps {

  import opened QueueMpmc
  import opened QueueMpmcInvariant

  // ----- Sums over threads and pages -----

  lemma {:induction false} NetUpdate(threads: seq<Thread>, t: nat, th: Thread, page: nat, index: int)
    requires t < |threads|
    ensures Net(threads[t := th], page, index) ==
            Net(threads, page, index) - Balance(threads[t], page, index) + Balance(th, page, index)
    decreases |threads|
  {
    hide Balance;
    var n, threads' := |threads| - 1, threads[t := th];
    if t == n {
      assert threads'[..n] == threads[..n];
    } else {
      assert threads'[..n] == threads[..n][t := th];
      NetUpdate(threads[..n], t, th, page, index);
    }
  }

  lemma {:induction false} PendingUpdate(threads: seq<Thread>, t: nat, th: Thread)
    requires t < |threads|
    ensures AllPending(threads[t := th]) + Pending(threads[t]) == AllPending(threads) + Pending(th)
    decreases |threads|
  {
    hide Pending;
    var n, threads' := |threads| - 1, threads[t := th];
    if t == n {
      assert threads'[..n] == threads[..n];
    } else {
      assert threads'[..n] == threads[..n][t := th];
      PendingUpdate(threads[..n], t, th);
      MultisetSwap(AllPending(threads'[..n]), Pending(threads[n]), Pending(threads[t]));
      MultisetSwap(AllPending(threads[..n]), Pending(threads[n]), Pending(th));
    }
  }

  lemma MultisetSwap(a: multiset<nat>, b: multiset<nat>, c: multiset<nat>)
    ensures a + b + c == a + c + b
  {
  }

  lemma {:induction false} StoredUpdate(pages: seq<Page>, p: nat, page: Page)
    requires p < |pages|
    ensures AllStored(pages[p := page]) + Stored(pages[p]) == AllStored(pages) + Stored(page)
    decreases |pages|
  {
    hide Stored;
    var n, pages' := |pages| - 1, pages[p := page];
    if p == n {
      assert pages'[..n] == pages[..n];
    } else {
      assert pages'[..n] == pages[..n][p := page];
      StoredUpdate(pages[..n], p, page);
      MultisetSwap(AllStored(pages'[..n]), Stored(pages[n]), Stored(pages[p]));
      MultisetSwap(AllStored(pages[..n]), Stored(pages[n]), Stored(page));
    }
  }

  lemma StoredAppend(pages: seq<Page>, page: Page)
    ensures AllStored(pages + [page]) == AllStored(pages) + Stored(page)
  {
    assert (pages + [page])[..|pages|] == pages;
  }

  lemma StoredEmpty(prev: Link, max: nat)
    ensures Stored(EmptyPage(prev, max)) == multiset{}
  {
    var nodes := EmptyPage(prev, max).nodes;
    assert forall v :: v in multiset(nodes) ==> v in nodes;
  }

  /** A thread that has nothing under way on a slot does not count for it. */
  lemma {:induction false} NetNone(threads: seq<Thread>, page: nat, index: int)
    requires forall t :: 0 <= t < |threads| ==> Balance(threads[t], page, index) == 0
    ensures Net(threads, page, index) == 0
    decreases |threads|
  {
    if threads != [] { NetNone(threads[..|threads| - 1], page, index); }
  }

  // ----- What other threads know stays true -----

  /** How the shared state can change in one step, as far as the threads' knowledge goes. */
  ghost predicate Evolves(s: State, s': State) {
    && s'.max == s.max && s.chain <= s'.chain && Distinct(s'.chain) && |s.pages| <= |s'.pages|
    && s.head.version <= s'.head.version
    && (s.head.version == s'.head.version ==> s'.head == s.head && s'.chain == s.chain)
    && (forall p :: 0 <= p < |s.pages| && p in s.chain ==> LinksEvolve(s.pages[p], s'.pages[p]))
  }

  ghost predicate LinksEvolve(page: Page, page': Page) {
    page'.prev == page.prev && (page.next.To? ==> page'.next == page.next)
  }

  lemma SnapshotStays(s: State, s': State, h: Head)
    requires Evolves(s, s') && Snapshot(s, h)
    ensures Snapshot(s', h) && Ord(s'.chain, h.page) == Ord(s.chain, h.page)
  {
    OrdGrows(s.chain, s'.chain, h.page);
  }

  lemma LinkFact(s: State, s': State, p: nat)
    requires Structure(s) && Evolves(s, s') && p in s.chain
    ensures p < |s.pages| && p < |s'.pages| && LinksEvolve(s.pages[p], s'.pages[p])
  {
    assert ChainOk(s, Ord(s.chain, p));
  }

  lemma PushCasStays(s: State, s': State, th: Thread)
    requires Structure(s) && Evolves(s, s') && ThreadOk(s, th) && th.PushCas?
    requires th.spare.To? ==> var p := th.spare.page; p !in s'.chain && p < |s'.pages| && s'.pages[p].prev == s.pages[p].prev
    ensures ThreadOk(s', th)
  {
    hide Structure;
    SnapshotStays(s, s', th.e);
    hide Base;
    if th.want.page in s.chain { OrdGrows(s.chain, s'.chain, th.want.page); }
  }

  lemma PopCasStays(s: State, s': State, th: Thread)
    requires Structure(s) && Evolves(s, s') && ThreadOk(s, th) && th.PopCas?
    ensures ThreadOk(s', th)
  {
    var PopCas(e, want, page, index) := th;
    SnapshotStays(s, s', e);
    if e.version == s'.head.version && e.index <= 0 && Ord(s.chain, e.page) > 0 {
      assert want.page == s.chain[Ord(s.chain, e.page) - 1];
      LinkFact(s, s', want.page);
    }
    hide Base, Structure;
  }

  lemma ThreadStays(s: State, s': State, th: Thread)
    requires Structure(s) && Evolves(s, s') && ThreadOk(s, th)
    requires Spare(th).To? ==> var p := Spare(th).page; p !in s'.chain && p < |s'.pages| && s'.pages[p].prev == s.pages[p].prev
    requires th.PushLink? ==> Unlinked(s', th.page)
    ensures ThreadOk(s', th)
  {
    hide Structure, Snapshot;
    match th
    case PushPlan(v, e, spare) => SnapshotStays(s, s', e);
    case PushNext(v, e, spare) =>
      SnapshotStays(s, s', e);
      SnapshotPage(s, e);
      LinkFact(s, s', e.page);
    case PushCas(v, e, want, spare) => PushCasStays(s, s', th);
    case PopLoop(e) => SnapshotStays(s, s', e);
    case PopPrev(e, h) =>
      SnapshotStays(s, s', e);
      SnapshotStays(s, s', h);
    case PopWait(e, h, prev) =>
      SnapshotStays(s, s', e);
      SnapshotStays(s, s', h);
    case PopCas(e, want, page, index) => PopCasStays(s, s', th);
    case _ =>
  }

  lemma SnapshotPage(s: State, h: Head)
    requires Snapshot(s, h)
    ensures h.page in s.chain && -1 <= h.index < s.max
  {
  }

  // ----- Steps that change nothing shared -----

  function Quiet(s: State, t: nat, th: Thread, log: seq<Event>): State
    requires t < |s.threads|
  {
    s.(threads := s.threads[t := th], log := log)
  }

  lemma QuietKeeps(s: State, t: nat, th: Thread, log: seq<Event>)
    requires Inv(s) && t < |s.threads| && ThreadOk(s, th)
    requires Spare(th).Null? || Spare(th) == Spare(s.threads[t])
    requires !th.PushLink? && !s.threads[t].PushLink?
    requires forall page, index :: Balance(th, page, index) == Balance(s.threads[t], page, index)
    requires Pending(th) == Pending(s.threads[t])
    ensures Inv(Quiet(s, t, th, log))
  {
    hide Structure, Snapshot, ThreadsOk, LinksPending, SlotsOk, Conserved;
    QuietStructure(s, t, th, log);
    QuietThreads(s, t, th, log);
    QuietLinks(s, t, th, log);
    QuietSlots(s, t, th, log);
    QuietConserved(s, t, th, log);
  }

  lemma QuietConserved(s: State, t: nat, th: Thread, log: seq<Event>)
    requires Conserved(s) && t < |s.threads| && Pending(th) == Pending(s.threads[t])
    ensures Conserved(Quiet(s, t, th, log))
  {
    hide Pending, AllPending, AllStored;
    PendingUpdate(s.threads, t, th);
    MultisetCancel(AllPending(s.threads[t := th]), AllPending(s.threads), Pending(th));
  }

  lemma MultisetCancel(a: multiset<nat>, b: multiset<nat>, c: multiset<nat>)
    requires a + c == b + c
    ensures a == b
  {
    forall v ensures a[v] == b[v] {
      assert (a + c)[v] == a[v] + c[v];
      assert (b + c)[v] == b[v] + c[v];
    }
  }

  lemma QuietStructure(s: State, t: nat, th: Thread, log: seq<Event>)
    requires Structure(s) && t < |s.threads|
    ensures Structure(Quiet(s, t, th, log))
    ensures Snapshot(s, s.head) ==> Snapshot(Quiet(s, t, th, log), s.head)
  {
    var s' := Quiet(s, t, th, log);
    assert forall p :: 0 <= p < |s.pages| ==> PageOk(s, p) ==> PageOk(s', p);
    assert forall i :: 0 <= i < |s.chain| ==> ChainOk(s, i) ==> ChainOk(s', i);
  }

  lemma QuietThreads(s: State, t: nat, th: Thread, log: seq<Event>)
    requires Structure(s) && ThreadsOk(s) && t < |s.threads| && ThreadOk(s, th)
    requires Spare(th).Null? || Spare(th) == Spare(s.threads[t])
    requires !th.PushLink?
    ensures ThreadsOk(Quiet(s, t, th, log))
  {
    var s' := Quiet(s, t, th, log);
    forall u | 0 <= u < |s'.threads| ensures ThreadOk(s', s'.threads[u]) {
      ThreadStays(s, s', s'.threads[u]);
    }
    forall u, w | 0 <= u < |s'.threads| && 0 <= w < |s'.threads| && u != w ensures PairOk(s'.threads[u], s'.threads[w]) {
      assert PairOk(s.threads[u], s.threads[w]);
    }
  }

  lemma QuietLinks(s: State, t: nat, th: Thread, log: seq<Event>)
    requires LinksPending(s) && t < |s.threads| && !s.threads[t].PushLink?
    ensures LinksPending(Quiet(s, t, th, log))
  {
    var s' := Quiet(s, t, th, log);
    forall i | 1 <= i < |s'.chain| ensures LinkPending(s', i) {
      assert LinkPending(s, i);
      if s.chain[i - 1] < |s.pages| && s.pages[s.chain[i - 1]].next.Null? && s.head.page in s.chain {
        var u :| 0 <= u < |s.threads| && s.threads[u].PushLink? && s.threads[u].page == s.chain[i];
        assert s'.threads[u] == s.threads[u];
      }
    }
  }

  lemma QuietSlots(s: State, t: nat, th: Thread, log: seq<Event>)
    requires SlotsOk(s) && t < |s.threads|
    requires forall page, index :: Balance(th, page, index) == Balance(s.threads[t], page, index)
    ensures SlotsOk(Quiet(s, t, th, log))
  {
    var s' := Quiet(s, t, th, log);
    forall i, index | 0 <= i < |s'.chain| && 0 <= index < s'.max ensures SlotOk(s', i, index) {
      assert SlotOk(s, i, index);
      NetUpdate(s.threads, t, th, s.chain[i], index);
    }
  }

  /** A call under way takes another quiet step. */
  lemma QuietRun(s: State, t: nat, th: Thread)
    requires Inv(s) && t < |s.threads| && ThreadOk(s, th)
    requires Spare(th).Null? || Spare(th) == Spare(s.threads[t])
    requires !th.PushLink? && !s.threads[t].PushLink?
    requires forall page, index :: Balance(th, page, index) == Balance(s.threads[t], page, index)
    requires Pending(th) == Pending(s.threads[t])
    ensures Inv(Move(s, t, th))
  {
    QuietKeeps(s, t, th, s.log);
    assert Move(s, t, th) == Quiet(s, t, th, s.log);
  }

  lemma KnownThread(s: State, t: nat)
    requires Inv(s) && t < |s.threads|
    ensures ThreadOk(s, s.threads[t]) && Snapshot(s, s.head) && s.max > 0
  {
  }

  lemma ChainFact(s: State, i: nat)
    requires Inv(s) && i < |s.chain|
    ensures ChainOk(s, i) && s.chain[i] in s.chain && Ord(s.chain, s.chain[i]) == i
  {
    OrdIs(s.chain, i);
  }

  /** A head with something below it stands on a slot. */
  lemma NotEmpty(s: State, h: Head)
    requires Snapshot(s, h) && h.length > 0
    ensures h.index >= 0
  {
  }

  lemma KeepsReturnNothing(s: State, t: nat)
    requires Inv(s) && t < |s.threads| && (s.threads[t].PopStart? || s.threads[t].PopCas?)
    ensures Inv(Log(Move(s, t, Idle), PoppedNothing))
  {
    QuietKeeps(s, t, Idle, s.log + [PoppedNothing]);
    assert Log(Move(s, t, Idle), PoppedNothing) == Quiet(s, t, Idle, s.log + [PoppedNothing]);
  }

  lemma KeepsCall(s: State, t: nat, step: Step)
    requires Inv(s) && t < |s.threads| && Enabled(s, t, step) && !step.Run?
    ensures Inv(Apply(s, t, step))
  {
    hide Inv, Base;
    KnownThread(s, t);
    match step
    case CallPush(v) => QuietRun(s, t, PushStart(v));
    case CallPop => QuietRun(s, t, PopStart);
    case CasFails =>
      var th := s.threads[t];
      if th.PushCas? {
        QuietRun(s, t, PushPlan(th.v, s.head, th.spare));
      } else if s.head.length > 0 {
        QuietRun(s, t, PopLoop(s.head));
      } else {
        KeepsReturnNothing(s, t);
      }
  }

  lemma KeepsPushPlanQuiet(s: State, t: nat)
    requires Inv(s) && t < |s.threads| && Enabled(s, t, Run) && s.threads[t].PushPlan?
    requires s.threads[t].e.index != s.max - 1 || s.pages[s.threads[t].e.page].next.To?
    ensures Inv(Plan(s, t))
  {
    hide Inv, Base;
    KnownThread(s, t);
    var PushPlan(v, e, spare) := s.threads[t];
    if e.index != s.max - 1 {
      QuietRun(s, t, PushCas(v, e, PushHead(e, e.page, e.index + 1), spare));
    } else {
      QuietRun(s, t, PushNext(v, e, spare));
    }
  }

  lemma KeepsPushNext(s: State, t: nat)
    requires Inv(s) && t < |s.threads| && Enabled(s, t, Run) && s.threads[t].PushNext?
    ensures Inv(Apply(s, t, Run))
  {
    hide Inv, Base;
    KnownThread(s, t);
    var PushNext(v, e, spare) := s.threads[t];
    ChainFact(s, Ord(s.chain, e.page));
    ChainFact(s, Ord(s.chain, e.page) + 1);
    QuietRun(s, t, PushCas(v, e, PushHead(e, s.pages[e.page].next.page, 0), spare));
  }

  lemma KeepsPopLoop(s: State, t: nat)
    requires Inv(s) && t < |s.threads| && s.threads[t].PopLoop?
    ensures Inv(Apply(s, t, Run))
  {
    hide Inv;
    KnownThread(s, t);
    var e := s.threads[t].e;
    NotEmpty(s, e);
    hide Base;
    if s.head.index == 0 {
      QuietRun(s, t, PopPrev(e, s.head));
    } else {
      QuietRun(s, t, PopCas(e, PopHead(e, s.head.page, s.head.index - 1), s.head.page, s.head.index));
    }
  }

  lemma KeepsPopPrev(s: State, t: nat)
    requires Inv(s) && t < |s.threads| && Enabled(s, t, Run) && s.threads[t].PopPrev?
    ensures Inv(Apply(s, t, Run))
  {
    hide Inv, Base;
    KnownThread(s, t);
    var PopPrev(e, h) := s.threads[t];
    ChainFact(s, Ord(s.chain, h.page));
    if s.pages[h.page].prev.To? {
      QuietRun(s, t, PopWait(e, h, s.pages[h.page].prev.page));
    } else {
      QuietRun(s, t, PopCas(e, PopHead(e, h.page, -1), h.page, h.index));
    }
  }

  lemma KeepsPopWait(s: State, t: nat)
    requires Inv(s) && t < |s.threads| && Enabled(s, t, Run) && s.threads[t].PopWait?
    ensures Inv(Apply(s, t, Run))
  {
    hide Inv, Base;
    KnownThread(s, t);
    var PopWait(e, h, prev) := s.threads[t];
    if s.pages[prev].next.To? {
      QuietRun(s, t, PopCas(e, PopHead(e, prev, s.max - 1), h.page, h.index));
    }
  }

  lemma KeepsPopRead(s: State, t: nat)
    requires Inv(s) && t < |s.threads| && Enabled(s, t, Run)
    requires s.threads[t].PopRead? || (s.threads[t].PopTake? && s.pages[s.threads[t].page].nodes[s.threads[t].index] != s.threads[t].seen)
    ensures Inv(Apply(s, t, Run))
  {
    hide Inv, Base;
    KnownThread(s, t);
    var page, index := s.threads[t].page, s.threads[t].index;
    var v := s.pages[page].nodes[index];
    if s.threads[t].PopTake? {
      QuietRun(s, t, PopRead(page, index));
    } else if v != 0 {
      QuietRun(s, t, PopTake(page, index, v));
    }
  }

  // ----- Steps that change shared state -----

  /** What the rest of the threads need from a step of thread `t`. */
  ghost predicate Undisturbed(s: State, s': State, th: Thread) {
    && (Spare(th).To? ==>
          var p := Spare(th).page; p < |s.pages| && p < |s'.pages| && p !in s'.chain && s'.pages[p].prev == s.pages[p].prev)
    && (th.PushLink? ==> Unlinked(s', th.page))
  }

  lemma StepThreads(s: State, s': State, t: nat, th: Thread)
    requires Structure(s) && ThreadsOk(s) && Evolves(s, s')
    requires t < |s.threads| && s'.threads == s.threads[t := th] && ThreadOk(s', th)
    requires forall u :: 0 <= u < |s.threads| && u != t ==>
               Undisturbed(s, s', s.threads[u]) && PairOk(th, s.threads[u]) && PairOk(s.threads[u], th)
    ensures ThreadsOk(s')
  {
    hide ThreadOk, Evolves, Structure;
    forall u | 0 <= u < |s'.threads| ensures ThreadOk(s', s'.threads[u]) {
      if u != t { assert Undisturbed(s, s', s.threads[u]); ThreadStays(s, s', s.threads[u]); }
    }
    forall u, w | 0 <= u < |s'.threads| && 0 <= w < |s'.threads| && u != w ensures PairOk(s'.threads[u], s'.threads[w]) {
      if u != t && w != t { assert PairOk(s.threads[u], s.threads[w]); }
    }
  }

  /** A head on `page` is not before a pending link that the old head was not before. */
  ghost predicate LinkStaysBehind(s: State, page: nat, i: nat)
    requires 1 <= i < |s.chain|
  {
    (&& s.head.page in s.chain && page in s.chain && s.chain[i - 1] < |s.pages| && s.pages[s.chain[i - 1]].next.Null?
     && i <= Ord(s.chain, s.head.page)) ==>
      i <= Ord(s.chain, page)
  }

  /** The pending links are kept when no link is left out and the head does not fall before one. */
  lemma StepLinks(s: State, s': State, t: nat, th: Thread)
    requires LinksPending(s) && Structure(s) && Snapshot(s, s.head) && Snapshot(s', s'.head)
    requires t < |s.threads| && s'.threads == s.threads[t := th] && s'.chain == s.chain && |s.pages| <= |s'.pages|
    requires !s.threads[t].PushLink?
    requires forall p :: 0 <= p < |s.pages| && p in s.chain ==> s'.pages[p].next == s.pages[p].next
    requires forall i :: 1 <= i < |s.chain| ==> LinkStaysBehind(s, s'.head.page, i)
    ensures LinksPending(s')
  {
    hide Snapshot;
    SnapshotPage(s, s.head);
    SnapshotPage(s', s'.head);
    forall i | 1 <= i < |s'.chain| ensures LinkPending(s', i) {
      assert LinkPending(s, i);
      assert ChainOk(s, i - 1);
      assert LinkStaysBehind(s, s'.head.page, i);
      if s.pages[s.chain[i - 1]].next.Null? {
        var u :| 0 <= u < |s.threads| && s.threads[u].PushLink? && s.threads[u].page == s.chain[i];
        assert s'.threads[u] == s.threads[u];
      }
    }
  }

  // -- a push prepares a page of its own --

  /** Only pages off the chain differ, and they hold nothing. */
  ghost predicate PrivateChange(s: State, pages: seq<Page>) {
    && |s.pages| <= |pages|
    && (forall p :: 0 <= p < |s.pages| && p in s.chain ==> pages[p] == s.pages[p])
    && (forall p :: 0 <= p < |pages| && p !in s.chain ==> pages[p] == EmptyPage(pages[p].prev, s.max))
    && AllStored(pages) == AllStored(s.pages)
  }

  lemma PrivateStructure(s: State, s': State, t: nat, th: Thread)
    requires Structure(s) && Snapshot(s, s.head) && t < |s.threads| && PrivateChange(s, s'.pages)
    requires s' == s.(pages := s'.pages, threads := s.threads[t := th])
    ensures Structure(s') && Snapshot(s', s'.head) && Evolves(s, s')
  {
    forall p | 0 <= p < |s'.pages| ensures PageOk(s', p) {
      if p in s.chain {
        var i := Ord(s.chain, p);
        assert ChainOk(s, i);
        assert PageOk(s, p);
      }
    }
    forall i | 0 <= i < |s'.chain| ensures ChainOk(s', i) {
      assert ChainOk(s, i);
      assert s.chain[i] in s.chain;
    }
  }

  lemma PrivateSlots(s: State, s': State, t: nat, th: Thread)
    requires Structure(s) && SlotsOk(s) && t < |s.threads| && PrivateChange(s, s'.pages)
    requires s' == s.(pages := s'.pages, threads := s.threads[t := th])
    requires forall page, index :: Balance(th, page, index) == Balance(s.threads[t], page, index)
    ensures SlotsOk(s')
  {
    hide AllStored;
    forall i, index | 0 <= i < |s'.chain| && 0 <= index < s'.max ensures SlotOk(s', i, index) {
      assert SlotOk(s, i, index);
      assert ChainOk(s, i);
      assert s.chain[i] in s.chain;
      NetUpdate(s.threads, t, th, s.chain[i], index);
    }
  }

  lemma PrivateKeeps(s: State, s': State, t: nat, th: Thread)
    requires Inv(s) && t < |s.threads| && PrivateChange(s, s'.pages)
    requires s' == s.(pages := s'.pages, threads := s.threads[t := th])
    requires ThreadOk(s', th) && !th.PushLink? && !s.threads[t].PushLink?
    requires forall u :: 0 <= u < |s.threads| && u != t ==>
               Undisturbed(s, s', s.threads[u]) && PairOk(th, s.threads[u]) && PairOk(s.threads[u], th)
    requires forall page, index :: Balance(th, page, index) == Balance(s.threads[t], page, index)
    requires Pending(th) == Pending(s.threads[t])
    ensures Inv(s')
  {
    hide Structure, Snapshot, ThreadsOk, LinksPending, SlotsOk, ThreadOk, Undisturbed, PairOk, AllStored, AllPending, Pending, Balance;
    PrivateStructure(s, s', t, th);
    StepThreads(s, s', t, th);
    assert forall i :: 1 <= i < |s.chain| ==> LinkStaysBehind(s, s'.head.page, i);
    StepLinks(s, s', t, th);
    PrivateSlots(s, s', t, th);
    PendingUpdate(s.threads, t, th);
    MultisetCancel(AllPending(s.threads[t := th]), AllPending(s.threads), Pending(th));
  }

  /** If the head is where the page has no next page yet, that page is the last one. */
  lemma HeadOnLastPage(s: State)
    requires Inv(s) && s.head.page < |s.pages| && s.pages[s.head.page].next.Null?
    ensures s.head.page in s.chain && Ord(s.chain, s.head.page) == |s.chain| - 1
  {
    var o := Ord(s.chain, s.head.page);
    assert o + 1 < |s.chain| ==> LinkPending(s, o + 1);
  }

  lemma OthersUndisturbed(s: State, s': State, t: nat)
    requires Inv(s) && t < |s.threads| && s'.chain == s.chain && |s.pages| <= |s'.pages|
    requires forall p :: 0 <= p < |s.pages| && p in s.chain ==> s'.pages[p].next == s.pages[p].next
    requires forall p :: 0 <= p < |s.pages| && To(p) != Spare(s.threads[t]) ==> s'.pages[p].prev == s.pages[p].prev
    ensures forall u :: 0 <= u < |s.threads| && u != t ==> Undisturbed(s, s', s.threads[u])
  {
    forall u | 0 <= u < |s.threads| && u != t ensures Undisturbed(s, s', s.threads[u]) {
      assert ThreadOk(s, s.threads[u]) && PairOk(s.threads[u], s.threads[t]);
      assert SpareOk(s, Spare(s.threads[u])) by { SpareKnown(s, s.threads[u]); }
      if s.threads[u].PushLink? {
        var q := s.chain[Ord(s.chain, s.threads[u].page) - 1];
        assert q in s.chain;
      }
    }
  }

  lemma SpareKnown(s: State, th: Thread)
    requires ThreadOk(s, th)
    ensures SpareOk(s, Spare(th))
  {
  }

  lemma KeepsAllocate(s: State, t: nat)
    requires Inv(s) && t < |s.threads| && Enabled(s, t, Run) && s.threads[t].PushPlan?
    requires var PushPlan(v, e, spare) := s.threads[t]; e.index == s.max - 1 && s.pages[e.page].next.Null? && spare.Null?
    ensures Inv(Plan(s, t))
  {
    hide Inv, ThreadOk, PrivateChange, Undisturbed, PairOk;
    var PushPlan(v, e, spare) := s.threads[t];
    var p, s' := |s.pages|, Plan(s, t);
    var th := PushCas(v, e, PushHead(e, p, 0), To(p));
    AllocateIsPrivate(s, e);
    OthersUndisturbed(s, s', t);
    FreshPage(s);
    OwnPageTarget(s, s', t, e, p);
    FreshPagePairs(s, t, th);
    PrivateKeeps(s, s', t, th);
  }

  lemma AllocateIsPrivate(s: State, e: Head)
    requires Inv(s)
    ensures PrivateChange(s, s.pages + [EmptyPage(To(e.page), s.max)])
  {
    hide AllStored;
    PagesOffChain(s);
    StoredAppend(s.pages, EmptyPage(To(e.page), s.max));
    StoredEmpty(To(e.page), s.max);
  }

  lemma FreshPagePairs(s: State, t: nat, th: Thread)
    requires Inv(s) && t < |s.threads| && th.PushCas? && th.spare == To(|s.pages|)
    ensures forall u :: 0 <= u < |s.threads| && u != t ==> PairOk(th, s.threads[u]) && PairOk(s.threads[u], th)
  {
    forall u | 0 <= u < |s.threads| && u != t ensures PairOk(th, s.threads[u]) && PairOk(s.threads[u], th) {
      KnownThread(s, u);
      SpareKnown(s, s.threads[u]);
    }
  }

  lemma PagesOffChain(s: State)
    requires Inv(s)
    ensures forall p :: 0 <= p < |s.pages| && p !in s.chain ==> s.pages[p] == EmptyPage(s.pages[p].prev, s.max)
  {
    forall p | 0 <= p < |s.pages| && p !in s.chain ensures s.pages[p] == EmptyPage(s.pages[p].prev, s.max) {
      assert PageOk(s, p);
    }
  }

  lemma FreshPage(s: State)
    requires Inv(s)
    ensures |s.pages| !in s.chain
  {
    assert |s.pages| in s.chain ==> ChainOk(s, Ord(s.chain, |s.pages|));
  }

  /** A page of its own is a target for a push that found no next page. */
  lemma OwnPageTarget(s: State, s': State, t: nat, e: Head, p: nat)
    requires Inv(s) && t < |s.threads| && s.threads[t].PushPlan? && s.threads[t].e == e
    requires e.index == s.max - 1 && e.page < |s.pages| && s.pages[e.page].next.Null?
    requires s'.chain == s.chain && s'.head == s.head && s'.max == s.max
    requires p < |s'.pages| && p !in s.chain && s'.pages[p].prev == To(e.page)
    ensures ThreadOk(s', PushCas(s.threads[t].v, e, PushHead(e, p, 0), To(p)))
  {
    KnownThread(s, t);
    if e.version == s.head.version { HeadOnLastPage(s); }
  }

  lemma KeepsReuse(s: State, t: nat)
    requires Inv(s) && t < |s.threads| && Enabled(s, t, Run) && s.threads[t].PushPlan?
    requires var PushPlan(v, e, spare) := s.threads[t]; e.index == s.max - 1 && s.pages[e.page].next.Null? && spare.To?
    ensures Inv(Plan(s, t))
  {
    var PushPlan(v, e, spare) := s.threads[t];
    var p, s' := spare.page, Plan(s, t);
    var th := PushCas(v, e, PushHead(e, p, 0), spare);
    KnownThread(s, t);
    assert p !in s.chain;
    hide Inv, ThreadOk, PrivateChange, Undisturbed, PairOk;
    ReuseIsPrivate(s, e, p);
    OthersUndisturbed(s, s', t);
    OwnPageTarget(s, s', t, e, p);
    SameSparePairs(s, t, th);
    PrivateKeeps(s, s', t, th);
  }

  lemma ReuseIsPrivate(s: State, e: Head, p: nat)
    requires Inv(s) && p < |s.pages| && p !in s.chain
    ensures PrivateChange(s, s.pages[p := s.pages[p].(prev := To(e.page))])
  {
    hide AllStored;
    PagesOffChain(s);
    var page := s.pages[p].(prev := To(e.page));
    StoredUpdate(s.pages, p, page);
    assert Stored(page) == Stored(s.pages[p]);
    MultisetCancel(AllStored(s.pages[p := page]), AllStored(s.pages), Stored(page));
  }

  lemma SameSparePairs(s: State, t: nat, th: Thread)
    requires Inv(s) && t < |s.threads| && !th.PushLink? && (Spare(th).Null? || Spare(th) == Spare(s.threads[t]))
    ensures forall u :: 0 <= u < |s.threads| && u != t ==> PairOk(th, s.threads[u]) && PairOk(s.threads[u], th)
  {
    forall u | 0 <= u < |s.threads| && u != t ensures PairOk(th, s.threads[u]) && PairOk(s.threads[u], th) {
      assert PairOk(s.threads[t], s.threads[u]) && PairOk(s.threads[u], s.threads[t]);
    }
  }

  // -- the head moves along the chain --

  /** The head moves past exactly the slot that `th` has now reserved. */
  ghost predicate MovesPast(s: State, s': State, th: Thread, i: nat, index: int)
    requires i < |s.chain| && s.head.page in s.chain && s'.head.page in s'.chain
  {
    (if Below(s', i, index) then 1 else 0) == (if Below(s, i, index) then 1 else 0) + Balance(th, s.chain[i], index)
  }

  ghost predicate HeadMove(s: State, s': State, t: nat, th: Thread)
    requires t < |s.threads|
  {
    && s' == s.(head := s'.head, threads := s.threads[t := th], reserved := s'.reserved)
    && s'.head.version == s.head.version + 1
  }

  lemma HeadMoveStructure(s: State, s': State, t: nat, th: Thread)
    requires Structure(s) && t < |s.threads| && HeadMove(s, s', t, th)
    ensures Structure(s') && Evolves(s, s')
  {
    assert forall p :: 0 <= p < |s.pages| ==> PageOk(s, p) ==> PageOk(s', p);
    assert forall i :: 0 <= i < |s.chain| ==> ChainOk(s, i) ==> ChainOk(s', i);
  }

  lemma HeadMoveSlots(s: State, s': State, t: nat, th: Thread)
    requires Structure(s) && SlotsOk(s) && t < |s.threads| && HeadMove(s, s', t, th)
    requires s.head.page in s.chain && s'.head.page in s.chain
    requires forall i, index :: 0 <= i < |s.chain| && 0 <= index < s.max ==> MovesPast(s, s', th, i, index)
    requires forall page, index :: Balance(s.threads[t], page, index) == 0
    ensures SlotsOk(s')
  {
    hide Balance, Below, Ord;
    forall i, index | 0 <= i < |s'.chain| && 0 <= index < s'.max ensures SlotOk(s', i, index) {
      assert SlotOk(s, i, index);
      assert MovesPast(s, s', th, i, index);
      assert ChainOk(s, i);
      NetUpdate(s.threads, t, th, s.chain[i], index);
    }
  }

  lemma HeadMoveKeeps(s: State, s': State, t: nat, th: Thread)
    requires Inv(s) && t < |s.threads| && HeadMove(s, s', t, th)
    requires Snapshot(s', s'.head) && ThreadOk(s', th) && Spare(th).Null? && !th.PushLink?
    requires s.threads[t].PushCas? || s.threads[t].PopCas?
    requires s.head.page in s.chain && s'.head.page in s.chain
    requires forall i, index :: 0 <= i < |s.chain| && 0 <= index < s.max ==> MovesPast(s, s', th, i, index)
    requires forall i :: 1 <= i < |s.chain| ==> LinkStaysBehind(s, s'.head.page, i)
    requires s'.reserved == s.reserved + Pending(th)
    ensures Inv(s')
  {
    OthersUndisturbed(s, s', t);
    SameSparePairs(s, t, th);
    NothingUnderWay(s.threads[t]);
    hide Structure, Snapshot, ThreadsOk, LinksPending, SlotsOk, ThreadOk, Undisturbed, PairOk, AllStored, AllPending,
         Pending, MovesPast, LinkStaysBehind;
    HeadMoveStructure(s, s', t, th);
    StepThreads(s, s', t, th);
    StepLinks(s, s', t, th);
    HeadMoveSlots(s, s', t, th);
    PendingUpdate(s.threads, t, th);
    HeadMoveConserved(s, s', t, th);
  }

  lemma NothingUnderWay(th: Thread)
    requires th.PushCas? || th.PopCas?
    ensures forall page, index :: Balance(th, page, index) == 0
    ensures Pending(th) == multiset{}
  {
  }

  lemma HeadMoveConserved(s: State, s': State, t: nat, th: Thread)
    requires Conserved(s) && t < |s.threads| && HeadMove(s, s', t, th)
    requires Pending(s.threads[t]) == multiset{} && s'.reserved == s.reserved + Pending(th)
    ensures Conserved(s')
  {
    hide AllStored, AllPending, Pending;
    PendingUpdate(s.threads, t, th);
    var a, b := AllPending(s.threads), AllPending(s'.threads);
    assert b + multiset{} == b;
    MultisetSwap(a, AllStored(s.pages) + s.popped, Pending(th));
  }

  lemma PublishSnapshot(s: State, t: nat)
    requires Inv(s) && t < |s.threads| && s.threads[t].PushCas? && s.head == s.threads[t].e
    requires s.threads[t].spare != To(s.threads[t].want.page)
    ensures var PushCas(v, e, want, spare) := s.threads[t];
            && v != 0 && e.page in s.chain && want.page in s.chain && 0 <= want.index < s.max
            && want.version == e.version + 1
            && (if e.index == s.max - 1
                then Ord(s.chain, want.page) == Ord(s.chain, e.page) + 1 && want.index == 0
                else want.page == e.page && want.index == e.index + 1)
            && Snapshot(s.(head := want), want)
  {
    KnownThread(s, t);
  }

  /** A head that steps up leaves every pending link behind it. */
  lemma StepUpLinks(s: State, page: nat)
    requires s.head.page in s.chain && page in s.chain && Ord(s.chain, s.head.page) <= Ord(s.chain, page)
    ensures forall i :: 1 <= i < |s.chain| ==> LinkStaysBehind(s, page, i)
  {
    hide Ord;
  }

  lemma PublishPasses(s: State, s': State, t: nat)
    requires Inv(s) && t < |s.threads| && s.threads[t].PushCas? && s.head == s.threads[t].e
    requires s.threads[t].spare != To(s.threads[t].want.page) && s'.chain == s.chain && s'.head == s.threads[t].want
    ensures s.threads[t].v != 0 && 0 <= s.threads[t].want.index
    ensures s.head.page in s.chain && s'.head.page in s'.chain
    ensures var th := PushWrite(s.threads[t].v, s'.head.page, s'.head.index);
            forall i, index :: 0 <= i < |s.chain| && 0 <= index < s.max ==> MovesPast(s, s', th, i, index)
  {
    PublishSnapshot(s, t);
    assert Distinct(s.chain);
    hide Base, Inv, MovesPast, Distinct, Snapshot;
    forall i, index | 0 <= i < |s.chain| && 0 <= index < s.max
      ensures MovesPast(s, s', PushWrite(s.threads[t].v, s'.head.page, s'.head.index), i, index)
    {
      StepUpPasses(s, s', s.threads[t].v, i, index);
    }
  }

  lemma PublishedOk(s: State, s': State, v: nat)
    requires v != 0 && s'.head.index >= 0 && Snapshot(s.(head := s'.head), s'.head) && s'.chain == s.chain && s'.max == s.max
    ensures Snapshot(s', s'.head) && ThreadOk(s', PushWrite(v, s'.head.page, s'.head.index))
  {
    hide Base, Ord;
  }

  lemma KeepsPublishOnChain(s: State, t: nat)
    requires Inv(s) && t < |s.threads| && s.threads[t].PushCas? && s.head == s.threads[t].e
    requires s.threads[t].spare != To(s.threads[t].want.page)
    ensures Inv(Publish(s, t))
  {
    hide Base, Inv, LinkStaysBehind, Ord, MovesPast, Below, Snapshot, ThreadOk;
    var PushCas(v, e, want, spare) := s.threads[t];
    var th, s' := PushWrite(v, want.page, want.index), Publish(s, t);
    PublishSnapshot(s, t);
    PublishPasses(s, s', t);
    StepUpLinks(s, want.page);
    PublishedOk(s, s', v);
    HeadMoveKeeps(s, s', t, th);
  }

  lemma PopCasSnapshot(s: State, t: nat)
    requires Inv(s) && t < |s.threads| && s.threads[t].PopCas? && s.head == s.threads[t].e
    ensures var PopCas(e, want, page, index) := s.threads[t];
            && e.page in s.chain && page == e.page && 0 <= index == e.index < s.max
            && PopTarget(s, e, want) && want.page in s.chain
            && Ord(s.chain, want.page) ==
               (if e.index == 0 && Ord(s.chain, e.page) > 0 then Ord(s.chain, e.page) - 1 else Ord(s.chain, e.page))
            && Snapshot(s.(head := want), want)
  {
    var PopCas(e, want, page, index) := s.threads[t];
    KnownThread(s, t);
    NotEmpty(s, e);
    var o := Ord(s.chain, e.page);
    OrdIs(s.chain, o);
    if o > 0 { OrdIs(s.chain, o - 1); }
  }

  /** A head that steps down one slot passes the slot it stood on. */
  lemma StepDownPasses(s: State, s': State, i: nat, j: int)
    requires s.head.page in s.chain && s'.head.page in s.chain && s'.chain == s.chain && Distinct(s.chain)
    requires 0 <= s.head.index < s.max && i < |s.chain| && 0 <= j < s.max
    requires var o := Ord(s.chain, s.head.page);
             if s.head.index > 0 || o == 0 then s'.head.page == s.head.page && s'.head.index == s.head.index - 1
             else Ord(s.chain, s'.head.page) == o - 1 && s'.head.index == s.max - 1
    ensures MovesPast(s, s', PopRead(s.head.page, s.head.index), i, j)
  {
    OrdIs(s.chain, i);
  }

  /** A head that steps up one slot passes the slot it comes to stand on. */
  lemma StepUpPasses(s: State, s': State, v: nat, i: nat, j: int)
    requires s.head.page in s.chain && s'.head.page in s.chain && s'.chain == s.chain && Distinct(s.chain)
    requires -1 <= s.head.index < s.max && i < |s.chain| && 0 <= j < s.max
    requires var o := Ord(s.chain, s.head.page);
             if s.head.index < s.max - 1 then s'.head.page == s.head.page && s'.head.index == s.head.index + 1
             else Ord(s.chain, s'.head.page) == o + 1 && s'.head.index == 0
    ensures MovesPast(s, s', PushWrite(v, s'.head.page, s'.head.index), i, j)
  {
    OrdIs(s.chain, i);
  }

  /** A pop steps the head down past no pending link. */
  lemma StepDownStaysBehind(s: State, e: Head, want: Head, i: nat)
    requires e == s.head && e.page in s.chain && e.index >= 0 && PopTarget(s, e, want) && want.page in s.chain && Distinct(s.chain)
    requires 1 <= i < |s.chain|
    ensures LinkStaysBehind(s, want.page, i)
  {
    var o := Ord(s.chain, e.page);
    if e.index == 0 && o > 0 { OrdIs(s.chain, o - 1); }
  }

  lemma PopCasMoves(s: State, t: nat)
    requires Inv(s) && t < |s.threads| && s.threads[t].PopCas? && s.head == s.threads[t].e
    ensures var s', th := Apply(s, t, Run), PopRead(s.threads[t].page, s.threads[t].index);
            && Snapshot(s', s'.head) && s'.head.page in s.chain && ThreadOk(s', th)
            && (forall i :: 1 <= i < |s.chain| ==> LinkStaysBehind(s, s'.head.page, i))
            && (forall i, index :: 0 <= i < |s.chain| && 0 <= index < s.max ==> MovesPast(s, s', th, i, index))
  {
    var PopCas(e, want, page, index) := s.threads[t];
    var s' := Apply(s, t, Run);
    PopCasSnapshot(s, t);
    assert Distinct(s.chain);
    hide Base, Inv, MovesPast, LinkStaysBehind, Distinct;
    forall i, j | 0 <= i < |s.chain| && 0 <= j < s.max ensures MovesPast(s, s', PopRead(page, index), i, j) {
      StepDownPasses(s, s', i, j);
    }
    forall i | 1 <= i < |s.chain| ensures LinkStaysBehind(s, s'.head.page, i) {
      StepDownStaysBehind(s, e, want, i);
    }
  }

  lemma KeepsPopCas(s: State, t: nat)
    requires Inv(s) && t < |s.threads| && s.threads[t].PopCas? && s.head == s.threads[t].e
    ensures Inv(Apply(s, t, Run))
  {
    KnownThread(s, t);
    assert s.head.page in s.chain;
    hide Inv, MovesPast, LinkStaysBehind, Snapshot, ThreadOk;
    PopCasMoves(s, t);
    HeadMoveKeeps(s, Apply(s, t, Run), t, PopRead(s.threads[t].page, s.threads[t].index));
  }

  // -- a push publishes its own page --

  lemma PublishStructure(s: State, t: nat)
    requires Inv(s) && t < |s.threads| && s.threads[t].PushCas? && s.head == s.threads[t].e
    requires s.threads[t].spare == To(s.threads[t].want.page)
    ensures var s', q := Publish(s, t), s.threads[t].want.page;
            && Structure(s') && Evolves(s, s') && Snapshot(s', s'.head)
            && q in s'.chain && Ord(s'.chain, q) == |s.chain| && q !in s.chain && Unlinked(s', q)
            && Ord(s.chain, s.head.page) == |s.chain| - 1 && s.head.index == s.max - 1
            && q < |s.pages| && s.pages[q].nodes == seq(s.max, _ => 0)
  {
    var PushCas(v, e, want, spare) := s.threads[t];
    var q, s' := want.page, Publish(s, t);
    KnownThread(s, t);
    assert PageOk(s, q);
    var o := Ord(s.chain, e.page);
    assert o == |s.chain| - 1;
    assert ChainOk(s, o) && s'.chain[o] == e.page;
    assert Distinct(s'.chain);
    OrdIs(s'.chain, |s.chain|);
    forall p | 0 <= p < |s'.pages| ensures PageOk(s', p) { assert PageOk(s, p); }
    forall i | 0 <= i < |s'.chain| ensures ChainOk(s', i) {
      if i < |s.chain| { assert ChainOk(s, i); }
    }
  }

  /** Publishing a page does not concern a thread that neither owns it nor links it. */
  lemma PublishConcernsOne(s: State, s': State, q: nat, th: Thread)
    requires s'.chain == s.chain + [q] && Distinct(s'.chain) && s'.pages == s.pages
    requires SpareOk(s, Spare(th)) && Spare(th) != To(q)
    requires th.PushLink? ==> Unlinked(s, th.page)
    ensures Undisturbed(s, s', th)
  {
    if th.PushLink? { OrdGrows(s.chain, s'.chain, th.page); }
  }

  lemma PublishUndisturbs(s: State, t: nat, u: nat)
    requires Inv(s) && t < |s.threads| && s.threads[t].PushCas? && s.head == s.threads[t].e
    requires s.threads[t].spare == To(s.threads[t].want.page) && u < |s.threads| && u != t
    ensures var th := PushLink(s.threads[t].v, s.threads[t].want.page);
            Undisturbed(s, Publish(s, t), s.threads[u]) && PairOk(th, s.threads[u]) && PairOk(s.threads[u], th)
  {
    hide Inv, ThreadOk, Structure, Snapshot, Evolves, Unlinked, Undisturbed;
    KnownPair(s, t, u);
    PublishStructure(s, t);
    ChainDistinct(Publish(s, t));
    KnownThread(s, u);
    SpareKnown(s, s.threads[u]);
    if s.threads[u].PushLink? {
      UnlinkedKnown(s, u);
      UnlinkedPlace(s, s.threads[u].page);
    }
    PublishConcernsOne(s, Publish(s, t), s.threads[t].want.page, s.threads[u]);
  }

  lemma ChainDistinct(s: State)
    requires Structure(s)
    ensures Distinct(s.chain)
  {
  }

  lemma KnownPair(s: State, t: nat, u: nat)
    requires Inv(s) && t < |s.threads| && u < |s.threads| && t != u
    ensures PairOk(s.threads[t], s.threads[u]) && PairOk(s.threads[u], s.threads[t])
    ensures Distinct(s.chain)
  {
  }

  lemma PublishThreads(s: State, t: nat)
    requires Inv(s) && t < |s.threads| && s.threads[t].PushCas? && s.head == s.threads[t].e
    requires s.threads[t].spare == To(s.threads[t].want.page)
    ensures ThreadsOk(Publish(s, t))
  {
    var s', th := Publish(s, t), PushLink(s.threads[t].v, s.threads[t].want.page);
    PublishStructure(s, t);
    KnownThread(s, t);
    assert ThreadOk(s', th);
    hide Structure, Snapshot, Evolves, ThreadsOk, LinksPending, SlotsOk, Conserved, Undisturbed, PairOk, Unlinked;
    forall u | 0 <= u < |s.threads| && u != t
      ensures Undisturbed(s, s', s.threads[u]) && PairOk(th, s.threads[u]) && PairOk(s.threads[u], th)
    {
      PublishUndisturbs(s, t, u);
    }
    StepThreads(s, s', t, th);
  }

  lemma PublishLinks(s: State, t: nat)
    requires Inv(s) && t < |s.threads| && s.threads[t].PushCas? && s.head == s.threads[t].e
    requires s.threads[t].spare == To(s.threads[t].want.page)
    ensures LinksPending(Publish(s, t))
  {
    var s' := Publish(s, t);
    PublishStructure(s, t);
    forall i | 1 <= i < |s'.chain| ensures LinkPending(s', i) {
      if i < |s.chain| {
        assert LinkPending(s, i);
        assert ChainOk(s, i - 1);
        if s.pages[s.chain[i - 1]].next.Null? {
          var u :| 0 <= u < |s.threads| && s.threads[u].PushLink? && s.threads[u].page == s.chain[i];
          assert s'.threads[u] == s.threads[u];
        }
      } else {
        assert s'.threads[t].PushLink? && s'.threads[t].page == s'.chain[i];
      }
    }
  }

  /** Nothing is under way on a page off the chain. */
  lemma NothingOffChain(s: State, p: nat, index: int)
    requires Inv(s) && p !in s.chain
    ensures Net(s.threads, p, index) == 0
  {
    forall t | 0 <= t < |s.threads| ensures Balance(s.threads[t], p, index) == 0 {
      KnownThread(s, t);
    }
    NetNone(s.threads, p, index);
  }

  lemma PublishSlots(s: State, t: nat)
    requires Inv(s) && t < |s.threads| && s.threads[t].PushCas? && s.head == s.threads[t].e
    requires s.threads[t].spare == To(s.threads[t].want.page)
    ensures SlotsOk(Publish(s, t))
  {
    var s', q := Publish(s, t), s.threads[t].want.page;
    PublishStructure(s, t);
    hide Structure, Snapshot, Evolves, ThreadsOk, LinksPending, Conserved, Unlinked;
    forall i, index | 0 <= i < |s'.chain| && 0 <= index < s'.max ensures SlotOk(s', i, index) {
      NetUpdate(s.threads, t, s'.threads[t], s'.chain[i], index);
      if i < |s.chain| {
        assert SlotOk(s, i, index);
        assert s.chain[i] in s.chain;
      } else {
        NothingOffChain(s, q, index);
      }
    }
  }

  lemma PublishConserved(s: State, t: nat)
    requires Conserved(s) && t < |s.threads| && s.threads[t].PushCas?
    ensures Conserved(Publish(s, t))
  {
    hide AllPending, AllStored;
    var s' := Publish(s, t);
    PendingUpdate(s.threads, t, s'.threads[t]);
    var a, b := AllPending(s.threads), AllPending(s'.threads);
    assert b + multiset{} == b;
    MultisetSwap(a, AllStored(s.pages) + s.popped, multiset{s.threads[t].v});
  }

  lemma KeepsPublishNew(s: State, t: nat)
    requires Inv(s) && t < |s.threads| && s.threads[t].PushCas? && s.head == s.threads[t].e
    requires s.threads[t].spare == To(s.threads[t].want.page)
    ensures Inv(Publish(s, t))
  {
    hide Structure, Snapshot, ThreadsOk, LinksPending, SlotsOk, Conserved, Evolves, Unlinked;
    PublishConserved(s, t);
    PublishStructure(s, t);
    PublishThreads(s, t);
    PublishLinks(s, t);
    PublishSlots(s, t);
  }

  // -- a push links its page --

  lemma LinkStructure(s: State, t: nat)
    requires Inv(s) && t < |s.threads| && s.threads[t].PushLink? && Enabled(s, t, Run)
    ensures var s', page := LinkPage(s, t), s.threads[t].page;
            && Structure(s') && Evolves(s, s') && Snapshot(s', s'.head)
            && page in s.chain && Ord(s.chain, page) > 0 && s.pages[page].prev == To(s.chain[Ord(s.chain, page) - 1])
  {
    var page, s' := s.threads[t].page, LinkPage(s, t);
    KnownThread(s, t);
    var o := Ord(s.chain, page);
    assert ChainOk(s, o);
    OrdIs(s.chain, o - 1);
    forall p | 0 <= p < |s'.pages| ensures PageOk(s', p) { assert PageOk(s, p); }
    forall i | 0 <= i < |s'.chain| ensures ChainOk(s', i) { assert ChainOk(s, i); }
  }

  lemma UnlinkedKnown(s: State, t: nat)
    requires Inv(s) && t < |s.threads| && s.threads[t].PushLink?
    ensures Unlinked(s, s.threads[t].page)
    ensures var o := Ord(s.chain, s.threads[t].page) - 1; s.chain[o] in s.chain && Ord(s.chain, s.chain[o]) == o
  {
    KnownThread(s, t);
    OrdIs(s.chain, Ord(s.chain, s.threads[t].page) - 1);
  }

  /** Linking the page of ordinal `o` does not concern a thread that links another page. */
  lemma LinkConcernsOne(s: State, s': State, o: nat, th: Thread)
    requires Distinct(s.chain) && 0 < o < |s.chain| && s.chain[o - 1] < |s.pages|
    requires s'.chain == s.chain
    requires s'.pages == s.pages[s.chain[o - 1] := s.pages[s.chain[o - 1]].(next := To(s.chain[o]))]
    requires SpareOk(s, Spare(th))
    requires th.PushLink? ==> Unlinked(s, th.page) && th.page != s.chain[o]
    ensures Undisturbed(s, s', th)
  {
  }

  lemma LinkUndisturbs(s: State, t: nat, u: nat)
    requires Inv(s) && t < |s.threads| && s.threads[t].PushLink? && Enabled(s, t, Run) && u < |s.threads| && u != t
    ensures Undisturbed(s, LinkPage(s, t), s.threads[u])
  {
    hide Inv, ThreadOk, Structure, Evolves, Snapshot, Unlinked, Undisturbed, Distinct;
    KnownPair(s, t, u);
    LinkStructure(s, t);
    KnownThread(s, u);
    SpareKnown(s, s.threads[u]);
    UnlinkedKnown(s, t);
    if s.threads[u].PushLink? { UnlinkedKnown(s, u); }
    UnlinkedPlace(s, s.threads[t].page);
    LinkConcernsOne(s, LinkPage(s, t), Ord(s.chain, s.threads[t].page), s.threads[u]);
  }

  lemma UnlinkedPlace(s: State, page: nat)
    requires Unlinked(s, page)
    ensures page in s.chain && Ord(s.chain, page) > 0 && s.chain[Ord(s.chain, page) - 1] < |s.pages|
  {
  }

  lemma LinkThreads(s: State, t: nat)
    requires Inv(s) && t < |s.threads| && s.threads[t].PushLink? && Enabled(s, t, Run)
    ensures ThreadsOk(LinkPage(s, t))
  {
    hide Structure, Evolves, Snapshot, Undisturbed, PairOk, ThreadsOk, LinksPending, SlotsOk, Conserved;
    var page, s' := s.threads[t].page, LinkPage(s, t);
    var th := PushWrite(s.threads[t].v, page, 0);
    KnownThread(s, t);
    LinkStructure(s, t);
    SameSparePairs(s, t, th);
    forall u | 0 <= u < |s.threads| && u != t ensures Undisturbed(s, s', s.threads[u]) {
      LinkUndisturbs(s, t, u);
    }
    StepThreads(s, s', t, th);
  }

  lemma LinkLinks(s: State, t: nat)
    requires Inv(s) && t < |s.threads| && s.threads[t].PushLink? && Enabled(s, t, Run)
    ensures LinksPending(LinkPage(s, t))
  {
    var page, s' := s.threads[t].page, LinkPage(s, t);
    LinkStructure(s, t);
    var o := Ord(s.chain, page);
    forall i | 1 <= i < |s'.chain| ensures LinkPending(s', i) {
      assert LinkPending(s, i);
      assert ChainOk(s, i - 1);
      OrdIs(s.chain, i);
      if i != o && s.pages[s.chain[i - 1]].next.Null? {
        var u :| 0 <= u < |s.threads| && s.threads[u].PushLink? && s.threads[u].page == s.chain[i];
        assert s'.threads[u] == s.threads[u];
      }
    }
  }

  lemma LinkSlots(s: State, t: nat)
    requires SlotsOk(s) && t < |s.threads| && s.threads[t].PushLink? && Enabled(s, t, Run)
    ensures SlotsOk(LinkPage(s, t))
  {
    var s' := LinkPage(s, t);
    forall i, index | 0 <= i < |s'.chain| && 0 <= index < s'.max ensures SlotOk(s', i, index) {
      assert SlotOk(s, i, index);
      NetUpdate(s.threads, t, s'.threads[t], s.chain[i], index);
    }
  }

  lemma LinkConserved(s: State, t: nat)
    requires Conserved(s) && t < |s.threads| && s.threads[t].PushLink? && Enabled(s, t, Run)
    ensures Conserved(LinkPage(s, t))
  {
    var s', q := LinkPage(s, t), s.pages[s.threads[t].page].prev.page;
    hide AllPending, AllStored;
    PendingUpdate(s.threads, t, s'.threads[t]);
    MultisetCancel(AllPending(s'.threads), AllPending(s.threads), Pending(s'.threads[t]));
    StoredUpdate(s.pages, q, s'.pages[q]);
    MultisetCancel(AllStored(s'.pages), AllStored(s.pages), Stored(s.pages[q]));
  }

  lemma KeepsLink(s: State, t: nat)
    requires Inv(s) && t < |s.threads| && s.threads[t].PushLink? && Enabled(s, t, Run)
    ensures Inv(LinkPage(s, t))
  {
    hide Structure, Snapshot, ThreadsOk, LinksPending, SlotsOk, Conserved, Evolves, LinkPage;
    LinkStructure(s, t);
    LinkThreads(s, t);
    LinkLinks(s, t);
    LinkSlots(s, t);
    LinkConserved(s, t);
  }

  // -- a slot is filled or emptied --

  /** One slot changes between empty and full, and thread `t` is done. */
  ghost predicate SlotChange(s: State, s': State, t: nat, page: nat, index: int, v: nat)
    requires t < |s.threads|
  {
    && SlotExists(s, page, index) && page in s.chain && index < s.max
    && s' == SetSlot(s, page, index, v).(threads := s.threads[t := Idle], popped := s'.popped, log := s'.log)
    && (forall p, i :: Balance(s.threads[t], p, i) ==
          if p == page && i == index then (if v != 0 then 1 else -1) else 0)
    && (s.pages[page].nodes[index] == 0 <==> v != 0)
  }

  lemma SlotStructure(s: State, s': State, t: nat, page: nat, index: int, v: nat)
    requires Structure(s) && Snapshot(s, s.head) && t < |s.threads| && SlotChange(s, s', t, page, index, v)
    ensures Structure(s') && Evolves(s, s') && Snapshot(s', s'.head)
  {
    hide Balance, Base;
    forall p | 0 <= p < |s'.pages| ensures PageOk(s', p) { assert PageOk(s, p); }
    forall i | 0 <= i < |s'.chain| ensures ChainOk(s', i) { assert ChainOk(s, i); }
  }

  lemma SlotSlots(s: State, s': State, t: nat, page: nat, index: int, v: nat)
    requires Structure(s) && SlotsOk(s) && t < |s.threads| && SlotChange(s, s', t, page, index, v)
    ensures SlotsOk(s')
  {
    forall i, j | 0 <= i < |s'.chain| && 0 <= j < s'.max ensures SlotOk(s', i, j) {
      assert SlotOk(s, i, j);
      assert ChainOk(s, i);
      NetUpdate(s.threads, t, Idle, s.chain[i], j);
    }
  }

  lemma SlotKeeps(s: State, s': State, t: nat, page: nat, index: int, v: nat)
    requires Inv(s) && t < |s.threads| && SlotChange(s, s', t, page, index, v) && !s.threads[t].PushLink?
    requires Conserved(s')
    ensures Inv(s')
  {
    hide Structure, Snapshot, ThreadsOk, LinksPending, SlotsOk, Conserved, Undisturbed, PairOk, Balance;
    SameSparePairs(s, t, Idle);
    OthersUndisturbed(s, s', t);
    SlotStructure(s, s', t, page, index, v);
    StepThreads(s, s', t, Idle);
    assert forall i :: 1 <= i < |s.chain| ==> LinkStaysBehind(s, s'.head.page, i);
    StepLinks(s, s', t, Idle);
    SlotSlots(s, s', t, page, index, v);
  }

  lemma StoredFill(page: Page, index: nat, v: nat)
    requires index < |page.nodes| && page.nodes[index] == 0 && v != 0
    ensures Stored(page.(nodes := page.nodes[index := v])) == Stored(page) + multiset{v}
  {
    var nodes' := page.nodes[index := v];
    assert multiset(nodes') == multiset(page.nodes) - multiset{0} + multiset{v};
  }

  lemma StoredEmptied(page: Page, index: nat)
    requires index < |page.nodes| && page.nodes[index] != 0
    ensures Stored(page.(nodes := page.nodes[index := 0])) + multiset{page.nodes[index]} == Stored(page)
  {
    var nodes' := page.nodes[index := 0];
    assert multiset(nodes') == multiset(page.nodes) - multiset{page.nodes[index]} + multiset{0};
  }

  lemma WriteConserved(s: State, t: nat)
    requires Inv(s) && t < |s.threads| && s.threads[t].PushWrite? && Enabled(s, t, Run)
    requires var PushWrite(v, page, index) := s.threads[t]; s.pages[page].nodes[index] == 0
    ensures Conserved(Apply(s, t, Run))
  {
    var PushWrite(v, page, index) := s.threads[t];
    var s' := Apply(s, t, Run);
    KnownThread(s, t);
    hide AllPending, AllStored, Stored, ThreadsOk, SlotsOk, LinksPending, Structure;
    PendingUpdate(s.threads, t, Idle);
    StoredUpdate(s.pages, page, s'.pages[page]);
    StoredFill(s.pages[page], index, v);
    ValueMoves(AllPending(s.threads), AllPending(s'.threads), AllStored(s.pages), AllStored(s'.pages), Stored(s.pages[page]), multiset{v});
  }

  /** A value that leaves one sum and enters another keeps their total. */
  lemma ValueMoves(a: multiset<nat>, a': multiset<nat>, b: multiset<nat>, b': multiset<nat>, c: multiset<nat>, v: multiset<nat>)
    requires a' + v == a + multiset{} && b' + c == b + (c + v)
    ensures a' + b' == a + b
  {
    forall x ensures (a' + b')[x] == (a + b)[x] {
      assert (a' + v)[x] == (a + multiset{})[x];
      assert (b' + c)[x] == (b + (c + v))[x];
    }
  }

  lemma KeepsWrite(s: State, t: nat)
    requires Inv(s) && t < |s.threads| && s.threads[t].PushWrite? && Enabled(s, t, Run)
    ensures Inv(Apply(s, t, Run))
  {
    var PushWrite(v, page, index) := s.threads[t];
    if s.pages[page].nodes[index] == 0 {
      KnownThread(s, t);
      WriteConserved(s, t);
      SlotKeeps(s, Apply(s, t, Run), t, page, index, v);
    }
  }

  lemma TakeConserved(s: State, t: nat)
    requires Inv(s) && t < |s.threads| && s.threads[t].PopTake? && Enabled(s, t, Run)
    requires var PopTake(page, index, seen) := s.threads[t]; s.pages[page].nodes[index] == seen
    ensures Conserved(Apply(s, t, Run))
  {
    var PopTake(page, index, seen) := s.threads[t];
    var s' := Apply(s, t, Run);
    KnownThread(s, t);
    hide AllPending, AllStored, Stored, ThreadsOk, SlotsOk, LinksPending, Structure;
    PendingUpdate(s.threads, t, Idle);
    StoredUpdate(s.pages, page, s'.pages[page]);
    StoredEmptied(s.pages[page], index);
    ValueTaken(AllPending(s.threads), AllPending(s'.threads), AllStored(s.pages), AllStored(s'.pages),
               Stored(s'.pages[page]), multiset{seen}, s.popped);
  }

  lemma ValueTaken(a: multiset<nat>, a': multiset<nat>, b: multiset<nat>, b': multiset<nat>,
                   c: multiset<nat>, v: multiset<nat>, popped: multiset<nat>)
    requires a' + multiset{} == a + multiset{} && b' + (c + v) == b + c
    ensures a' + b' + (popped + v) == a + b + popped
  {
    forall x ensures (a' + b' + (popped + v))[x] == (a + b + popped)[x] {
      assert (a' + multiset{})[x] == (a + multiset{})[x];
      assert (b' + (c + v))[x] == (b + c)[x];
    }
  }

  lemma KeepsTake(s: State, t: nat)
    requires Inv(s) && t < |s.threads| && s.threads[t].PopTake? && Enabled(s, t, Run)
    requires var PopTake(page, index, seen) := s.threads[t]; s.pages[page].nodes[index] == seen
    ensures Inv(Apply(s, t, Run))
  {
    var PopTake(page, index, seen) := s.threads[t];
    KnownThread(s, t);
    TakeConserved(s, t);
    SlotKeeps(s, Apply(s, t, Run), t, page, index, 0);
  }

  // ----- Every step, every run -----

  lemma KeepsPlan(s: State, t: nat)
    requires Inv(s) && t < |s.threads| && Enabled(s, t, Run) && s.threads[t].PushPlan?
    ensures Inv(Plan(s, t))
  {
    hide Inv, Plan;
    var PushPlan(v, e, spare) := s.threads[t];
    if e.index != s.max - 1 || s.pages[e.page].next.To? {
      KeepsPushPlanQuiet(s, t);
    } else if spare.Null? {
      KeepsAllocate(s, t);
    } else {
      KeepsReuse(s, t);
    }
  }

  lemma KeepsPush(s: State, t: nat)
    requires Inv(s) && t < |s.threads| && Enabled(s, t, Run)
    requires var th := s.threads[t]; th.PushStart? || th.PushPlan? || th.PushNext? || th.PushCas? || th.PushLink? || th.PushWrite?
    ensures Inv(Apply(s, t, Run))
  {
    hide Inv, Plan, Publish, LinkPage;
    match s.threads[t]
    case PushStart(v) => KeepsPushStart(s, t);
    case PushPlan(_, _, _) => KeepsPlan(s, t);
    case PushNext(_, _, _) => KeepsPushNext(s, t);
    case PushCas(_, _, want, spare) =>
      if spare == To(want.page) { KeepsPublishNew(s, t); } else { KeepsPublishOnChain(s, t); }
    case PushLink(_, _) => KeepsLink(s, t);
    case PushWrite(_, _, _) => KeepsWrite(s, t);
  }

  lemma KeepsPushStart(s: State, t: nat)
    requires Inv(s) && t < |s.threads| && s.threads[t].PushStart?
    ensures Inv(Apply(s, t, Run))
  {
    hide Inv, Base;
    KnownThread(s, t);
    QuietRun(s, t, PushPlan(s.threads[t].v, s.head, Null));
  }

  lemma KeepsPopStart(s: State, t: nat)
    requires Inv(s) && t < |s.threads| && s.threads[t].PopStart?
    ensures Inv(Apply(s, t, Run))
  {
    hide Inv, Base;
    KnownThread(s, t);
    if s.head.length > 0 { QuietRun(s, t, PopLoop(s.head)); } else { KeepsReturnNothing(s, t); }
  }

  lemma KeepsPop(s: State, t: nat)
    requires Inv(s) && t < |s.threads| && Enabled(s, t, Run)
    requires var th := s.threads[t];
             th.PopStart? || th.PopLoop? || th.PopPrev? || th.PopWait? || th.PopCas? || th.PopRead? || th.PopTake?
    ensures Inv(Apply(s, t, Run))
  {
    hide Inv, Apply;
    match s.threads[t]
    case PopStart => KeepsPopStart(s, t);
    case PopLoop(_) => KeepsPopLoop(s, t);
    case PopPrev(_, _) => KeepsPopPrev(s, t);
    case PopWait(_, _, _) => KeepsPopWait(s, t);
    case PopCas(_, _, _, _) => KeepsPopCas(s, t);
    case PopRead(_, _) => KeepsPopRead(s, t);
    case PopTake(page, index, seen) =>
      if s.pages[page].nodes[index] == seen { KeepsTake(s, t); } else { KeepsPopRead(s, t); }
  }

  lemma Keeps(s: State, s': State)
    requires Inv(s) && Next(s, s')
    ensures Inv(s')
  {
    hide Inv, Apply;
    var t, step :| 0 <= t < |s.threads| && Enabled(s, t, step) && s' == Apply(s, t, step);
    if !step.Run? {
      KeepsCall(s, t, step);
    } else if
      || s.threads[t].PushStart? || s.threads[t].PushPlan? || s.threads[t].PushNext?
      || s.threads[t].PushCas? || s.threads[t].PushLink? || s.threads[t].PushWrite?
    {
      KeepsPush(s, t);
    } else {
      KeepsPop(s, t);
    }
  }

  ghost predicate NextAt(run: seq<State>, i: nat)
    requires 0 < i < |run|
  {
    Next(run[i - 1], run[i])
  }

  ghost predicate IsRun(run: seq<State>) {
    && run != [] && Initial(run[0])
    && forall i :: 0 < i < |run| ==> NextAt(run, i)
  }

  lemma InitialInv(s: State)
    requires Initial(s)
    ensures Inv(s)
  {
    var nodes := EmptyPage(Null, s.max).nodes;
    assert PageOk(s, 0) && ChainOk(s, 0);
    OrdIs(s.chain, 0);
    forall i, index | 0 <= i < |s.chain| && 0 <= index < s.max ensures SlotOk(s, i, index) {
      NetNone(s.threads, 0, index);
    }
    IdlePending(s.threads);
    StoredEmpty(Null, s.max);
    assert s.pages[..0] == [];
    assert AllStored(s.pages) == AllStored(s.pages[..0]) + Stored(s.pages[0]);
  }

  lemma {:induction false} IdlePending(threads: seq<Thread>)
    requires forall t :: 0 <= t < |threads| ==> threads[t].Idle?
    ensures AllPending(threads) == multiset{}
    decreases |threads|
  {
    if threads != [] { IdlePending(threads[..|threads| - 1]); }
  }

  lemma {:induction false} RunInv(run: seq<State>, i: nat)
    requires IsRun(run) && i < |run|
    ensures Inv(run[i])
  {
    hide Next, Inv, Initial;
    if i == 0 {
      InitialInv(run[0]);
    } else {
      RunInv(run, i - 1);
      assert NextAt(run, i);
      Keeps(run[i - 1], run[i]);
    }
  }
}
