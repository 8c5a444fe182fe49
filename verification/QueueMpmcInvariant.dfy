/**
 The invariant of the paged container: the chain of published pages, what each thread knows,
 what is under way on each slot, and where every value is.
 */
module QueueMpmcInvariant {

  import opened QueueMpmc

  // ----- The chain of published pages -----

  ghost predicate Distinct(chain: seq<nat>) {
    forall i, j :: 0 <= i < j < |chain| ==> chain[i] != chain[j]
  }

  /** The ordinal of a published page. */
  ghost function Ord(chain: seq<nat>, p: nat): (i: nat)
    requires p in chain
    ensures i < |chain| && chain[i] == p
  {
    var i :| 0 <= i < |chain| && chain[i] == p;
    i
  }

  lemma OrdIs(chain: seq<nat>, i: nat)
    requires Distinct(chain) && i < |chain|
    ensures chain[i] in chain && Ord(chain, chain[i]) == i
  {
  }

  /** Ordinals do not change when the chain grows. */
  lemma OrdGrows(chain: seq<nat>, chain': seq<nat>, p: nat)
    requires Distinct(chain') && chain <= chain' && p in chain
    ensures p in chain' && Ord(chain', p) == Ord(chain, p)
  {
    var i := Ord(chain, p);
    assert chain'[i] == p;
  }

  /** The number of slots before page ordinal `i`. */
  function Base(i: nat, max: nat): nat {
    if i == 0 then 0 else Base(i - 1, max) + max
  }

  ghost predicate PageOk(s: State, p: nat)
    requires p < |s.pages|
  {
    && |s.pages[p].nodes| == s.max
    && (p !in s.chain ==> s.pages[p].next.Null? && s.pages[p].nodes == seq(s.max, _ => 0))
  }

  ghost predicate ChainOk(s: State, i: nat)
    requires i < |s.chain|
  {
    && s.chain[i] < |s.pages|
    && s.pages[s.chain[i]].prev == (if i == 0 then Null else To(s.chain[i - 1]))
    && (s.pages[s.chain[i]].next.To? ==> i + 1 < |s.chain| && s.pages[s.chain[i]].next == To(s.chain[i + 1]))
  }

  ghost predicate Structure(s: State) {
    && s.max > 0
    && s.chain != [] && Distinct(s.chain)
    && (forall p :: 0 <= p < |s.pages| ==> PageOk(s, p))
    && (forall i :: 0 <= i < |s.chain| ==> ChainOk(s, i))
  }

  /** `h` is or was the head: its place is on the chain and its length is that place's number. */
  ghost predicate Snapshot(s: State, h: Head) {
    && h.page in s.chain
    && -1 <= h.index < s.max && (h.index == -1 ==> Ord(s.chain, h.page) == 0)
    && h.length == Base(Ord(s.chain, h.page), s.max) + h.index + 1
    && h.version <= s.head.version && (h.version == s.head.version ==> h == s.head)
  }

  // ----- The invariant of each thread -----

  function Spare(th: Thread): Link {
    match th
    case PushPlan(_, _, spare) => spare
    case PushNext(_, _, spare) => spare
    case PushCas(_, _, _, spare) => spare
    case _ => Null
  }

  ghost predicate SpareOk(s: State, spare: Link) {
    spare.To? ==> spare.page < |s.pages| && spare.page !in s.chain
  }

  /** Where a push from `e` wants to go. */
  ghost predicate PushTarget(s: State, e: Head, want: Head, spare: Link)
    requires e.page in s.chain
  {
    if e.index != s.max - 1 then want.page == e.page && want.index == e.index + 1
    else
      && want.index == 0
      && (|| (want.page in s.chain && Ord(s.chain, want.page) == Ord(s.chain, e.page) + 1)
          || (&& spare == To(want.page) && want.page < |s.pages| && s.pages[want.page].prev == To(e.page)
              && (e.version == s.head.version ==> Ord(s.chain, e.page) == |s.chain| - 1)))
  }

  /** Where a pop from `e` wants to go. */
  ghost predicate PopTarget(s: State, e: Head, want: Head)
    requires e.page in s.chain
  {
    if e.index > 0 then want.page == e.page && want.index == e.index - 1
    else if Ord(s.chain, e.page) == 0 then want.page == e.page && want.index == -1
    else
      && want.page == s.chain[Ord(s.chain, e.page) - 1] && want.index == s.max - 1
      && want.page < |s.pages| && s.pages[want.page].next.To?
  }

  ghost predicate PlaceOk(s: State, page: nat, index: int) {
    page in s.chain && 0 <= index < s.max
  }

  /** The page was published but its predecessor does not point to it yet. */
  ghost predicate Unlinked(s: State, page: nat) {
    && page in s.chain && Ord(s.chain, page) > 0
    && s.chain[Ord(s.chain, page) - 1] < |s.pages|
    && s.pages[s.chain[Ord(s.chain, page) - 1]].next.Null?
  }

  ghost predicate ThreadOk(s: State, th: Thread) {
    match th
    case Idle => true
    case PushStart(v) => v != 0
    case PushPlan(v, e, spare) => v != 0 && Snapshot(s, e) && SpareOk(s, spare)
    case PushNext(v, e, spare) =>
      && v != 0 && Snapshot(s, e) && SpareOk(s, spare)
      && e.index == s.max - 1 && e.page < |s.pages| && s.pages[e.page].next.To?
    case PushCas(v, e, want, spare) =>
      && v != 0 && Snapshot(s, e) && SpareOk(s, spare)
      && want == PushHead(e, want.page, want.index) && PushTarget(s, e, want, spare)
    case PushLink(v, page) => v != 0 && Unlinked(s, page)
    case PushWrite(v, page, index) => v != 0 && PlaceOk(s, page, index)
    case PopStart => true
    case PopLoop(e) => Snapshot(s, e) && e.length > 0
    case PopPrev(e, h) => Snapshot(s, e) && e.length > 0 && Snapshot(s, h) && h.version >= e.version && h.index == 0
    case PopWait(e, h, prev) =>
      && Snapshot(s, e) && e.length > 0 && Snapshot(s, h) && h.version >= e.version && h.index == 0
      && Ord(s.chain, h.page) > 0 && prev == s.chain[Ord(s.chain, h.page) - 1]
    case PopCas(e, want, page, index) =>
      && Snapshot(s, e) && e.length > 0
      && want == PopHead(e, want.page, want.index)
      && (e.version == s.head.version ==> page == e.page && index == e.index && PopTarget(s, e, want))
    case PopRead(page, index) => PlaceOk(s, page, index)
    case PopTake(page, index, seen) => PlaceOk(s, page, index) && seen != 0
  }

  /** Two threads do not share a spare page, nor the page they have to link. */
  ghost predicate PairOk(th: Thread, th': Thread) {
    && (Spare(th).To? ==> Spare(th) != Spare(th'))
    && (th.PushLink? && th'.PushLink? ==> th.page != th'.page)
  }

  ghost predicate ThreadsOk(s: State) {
    && (forall t :: 0 <= t < |s.threads| ==> ThreadOk(s, s.threads[t]))
    && (forall t, u :: 0 <= t < |s.threads| && 0 <= u < |s.threads| && t != u ==> PairOk(s.threads[t], s.threads[u]))
  }

  /** A published page whose predecessor does not point to it has a thread about to link it, and the head is not before it. */
  ghost predicate LinkPending(s: State, i: nat)
    requires 1 <= i < |s.chain|
  {
    s.chain[i - 1] < |s.pages| && s.pages[s.chain[i - 1]].next.Null? && s.head.page in s.chain ==>
      && i <= Ord(s.chain, s.head.page)
      && exists t :: 0 <= t < |s.threads| && s.threads[t].PushLink? && s.threads[t].page == s.chain[i]
  }

  ghost predicate LinksPending(s: State) {
    forall i :: 1 <= i < |s.chain| ==> LinkPending(s, i)
  }

  // ----- What is under way on a slot -----

  /** 1 for a push that has reserved the slot and not filled it, -1 for a pop that has reserved it and not emptied it. */
  function Balance(th: Thread, page: nat, index: int): int {
    match th
    case PushLink(_, p) => if p == page && index == 0 then 1 else 0
    case PushWrite(_, p, i) => if p == page && i == index then 1 else 0
    case PopRead(p, i) => if p == page && i == index then -1 else 0
    case PopTake(p, i, _) => if p == page && i == index then -1 else 0
    case _ => 0
  }

  function Net(threads: seq<Thread>, page: nat, index: int): int {
    if threads == [] then 0
    else Net(threads[..|threads| - 1], page, index) + Balance(threads[|threads| - 1], page, index)
  }

  /** The slot at page ordinal `i` is below the head. */
  ghost predicate Below(s: State, i: nat, index: int)
    requires s.head.page in s.chain
  {
    i < Ord(s.chain, s.head.page) || (i == Ord(s.chain, s.head.page) && index <= s.head.index)
  }

  /** Pending pushes plus the value in the slot minus pending pops: one below the head, none above. */
  ghost predicate SlotOk(s: State, i: nat, index: int)
    requires i < |s.chain|
  {
    s.head.page in s.chain && s.chain[i] < |s.pages| && index < |s.pages[s.chain[i]].nodes| && index >= 0 ==>
      Net(s.threads, s.chain[i], index) + (if s.pages[s.chain[i]].nodes[index] != 0 then 1 else 0) ==
      (if Below(s, i, index) then 1 else 0)
  }

  ghost predicate SlotsOk(s: State) {
    forall i, index :: 0 <= i < |s.chain| && 0 <= index < s.max ==> SlotOk(s, i, index)
  }

  // ----- Values -----

  /** The value a push still has to write. */
  function Pending(th: Thread): multiset<nat> {
    match th
    case PushLink(v, _) => multiset{v}
    case PushWrite(v, _, _) => multiset{v}
    case _ => multiset{}
  }

  function AllPending(threads: seq<Thread>): multiset<nat> {
    if threads == [] then multiset{} else AllPending(threads[..|threads| - 1]) + Pending(threads[|threads| - 1])
  }

  /** The values in the slots of a page. */
  function Stored(page: Page): multiset<nat> { multiset(page.nodes)[0 := 0] }

  function AllStored(pages: seq<Page>): multiset<nat> {
    if pages == [] then multiset{} else AllStored(pages[..|pages| - 1]) + Stored(pages[|pages| - 1])
  }

  /** Every reserved value is still to be written, in a slot, or popped. */
  ghost predicate Conserved(s: State) {
    s.reserved == AllPending(s.threads) + AllStored(s.pages) + s.popped
  }

  ghost predicate Inv(s: State) {
    Structure(s) && Snapshot(s, s.head) && ThreadsOk(s) && LinksPending(s) && SlotsOk(s) && Conserved(s)
  }
}
