/**
 The lock-free paged container of `queue_mpmc.c`, as a transition system with one access to
 shared memory per step, for any number of threads.

 The versioned head is moved first and the slot is filled or emptied afterwards, so several
 pushes and pops can be under way on one slot.  Versions are unbounded here, which is what a
 16-bit version means as long as fewer than 65536 compare-and-swaps succeed during one attempt.
 */
module QueueMpmc {

  // ----- State -----

  datatype Link = Null | To(page: nat)

  datatype Head = Head(length: int, version: nat, index: int, page: nat)

  /** A page of slots; 0 marks an empty slot. */
  datatype Page = Page(prev: Link, next: Link, nodes: seq<nat>)

  /** Where a thread is inside a call.  `e` is the head it expects, `spare` the page it has allocated. */
  datatype Thread =
    | Idle
    | PushStart(v: nat)
    | PushPlan(v: nat, e: Head, spare: Link)
    | PushNext(v: nat, e: Head, spare: Link)             // saw a next page, about to read it again
    | PushCas(v: nat, e: Head, want: Head, spare: Link)
    | PushLink(v: nat, page: nat)                        // its new page is published, not linked yet
    | PushWrite(v: nat, page: nat, index: int)
    | PopStart
    | PopLoop(e: Head)
    | PopPrev(e: Head, h: Head)                          // about to read the previous page of `h`
    | PopWait(e: Head, h: Head, prev: nat)               // waiting for the previous page to be linked
    | PopCas(e: Head, want: Head, page: nat, index: int)
    | PopRead(page: nat, index: int)
    | PopTake(page: nat, index: int, seen: nat)

  datatype Event = Pushed(v: nat) | Popped(v: nat) | PoppedNothing

  /**
   `chain` lists the published pages in order, `reserved` the values whose push has moved the
   head, `popped` the values returned by pops, and `log` the finished calls; these four only
   record what has happened.
   */
  datatype State = State(
    max: nat, head: Head, pages: seq<Page>, threads: seq<Thread>,
    chain: seq<nat>, reserved: multiset<nat>, popped: multiset<nat>, log: seq<Event>)

  function EmptyPage(prev: Link, max: nat): Page { Page(prev, Null, seq(max, _ => 0)) }

  // ----- Steps -----

  datatype Step =
    | CallPush(v: nat)
    | CallPop
    | Run                 // the next access of a call under way
    | CasFails            // a weak compare-and-swap may fail at any time

  predicate SlotExists(s: State, page: nat, index: int) {
    page < |s.pages| && 0 <= index < |s.pages[page].nodes|
  }

  predicate Enabled(s: State, t: nat, step: Step)
    requires t < |s.threads|
  {
    var th := s.threads[t];
    match step
    case CallPush(v) => th.Idle? && v != 0
    case CallPop => th.Idle?
    case CasFails => th.PushCas? || th.PopCas?
    case Run =>
      match th
      case Idle => false
      case PushStart(_) => true
      case PushPlan(_, e, spare) => e.page < |s.pages| && (spare.To? ==> spare.page < |s.pages|)
      case PushNext(_, e, _) => e.page < |s.pages| && s.pages[e.page].next.To?
      case PushCas(_, e, _, _) => s.head == e
      case PushLink(_, page) => page < |s.pages| && s.pages[page].prev.To? && s.pages[page].prev.page < |s.pages|
      case PushWrite(_, page, index) => SlotExists(s, page, index)
      case PopStart => true
      case PopLoop(_) => true
      case PopPrev(_, h) => h.page < |s.pages|
      case PopWait(_, _, prev) => prev < |s.pages|
      case PopCas(e, _, _, _) => s.head == e
      case PopRead(page, index) => SlotExists(s, page, index)
      case PopTake(page, index, _) => SlotExists(s, page, index)
  }

  /** The head a push from `e` asks for, on the page it goes to. */
  function PushHead(e: Head, page: nat, index: int): Head {
    Head(e.length + 1, e.version + 1, index, page)
  }

  /** The head a pop from `e` asks for. */
  function PopHead(e: Head, page: nat, index: int): Head {
    Head(e.length - 1, e.version + 1, index, page)
  }

  function SetPage(s: State, p: nat, page: Page): State
    requires p < |s.pages|
  {
    s.(pages := s.pages[p := page])
  }

  function SetSlot(s: State, p: nat, index: int, v: nat): State
    requires SlotExists(s, p, index)
  {
    SetPage(s, p, s.pages[p].(nodes := s.pages[p].nodes[index := v]))
  }

  function Move(s: State, t: nat, th: Thread): State
    requires t < |s.threads|
  {
    s.(threads := s.threads[t := th])
  }

  function Log(s: State, event: Event): State { s.(log := s.log + [event]) }

  /** The plan of a push: the slot after the expected one, on the same page, on the next page or on a page of its own. */
  function Plan(s: State, t: nat): State
    requires t < |s.threads| && s.threads[t].PushPlan? && Enabled(s, t, Run)
  {
    var PushPlan(v, e, spare) := s.threads[t];
    if e.index != s.max - 1 then
      Move(s, t, PushCas(v, e, PushHead(e, e.page, e.index + 1), spare))
    else if s.pages[e.page].next.To? then
      Move(s, t, PushNext(v, e, spare))
    else if spare.Null? then
      var p := |s.pages|;
      Move(s.(pages := s.pages + [EmptyPage(To(e.page), s.max)]), t, PushCas(v, e, PushHead(e, p, 0), To(p)))
    else
      Move(SetPage(s, spare.page, s.pages[spare.page].(prev := To(e.page))), t, PushCas(v, e, PushHead(e, spare.page, 0), spare))
  }

  /** A compare-and-swap of the head that succeeds for a push. */
  function Publish(s: State, t: nat): State
    requires t < |s.threads| && s.threads[t].PushCas?
  {
    var PushCas(v, e, want, spare) := s.threads[t];
    var s' := s.(head := want, reserved := s.reserved + multiset{v});
    if spare == To(want.page) then Move(s'.(chain := s.chain + [want.page]), t, PushLink(v, want.page))
    else Move(s', t, PushWrite(v, want.page, want.index))
  }

  /** The previous page is made to point to a published page. */
  function LinkPage(s: State, t: nat): State
    requires t < |s.threads| && s.threads[t].PushLink? && Enabled(s, t, Run)
  {
    var PushLink(v, page) := s.threads[t];
    var q := s.pages[page].prev.page;
    Move(SetPage(s, q, s.pages[q].(next := To(page))), t, PushWrite(v, page, 0))
  }

  function Apply(s: State, t: nat, step: Step): State
    requires t < |s.threads| && Enabled(s, t, step)
  {
    var th := s.threads[t];
    match step
    case CallPush(v) => Move(s, t, PushStart(v))
    case CallPop => Move(s, t, PopStart)
    case CasFails =>
      if th.PushCas? then Move(s, t, PushPlan(th.v, s.head, th.spare))
      else if s.head.length > 0 then Move(s, t, PopLoop(s.head))
      else Log(Move(s, t, Idle), PoppedNothing)
    case Run =>
      match th
      case PushStart(v) => Move(s, t, PushPlan(v, s.head, Null))
      case PushPlan(_, _, _) => Plan(s, t)
      case PushNext(v, e, spare) => Move(s, t, PushCas(v, e, PushHead(e, s.pages[e.page].next.page, 0), spare))
      case PushCas(_, _, _, _) => Publish(s, t)
      case PushLink(_, _) => LinkPage(s, t)
      case PushWrite(v, page, index) =>
        if s.pages[page].nodes[index] == 0 then Log(Move(SetSlot(s, page, index, v), t, Idle), Pushed(v)) else s
      case PopStart =>
        if s.head.length > 0 then Move(s, t, PopLoop(s.head)) else Log(Move(s, t, Idle), PoppedNothing)
      case PopLoop(e) =>
        if s.head.index - 1 == -1 then Move(s, t, PopPrev(e, s.head))
        else Move(s, t, PopCas(e, PopHead(e, s.head.page, s.head.index - 1), s.head.page, s.head.index))
      case PopPrev(e, h) =>
        if s.pages[h.page].prev.To? then Move(s, t, PopWait(e, h, s.pages[h.page].prev.page))
        else Move(s, t, PopCas(e, PopHead(e, h.page, -1), h.page, h.index))
      case PopWait(e, h, prev) =>
        if s.pages[prev].next.To? then Move(s, t, PopCas(e, PopHead(e, prev, s.max - 1), h.page, h.index)) else s
      case PopCas(e, want, page, index) => Move(s.(head := want), t, PopRead(page, index))
      case PopRead(page, index) =>
        var v := s.pages[page].nodes[index];
        if v == 0 then s else Move(s, t, PopTake(page, index, v))
      case PopTake(page, index, seen) =>
        if s.pages[page].nodes[index] == seen then
          Log(Move(SetSlot(s, page, index, 0).(popped := s.popped + multiset{seen}), t, Idle), Popped(seen))
        else Move(s, t, PopRead(page, index))
  }

  ghost predicate Next(s: State, s': State) {
    exists t, step :: 0 <= t < |s.threads| && Enabled(s, t, step) && s' == Apply(s, t, step)
  }

  predicate Initial(s: State) {
    && s.max > 0
    && s.head == Head(0, 0, -1, 0)
    && s.pages == [EmptyPage(Null, s.max)]
    && (forall t :: 0 <= t < |s.threads| ==> s.threads[t].Idle?)
    && s.chain == [0] && s.reserved == multiset{} && s.popped == multiset{} && s.log == []
  }
}
