/**
 What the calls of the paged container are given and what they answer: runs that carry their
 steps, the arguments of all pushes against all values, each call against its answer, and calls
 that no other thread disturbs.
 */
module QueueMpmcCalls {

  import opened QueueMpmc
  import opened QueueMpmcInvariant
  import opened QueueMpmcSteps
  import opened QueueMpmcRuns
  import opened QueueMpmcStack

  // ----- Runs with their steps -----

  datatype Act = Act(t: nat, step: Step)

  ghost predicate Makes(run: seq<State>, acts: seq<Act>, i: nat)
    requires |run| == |acts| + 1 && i < |acts|
  {
    var Act(t, step) := acts[i];
    t < |run[i].threads| && Enabled(run[i], t, step) && run[i + 1] == Apply(run[i], t, step)
  }

  ghost predicate IsTrace(run: seq<State>, acts: seq<Act>) {
    && |run| == |acts| + 1 && Initial(run[0])
    && forall i :: 0 <= i < |acts| ==> Makes(run, acts, i)
  }

  lemma TraceIsRun(run: seq<State>, acts: seq<Act>)
    requires IsTrace(run, acts)
    ensures IsRun(run)
  {
    hide Enabled, Apply, Initial;
    forall i | 0 < i < |run| ensures NextAt(run, i) {
      assert Makes(run, acts, i - 1);
      var t, step := acts[i - 1].t, acts[i - 1].step;
      assert Enabled(run[i - 1], t, step) && run[i] == Apply(run[i - 1], t, step);
    }
  }

  // ----- Calls -----

  datatype Call = Nothing | Push(v: nat) | Pop

  /** The call that a thread is in. */
  function CallOf(th: Thread): Call {
    match th
    case Idle => Nothing
    case PushStart(v) => Push(v)
    case PushPlan(v, _, _) => Push(v)
    case PushNext(v, _, _) => Push(v)
    case PushCas(v, _, _, _) => Push(v)
    case PushLink(v, _) => Push(v)
    case PushWrite(v, _, _) => Push(v)
    case _ => Pop
  }

  // ----- The arguments of the pushes -----

  /** The value of a push that has not moved the head yet. */
  function Waiting(th: Thread): seq<nat> {
    match th
    case PushStart(v) => [v]
    case PushPlan(v, _, _) => [v]
    case PushNext(v, _, _) => [v]
    case PushCas(v, _, _, _) => [v]
    case _ => []
  }

  function Asked(th: Thread): multiset<nat> { multiset(Waiting(th)) }

  function Argument(step: Step): multiset<nat> { if step.CallPush? then multiset{step.v} else multiset{} }

  /** A call brings its argument, a swap of the head publishes it, and no other access touches it. */
  ghost predicate Hands(s: State, s': State, t: nat, step: Step)
    requires t < |s.threads| && t < |s'.threads|
  {
    var a, a' := Waiting(s.threads[t]), Waiting(s'.threads[t]);
    if step.CallPush? then a == [] && a' == [step.v] && s'.reserved == s.reserved
    else if s.threads[t].PushCas? && step.Run? then a' == [] && s'.reserved == s.reserved + multiset(a)
    else a' == a && s'.reserved == s.reserved
  }

  /** The step changes only the stepping thread. */
  predicate OnlyThread(s: State, s': State, t: nat) {
    && |s'.threads| == |s.threads| && t < |s.threads| && s'.threads == s.threads[t := s'.threads[t]]
  }

  lemma PushHands(s: State, t: nat)
    requires t < |s.threads| && Enabled(s, t, Run) && CallOf(s.threads[t]).Push?
    ensures OnlyThread(s, Apply(s, t, Run), t) && Hands(s, Apply(s, t, Run), t, Run)
  {
    hide Plan, Publish, LinkPage, SlotExists, SetSlot;
    match s.threads[t]
    case PushPlan(_, _, _) => PlanMoves(s, t);
    case PushCas(_, _, _, _) => PublishMoves(s, t);
    case PushLink(_, _) => LinkMoves(s, t);
    case PushWrite(v, page, index) => SlotMoves(s, page, index, v);
    case _ =>
  }

  lemma PopHands(s: State, t: nat)
    requires t < |s.threads| && Enabled(s, t, Run) && CallOf(s.threads[t]).Pop?
    ensures OnlyThread(s, Apply(s, t, Run), t) && Hands(s, Apply(s, t, Run), t, Run)
  {
    hide SlotExists, SetSlot;
    if s.threads[t].PopTake? { SlotMoves(s, s.threads[t].page, s.threads[t].index, 0); }
  }

  lemma CallHands(s: State, t: nat, step: Step)
    requires t < |s.threads| && Enabled(s, t, step) && !step.Run?
    ensures OnlyThread(s, Apply(s, t, step), t) && Hands(s, Apply(s, t, step), t, step)
  {
  }

  lemma StepHands(s: State, t: nat, step: Step)
    requires t < |s.threads| && Enabled(s, t, step)
    ensures OnlyThread(s, Apply(s, t, step), t) && Hands(s, Apply(s, t, step), t, step)
  {
    hide Apply, Hands, OnlyThread;
    if !step.Run? {
      CallHands(s, t, step);
    } else if CallOf(s.threads[t]).Push? {
      PushHands(s, t);
    } else {
      PopHands(s, t);
    }
  }

  lemma SlotMoves(s: State, page: nat, index: int, v: nat)
    requires SlotExists(s, page, index)
    ensures SetSlot(s, page, index, v) == s.(pages := SetSlot(s, page, index, v).pages)
    ensures page < |s.pages| && 0 <= index < |s.pages[page].nodes|
  {
  }

  /** Each access hands on the argument of the call and nothing else. */
  lemma StepAsks(s: State, t: nat, step: Step)
    requires t < |s.threads| && Enabled(s, t, step)
    ensures var s' := Apply(s, t, step);
            && OnlyThread(s, s', t)
            && s'.reserved + Asked(s'.threads[t]) == s.reserved + Asked(s.threads[t]) + Argument(step)
  {
    hide Enabled, Apply, Waiting;
    StepHands(s, t, step);
    var s' := Apply(s, t, step);
    if step.CallPush? {
      assert multiset([step.v]) == multiset{step.v};
    }
  }

  /** What a plan leaves to the call under way. */
  lemma PlanMoves(s: State, t: nat)
    requires t < |s.threads| && s.threads[t].PushPlan? && Enabled(s, t, Run)
    ensures var s', th := Plan(s, t), s.threads[t];
            && |s'.threads| == |s.threads| && s'.threads == s.threads[t := s'.threads[t]]
            && s'.reserved == s.reserved && s'.log == s.log && s'.popped == s.popped
            && (s'.threads[t].PushCas? || s'.threads[t].PushNext?) && s'.threads[t].v == th.v
  {
  }

  lemma PublishMoves(s: State, t: nat)
    requires t < |s.threads| && s.threads[t].PushCas?
    ensures var s', th := Publish(s, t), s.threads[t];
            && |s'.threads| == |s.threads| && s'.threads == s.threads[t := s'.threads[t]]
            && s'.reserved == s.reserved + multiset{th.v} && s'.log == s.log && s'.popped == s.popped
            && (s'.threads[t].PushLink? || s'.threads[t].PushWrite?) && s'.threads[t].v == th.v
  {
  }

  lemma LinkMoves(s: State, t: nat)
    requires t < |s.threads| && s.threads[t].PushLink? && Enabled(s, t, Run)
    ensures var s', th := LinkPage(s, t), s.threads[t];
            && |s'.threads| == |s.threads| && s'.threads == s.threads[t := s'.threads[t]]
            && s'.reserved == s.reserved && s'.log == s.log && s'.popped == s.popped
            && s'.threads[t].PushWrite? && s'.threads[t].v == th.v
  {
  }

  function AllAsked(threads: seq<Thread>): multiset<nat>
    decreases |threads|
  {
    if threads == [] then multiset{} else AllAsked(threads[..|threads| - 1]) + Asked(threads[|threads| - 1])
  }

  lemma {:induction false} AskedUpdate(threads: seq<Thread>, t: nat, th: Thread)
    requires t < |threads|
    ensures AllAsked(threads[t := th]) + Asked(threads[t]) == AllAsked(threads) + Asked(th)
    decreases |threads|
  {
    hide Asked;
    var n := |threads| - 1;
    var threads' := threads[t := th];
    if t == n {
      assert threads'[..n] == threads[..n];
    } else {
      assert threads'[..n] == threads[..n][t := th];
      AskedUpdate(threads[..n], t, th);
      AddSame(AllAsked(threads'[..n]), Asked(threads[t]), AllAsked(threads[..n]), Asked(th), Asked(threads[n]));
    }
  }

  lemma AddSame(a: multiset<nat>, x: multiset<nat>, b: multiset<nat>, y: multiset<nat>, g: multiset<nat>)
    requires a + x == b + y
    ensures a + g + x == b + g + y
  {
    assert a + g + x == (a + x) + g;
    assert b + g + y == (b + y) + g;
  }

  lemma {:induction false} IdleAsked(threads: seq<Thread>)
    requires forall t :: 0 <= t < |threads| ==> threads[t].Idle?
    ensures AllAsked(threads) == multiset{}
    decreases |threads|
  {
    if threads != [] { IdleAsked(threads[..|threads| - 1]); }
  }

  /** The arguments of the push calls among the first `i` steps. */
  function Arguments(acts: seq<Act>, i: nat): multiset<nat>
    requires i <= |acts|
  {
    if i == 0 then multiset{} else Arguments(acts, i - 1) + Argument(acts[i - 1].step)
  }

  lemma StepArguments(s: State, t: nat, step: Step, args: multiset<nat>)
    requires t < |s.threads| && Enabled(s, t, step) && args == s.reserved + AllAsked(s.threads)
    ensures var s' := Apply(s, t, step); args + Argument(step) == s'.reserved + AllAsked(s'.threads)
  {
    hide Enabled, Apply, Asked, Argument, AllAsked;
    var s' := Apply(s, t, step);
    StepAsks(s, t, step);
    AskedUpdate(s.threads, t, s'.threads[t]);
    Regroup(s.reserved, AllAsked(s.threads), Asked(s.threads[t]), Argument(step),
            s'.reserved, AllAsked(s'.threads), Asked(s'.threads[t]));
  }

  lemma Regroup(r: multiset<nat>, a: multiset<nat>, x: multiset<nat>, g: multiset<nat>,
                r': multiset<nat>, a': multiset<nat>, x': multiset<nat>)
    requires r' + x' == r + x + g && a' + x == a + x'
    ensures r + a + g == r' + a'
  {
    forall v: nat ensures (r + a + g)[v] == (r' + a')[v] {
      assert (r' + x')[v] == (r + x + g)[v];
      assert (a' + x)[v] == (a + x')[v];
    }
  }

  lemma {:induction false} TraceArguments(run: seq<State>, acts: seq<Act>, i: nat)
    requires IsTrace(run, acts) && i < |run|
    ensures Arguments(acts, i) == run[i].reserved + AllAsked(run[i].threads)
  {
    hide Enabled, Apply, Argument, AllAsked;
    if i == 0 {
      IdleAsked(run[0].threads);
    } else {
      TraceArguments(run, acts, i - 1);
      assert Makes(run, acts, i - 1);
      StepArguments(run[i - 1], acts[i - 1].t, acts[i - 1].step, Arguments(acts, i - 1));
    }
  }

  /**
   In every interleaving, the arguments of all push calls so far are the values of pushes under way,
   those in slots, and those that pops have returned.
   */
  lemma ArgumentsConserved(run: seq<State>, acts: seq<Act>, i: nat)
    requires IsTrace(run, acts) && i < |run|
    ensures Arguments(acts, i) ==
            AllPending(run[i].threads) + AllStored(run[i].pages) + run[i].popped + AllAsked(run[i].threads)
  {
    hide Initial, Enabled, Apply, Arguments, AllAsked, AllPending, AllStored, NextAt;
    TraceArguments(run, acts, i);
    TraceIsRun(run, acts);
    NothingLostOrDuplicated(run, i);
  }

  /** When no call is under way, what the pushes were given is what the pops returned and what the slots hold. */
  lemma ArgumentsAtRest(run: seq<State>, acts: seq<Act>, i: nat)
    requires IsTrace(run, acts) && i < |run|
    requires forall t :: 0 <= t < |run[i].threads| ==> run[i].threads[t].Idle?
    ensures Arguments(acts, i) == AllStored(run[i].pages) + run[i].popped
  {
    hide Initial, Enabled, Apply, Arguments, AllAsked, AllPending, AllStored, NextAt;
    TraceArguments(run, acts, i);
    IdleAsked(run[i].threads);
    TraceIsRun(run, acts);
    ConservedAtRest(run, i);
  }

  // ----- Each call and its answer -----

  function Called(step: Step): Call {
    match step
    case CallPush(v) => Push(v)
    case CallPop => Pop
    case _ => Nothing
  }

  predicate Answers(c: Call, e: Event) {
    match c
    case Nothing => false
    case Push(v) => e == Pushed(v)
    case Pop => !e.Pushed?
  }

  /**
   A call step begins that call; any other step goes on with the call under way, or ends it with its one
   answer.  A pop answers nothing only when the head says that there is nothing.
   */
  ghost predicate Replies(s: State, s': State, t: nat, step: Step)
    requires t < |s.threads| && t < |s'.threads|
  {
    var c, c' := CallOf(s.threads[t]), CallOf(s'.threads[t]);
    if Called(step) != Nothing then c == Nothing && c' == Called(step) && s'.log == s.log && s'.popped == s.popped
    else if c' != Nothing then c' == c && s'.log == s.log && s'.popped == s.popped
    else exists e :: Ends(s, s', s.threads[t], e)
  }

  /** The call of `th` ends with the answer `e`. */
  predicate Ends(s: State, s': State, th: Thread, e: Event) {
    && s'.log == s.log + [e] && Answers(CallOf(th), e)
    && s'.popped == (if e.Popped? then s.popped + multiset{e.v} else s.popped)
    && (e.PoppedNothing? ==> s.head.length <= 0 && (th.PopStart? || th.PopCas?))
  }

  lemma PushReplies(s: State, t: nat)
    requires t < |s.threads| && Enabled(s, t, Run) && CallOf(s.threads[t]).Push?
    ensures Replies(s, Apply(s, t, Run), t, Run)
  {
    hide Plan, Publish, LinkPage, SlotExists, SetSlot;
    match s.threads[t]
    case PushPlan(_, _, _) => PlanMoves(s, t);
    case PushCas(_, _, _, _) => PublishMoves(s, t);
    case PushLink(_, _) => LinkMoves(s, t);
    case PushWrite(v, page, index) =>
      SlotMoves(s, page, index, v);
      if s.pages[page].nodes[index] == 0 { assert Ends(s, Apply(s, t, Run), s.threads[t], Pushed(v)); }
    case _ =>
  }

  lemma PopReplies(s: State, t: nat)
    requires t < |s.threads| && Enabled(s, t, Run) && CallOf(s.threads[t]).Pop?
    ensures Replies(s, Apply(s, t, Run), t, Run)
  {
    hide SlotExists, SetSlot;
    match s.threads[t]
    case PopStart =>
      if s.head.length <= 0 { assert Ends(s, Apply(s, t, Run), s.threads[t], PoppedNothing); }
    case PopTake(page, index, seen) =>
      SlotMoves(s, page, index, 0);
      if s.pages[page].nodes[index] == seen { assert Ends(s, Apply(s, t, Run), s.threads[t], Popped(seen)); }
    case _ =>
  }

  lemma CallReplies(s: State, t: nat, step: Step)
    requires t < |s.threads| && Enabled(s, t, step) && !step.Run?
    ensures Replies(s, Apply(s, t, step), t, step)
  {
    if step.CasFails? && s.threads[t].PopCas? && s.head.length <= 0 {
      assert CallOf(s.threads[t]) == Pop && CallOf(Apply(s, t, step).threads[t]) == Nothing;
      assert Ends(s, Apply(s, t, step), s.threads[t], PoppedNothing);
    }
  }

  lemma StepReplies(s: State, t: nat, step: Step)
    requires t < |s.threads| && Enabled(s, t, step)
    ensures OnlyThread(s, Apply(s, t, step), t) && Replies(s, Apply(s, t, step), t, step)
  {
    hide Apply, Replies, Hands;
    StepHands(s, t, step);
    if !step.Run? {
      CallReplies(s, t, step);
    } else if CallOf(s.threads[t]).Push? {
      PushReplies(s, t);
    } else {
      PopReplies(s, t);
    }
  }

  /** The calls that thread `t` has made in the first `i` steps. */
  function CallsOf(acts: seq<Act>, t: nat, i: nat): seq<Call>
    requires i <= |acts|
  {
    if i == 0 then [] else
    CallsOf(acts, t, i - 1) +
      (if acts[i - 1].t == t && Called(acts[i - 1].step) != Nothing then [Called(acts[i - 1].step)] else [])
  }

  /** The answers that the steps of thread `t` have logged. */
  function AnswersOf(run: seq<State>, acts: seq<Act>, t: nat, i: nat): seq<Event>
    requires i <= |acts| && |run| == |acts| + 1
  {
    if i == 0 then [] else
    AnswersOf(run, acts, t, i - 1) +
      (if acts[i - 1].t == t && |run[i - 1].log| <= |run[i].log| then run[i].log[|run[i - 1].log|..] else [])
  }

  /** The answers are those of the first calls, one by one, and only the call under way has none. */
  predicate Answered(calls: seq<Call>, answers: seq<Event>, now: Call) {
    && (if now == Nothing then |answers| == |calls|
        else |answers| + 1 == |calls| && calls[|answers|] == now)
    && forall k :: 0 <= k < |answers| && k < |calls| ==> Answers(calls[k], answers[k])
  }

  lemma AnsweredStep(s: State, t: nat, step: Step, calls: seq<Call>, answers: seq<Event>)
    requires t < |s.threads| && Enabled(s, t, step) && Answered(calls, answers, CallOf(s.threads[t]))
    ensures var s' := Apply(s, t, step);
            && |s'.threads| == |s.threads| && |s.log| <= |s'.log|
            && Answered(calls + (if Called(step) != Nothing then [Called(step)] else []),
                        answers + s'.log[|s.log|..], CallOf(s'.threads[t]))
  {
    hide Enabled, Apply, CallOf, Called, Answers;
    StepReplies(s, t, step);
    var s' := Apply(s, t, step);
    assert calls + [] == calls && answers + [] == answers;
    if s'.log == s.log {
      assert s'.log[|s.log|..] == [];
    } else {
      var e :| Ends(s, s', s.threads[t], e);
      assert s'.log[|s.log|..] == [e];
      NothingUnanswered(e);
    }
  }

  lemma NothingUnanswered(e: Event)
    ensures !Answers(Nothing, e)
  {
  }

  lemma OthersStay(s: State, t: nat, step: Step, u: nat)
    requires t < |s.threads| && Enabled(s, t, step) && u < |s.threads| && u != t
    ensures |Apply(s, t, step).threads| == |s.threads| && Apply(s, t, step).threads[u] == s.threads[u]
  {
    hide Enabled, Apply;
    StepAsks(s, t, step);
  }

  /** In every interleaving, each thread's calls are answered in order, each by an answer of its own kind and value. */
  lemma {:induction false} CallsAnswered(run: seq<State>, acts: seq<Act>, t: nat, i: nat)
    requires IsTrace(run, acts) && i < |run| && t < |run[0].threads|
    ensures |run[i].threads| == |run[0].threads|
    ensures Answered(CallsOf(acts, t, i), AnswersOf(run, acts, t, i), CallOf(run[i].threads[t]))
  {
    hide Enabled, Apply, CallOf, Called, Answered;
    if i == 0 {
      NoCallsYet(run[0], t);
    } else {
      CallsAnswered(run, acts, t, i - 1);
      assert Makes(run, acts, i - 1);
      var s, u, step := run[i - 1], acts[i - 1].t, acts[i - 1].step;
      if u == t {
        AnsweredStep(s, t, step, CallsOf(acts, t, i - 1), AnswersOf(run, acts, t, i - 1));
      } else {
        OthersStay(s, u, step, t);
        assert CallsOf(acts, t, i) == CallsOf(acts, t, i - 1);
        assert AnswersOf(run, acts, t, i) == AnswersOf(run, acts, t, i - 1);
      }
    }
  }

  lemma NoCallsYet(s: State, t: nat)
    requires Initial(s) && t < |s.threads|
    ensures Answered([], [], CallOf(s.threads[t]))
  {
  }

  /** The values that the logged pops returned. */
  function AllReturned(log: seq<Event>): multiset<nat>
    decreases |log|
  {
    if log == [] then multiset{} else
    var before, e := AllReturned(log[..|log| - 1]), log[|log| - 1];
    if e.Popped? then before + multiset{e.v} else before
  }

  /** The pops have returned exactly the popped values. */
  lemma {:induction false} ReturnedArePopped(run: seq<State>, acts: seq<Act>, i: nat)
    requires IsTrace(run, acts) && i < |run|
    ensures run[i].popped == AllReturned(run[i].log)
  {
    hide Enabled, Apply, CallOf, Called, Answers;
    if i > 0 {
      ReturnedArePopped(run, acts, i - 1);
      assert Makes(run, acts, i - 1);
      var s, t, step := run[i - 1], acts[i - 1].t, acts[i - 1].step;
      StepReplies(s, t, step);
      if run[i].log != s.log {
        var e :| Ends(s, run[i], s.threads[t], e);
        assert run[i].log[..|s.log|] == s.log;
      } else {
        LogGrows(s.log);
      }
    }
  }

  lemma LogGrows(log: seq<Event>)
    ensures forall e :: log + [e] != log
  {
    forall e ensures log + [e] != log { assert |log + [e]| == |log| + 1; }
  }

  // ----- One thread: the calls are those of a stack -----

  /** The stack after the calls, and what they answer. */
  function Results(calls: seq<Call>): (seq<nat>, seq<Event>)
    decreases |calls|
  {
    if calls == [] then ([], []) else
    var (st, out) := Results(calls[..|calls| - 1]);
    match calls[|calls| - 1]
    case Nothing => (st, out)
    case Push(v) => (st + [v], out + [Pushed(v)])
    case Pop => if st == [] then (st, out + [PoppedNothing]) else (st[..|st| - 1], out + [Popped(st[|st| - 1])])
  }

  lemma {:induction false} LifoIsResults(calls: seq<Call>, log: seq<Event>)
    requires |log| == |calls| && IsLifo(log) && forall k :: 0 <= k < |log| ==> Answers(calls[k], log[k])
    ensures Results(calls) == (StackAfter(log), log)
    decreases |log|
  {
    if log != [] {
      var n := |log| - 1;
      LifoIsResults(calls[..n], log[..n]);
      assert log == log[..n] + [log[n]];
      assert Answers(calls[n], log[n]);
    }
  }

  /** With one thread the log is the answers of that thread. */
  lemma {:induction false} OneLog(run: seq<State>, acts: seq<Act>, i: nat)
    requires IsTrace(run, acts) && i < |run| && |run[0].threads| == 1
    ensures |run[i].threads| == 1 && run[i].log == AnswersOf(run, acts, 0, i)
  {
    hide Enabled, Apply, CallOf, Called, Answers;
    if i > 0 {
      OneLog(run, acts, i - 1);
      assert Makes(run, acts, i - 1);
      var s, step := run[i - 1], acts[i - 1].step;
      StepReplies(s, 0, step);
      if run[i].log == s.log {
        assert run[i].log[|s.log|..] == [];
      } else {
        var e :| Ends(s, run[i], s.threads[0], e);
        assert run[i].log[|s.log|..] == [e];
      }
    }
  }

  /**
   With one thread, the answers are exactly those of a stack to the calls made, argument by argument,
   and between calls the slots below the head are the stack.
   */
  lemma CallsAreStack(run: seq<State>, acts: seq<Act>, i: nat)
    requires IsTrace(run, acts) && i < |run| && |run[0].threads| == 1
    ensures var s, calls := run[i], CallsOf(acts, 0, i);
            && |s.threads| == 1 && |s.log| <= |calls| && s.log == Results(calls[..|s.log|]).1
            && (s.threads[0].Idle? ==> |s.log| == |calls| && s.head.length == |Results(calls).0| && Holds(s, Results(calls).0))
  {
    hide Enabled, Apply, Initial, CallsOf, Answers, IsLifo, StackAfter, Results, Holds;
    var s, calls := run[i], CallsOf(acts, 0, i);
    CallsAnswered(run, acts, 0, i);
    OneLog(run, acts, i);
    TraceIsRun(run, acts);
    SingleThreadIsStack(run, i);
    LifoIsResults(calls[..|s.log|], s.log);
    if s.threads[0].Idle? {
      assert calls[..|s.log|] == calls;
      assert s.threads == [Idle];
    }
  }

  // ----- Pages -----

  /** A push that may still allocate a page. */
  function MayAllocate(th: Thread): nat {
    match th
    case PushStart(_) => 1
    case PushPlan(_, _, spare) => if spare.Null? then 1 else 0
    case PushNext(_, _, spare) => if spare.Null? then 1 else 0
    case PushCas(_, _, _, spare) => if spare.Null? then 1 else 0
    case _ => 0
  }

  function AllMayAllocate(threads: seq<Thread>): nat
    decreases |threads|
  {
    if threads == [] then 0 else AllMayAllocate(threads[..|threads| - 1]) + MayAllocate(threads[|threads| - 1])
  }

  lemma {:induction false} MayAllocateUpdate(threads: seq<Thread>, t: nat, th: Thread)
    requires t < |threads|
    ensures AllMayAllocate(threads[t := th]) == AllMayAllocate(threads) - MayAllocate(threads[t]) + MayAllocate(th)
    decreases |threads|
  {
    hide MayAllocate;
    var n, threads' := |threads| - 1, threads[t := th];
    if t == n {
      assert threads'[..n] == threads[..n];
    } else {
      assert threads'[..n] == threads[..n][t := th];
      MayAllocateUpdate(threads[..n], t, th);
    }
  }

  lemma {:induction false} IdleMayAllocate(threads: seq<Thread>)
    requires forall t :: 0 <= t < |threads| ==> threads[t].Idle?
    ensures AllMayAllocate(threads) == 0
    decreases |threads|
  {
    if threads != [] { IdleMayAllocate(threads[..|threads| - 1]); }
  }

  /** The push calls among the first `i` steps. */
  function PushCalls(acts: seq<Act>, i: nat): nat
    requires i <= |acts|
  {
    if i == 0 then 0 else PushCalls(acts, i - 1) + (if acts[i - 1].step.CallPush? then 1 else 0)
  }

  /** A page is allocated by a push that has none yet, and a push keeps the page it has. */
  lemma StepAllocates(s: State, t: nat, step: Step)
    requires t < |s.threads| && Enabled(s, t, step)
    ensures var s' := Apply(s, t, step);
            && |s'.threads| == |s.threads|
            && |s'.pages| + MayAllocate(s'.threads[t]) <=
               |s.pages| + MayAllocate(s.threads[t]) + (if step.CallPush? then 1 else 0)
  {
    hide Plan, Publish, LinkPage, SlotExists, SetSlot;
    if step.Run? {
      match s.threads[t]
      case PushPlan(_, _, _) => PlanPages(s, t);
      case PushCas(_, _, _, _) => PublishMoves(s, t);
        PublishPages(s, t);
      case PushLink(_, _) => LinkMoves(s, t);
        LinkPages(s, t);
      case PushWrite(v, page, index) => SlotPages(s, page, index, v);
      case PopTake(page, index, _) => SlotPages(s, page, index, 0);
      case _ =>
    }
  }

  lemma PlanPages(s: State, t: nat)
    requires t < |s.threads| && s.threads[t].PushPlan? && Enabled(s, t, Run)
    ensures var s' := Plan(s, t);
            && |s'.threads| == |s.threads|
            && |s'.pages| + MayAllocate(s'.threads[t]) == |s.pages| + MayAllocate(s.threads[t])
  {
  }

  lemma PublishPages(s: State, t: nat)
    requires t < |s.threads| && s.threads[t].PushCas?
    ensures Publish(s, t).pages == s.pages
  {
  }

  lemma LinkPages(s: State, t: nat)
    requires t < |s.threads| && s.threads[t].PushLink? && Enabled(s, t, Run)
    ensures |LinkPage(s, t).pages| == |s.pages|
  {
  }

  lemma SlotPages(s: State, page: nat, index: int, v: nat)
    requires SlotExists(s, page, index)
    ensures |SetSlot(s, page, index, v).pages| == |s.pages|
    ensures SetSlot(s, page, index, v) == s.(pages := SetSlot(s, page, index, v).pages)
    ensures page < |s.pages| && 0 <= index < |s.pages[page].nodes|
  {
  }

  /** In every interleaving, there is at most one page more than there were push calls. */
  lemma {:induction false} OnePagePerPush(run: seq<State>, acts: seq<Act>, i: nat)
    requires IsTrace(run, acts) && i < |run|
    ensures |run[i].pages| + AllMayAllocate(run[i].threads) <= 1 + PushCalls(acts, i)
  {
    hide Enabled, Apply, MayAllocate, AllMayAllocate, Hands;
    if i == 0 {
      IdleMayAllocate(run[0].threads);
    } else {
      OnePagePerPush(run, acts, i - 1);
      assert Makes(run, acts, i - 1);
      var s, t, step := run[i - 1], acts[i - 1].t, acts[i - 1].step;
      StepHands(s, t, step);
      StepAllocates(s, t, step);
      MayAllocateUpdate(s.threads, t, run[i].threads[t]);
    }
  }
}
