/**
 What an undisturbed call of the transactional locks does, whatever the transaction holds: a lock
 that is free is taken and listed, a lock that is not is left alone, and a release gives all back.
 */
module TransactionCalls {

  import opened TransactionLocks

  // ----- Steps of one transaction in a row -----

  predicate CanDo(s: State, t: nat, steps: seq<Step>)
    decreases |steps|
  {
    && t < |s.txs|
    && (steps != [] ==> Enabled(s, t, steps[0]) && CanDo(Apply(s, t, steps[0]), t, steps[1..]))
  }

  function Do(s: State, t: nat, steps: seq<Step>): State
    requires CanDo(s, t, steps)
    decreases |steps|
  {
    if steps == [] then s else Do(Apply(s, t, steps[0]), t, steps[1..])
  }

  lemma DoFirst(s: State, t: nat, step: Step, rest: seq<Step>)
    requires t < |s.txs| && Enabled(s, t, step) && CanDo(Apply(s, t, step), t, rest)
    ensures CanDo(s, t, [step] + rest) && Do(s, t, [step] + rest) == Do(Apply(s, t, step), t, rest)
  {
    assert ([step] + rest)[1..] == rest;
  }

  lemma DoLast(s: State, t: nat, step: Step)
    requires t < |s.txs| && Enabled(s, t, step)
    ensures CanDo(s, t, [step]) && Do(s, t, [step]) == Apply(s, t, step)
  {
    hide Enabled, Apply;
    assert [step][1..] == [];
    assert |Apply(s, t, step).txs| == |s.txs| by { TxsStay(s, t, step); }
  }

  lemma TxsStay(s: State, t: nat, step: Step)
    requires t < |s.txs| && Enabled(s, t, step)
    ensures |Apply(s, t, step).txs| == |s.txs|
  {
  }

  /** The state with this word and this transaction. */
  function With(s: State, l: nat, w: Word, t: nat, tx: Tx): State
    requires l < |s.locks| && t < |s.txs|
  {
    State(s.locks[l := w], s.txs[t := tx])
  }

  lemma WithTwice(s: State, l: nat, v: Word, w: Word, t: nat, x: Tx, y: Tx)
    requires l < |s.locks| && t < |s.txs|
    ensures With(With(s, l, v, t, x), l, w, t, y) == With(s, l, w, t, y)
  {
  }

  lemma WithSame(s: State, l: nat, t: nat, tx: Tx)
    requires l < |s.locks| && t < |s.txs|
    ensures With(s, l, s.locks[l], t, tx) == State(s.locks, s.txs[t := tx])
  {
  }

  // ----- Taking a lock -----

  /** The word that a write call takes, and what it then is. */
  function FreeWord(upgrade: bool): Word { Word(0, Expected(upgrade)) }

  lemma WriteStep1(s: State, t: nat, l: nat, upgrade: bool)
    requires t < |s.txs| && l < |s.locks| && s.txs[t].Live? && s.txs[t].pc.Idle?
    ensures Enabled(s, t, CallWrite(l, upgrade))
    ensures Apply(s, t, CallWrite(l, upgrade)) == With(s, l, s.locks[l], t, s.txs[t].(pc := WriteTest(l, upgrade)))
  {
  }

  lemma WriteStep2(s: State, t: nat, l: nat, upgrade: bool)
    requires t < |s.txs| && l < |s.locks| && s.txs[t].Live? && s.txs[t].pc == WriteTest(l, upgrade)
    requires s.locks[l].owner != s.txs[t].id
    ensures Enabled(s, t, TestOwner)
    ensures Apply(s, t, TestOwner) == With(s, l, s.locks[l], t, s.txs[t].(pc := WriteSpin(l, upgrade)))
  {
  }

  lemma WriteStep3(s: State, t: nat, l: nat, upgrade: bool)
    requires t < |s.txs| && l < |s.locks| && s.txs[t].Live? && s.txs[t].pc == WriteSpin(l, upgrade)
    requires s.locks[l] == FreeWord(upgrade)
    ensures Enabled(s, t, CompareAndSwap)
    ensures Apply(s, t, CompareAndSwap) ==
            With(s, l, Word(s.txs[t].id, Expected(upgrade)), t, s.txs[t].(pc := WriteGot(l)))
  {
  }

  lemma WriteStep4(s: State, t: nat, l: nat)
    requires t < |s.txs| && l < |s.locks| && s.txs[t].Live? && s.txs[t].pc == WriteGot(l)
    ensures Enabled(s, t, ListWrite)
    ensures Apply(s, t, ListWrite) ==
            With(s, l, s.locks[l], t, s.txs[t].(list := s.txs[t].list + [Entry(l, Write)], pc := Idle))
  {
  }

  /**
   A write call that nobody disturbs, of any live transaction, whatever it has listed: the free word is made
   to name the caller, and the lock is listed once more.  With `upgrade` the word has one reader.
   */
  lemma WriteAlone(s: State, t: nat, l: nat, upgrade: bool)
    requires t < |s.txs| && l < |s.locks| && s.txs[t].Live? && s.txs[t].pc.Idle? && s.txs[t].id != 0
    requires s.locks[l] == Word(0, if upgrade then 1 else 0)
    ensures var steps := [CallWrite(l, upgrade), TestOwner, CompareAndSwap, ListWrite];
            && CanDo(s, t, steps)
            && Do(s, t, steps) ==
               State(s.locks[l := Word(s.txs[t].id, if upgrade then 1 else 0)],
                     s.txs[t := Live(s.txs[t].id, s.txs[t].list + [Entry(l, Write)], Idle)])
  {
    hide Apply, Enabled, CanDo, Do, With;
    var tx, w := s.txs[t], Word(s.txs[t].id, Expected(upgrade));
    var x1, x2, x3 := tx.(pc := WriteTest(l, upgrade)), tx.(pc := WriteSpin(l, upgrade)), tx.(pc := WriteGot(l));
    var x4 := Live(tx.id, tx.list + [Entry(l, Write)], Idle);
    var s1, s2, s3 := With(s, l, s.locks[l], t, x1), With(s, l, s.locks[l], t, x2), With(s, l, w, t, x3);
    WithIs(s, l, s.locks[l], t, x1);
    WithIs(s, l, s.locks[l], t, x2);
    WithIs(s, l, w, t, x3);
    WithIs(s, l, w, t, x4);
    WriteStep1(s, t, l, upgrade);
    WriteStep2(s1, t, l, upgrade);
    WithTwice(s, l, s.locks[l], s.locks[l], t, x1, x2);
    WriteStep3(s2, t, l, upgrade);
    WithTwice(s, l, s.locks[l], w, t, x2, x3);
    WriteStep4(s3, t, l);
    WithTwice(s, l, w, w, t, x3, x4);
    DoLast(s3, t, ListWrite);
    DoFirst(s2, t, CompareAndSwap, [ListWrite]);
    DoFirst(s1, t, TestOwner, [CompareAndSwap, ListWrite]);
    DoFirst(s, t, CallWrite(l, upgrade), [TestOwner, CompareAndSwap, ListWrite]);
    assert [CompareAndSwap] + [ListWrite] == [CompareAndSwap, ListWrite];
    assert [TestOwner] + [CompareAndSwap, ListWrite] == [TestOwner, CompareAndSwap, ListWrite];
    assert [CallWrite(l, upgrade)] + [TestOwner, CompareAndSwap, ListWrite] ==
           [CallWrite(l, upgrade), TestOwner, CompareAndSwap, ListWrite];
  }

  lemma WithIs(s: State, l: nat, w: Word, t: nat, tx: Tx)
    requires l < |s.locks| && t < |s.txs|
    ensures With(s, l, w, t, tx) == State(s.locks[l := w], s.txs[t := tx])
    ensures var s' := With(s, l, w, t, tx);
            |s'.locks| == |s.locks| && |s'.txs| == |s.txs| && s'.locks[l] == w && s'.txs[t] == tx
  {
  }

  /** A read call that nobody disturbs, on a lock without a writer: one more reader, and the lock is listed. */
  lemma ReadAlone(s: State, t: nat, l: nat)
    requires t < |s.txs| && l < |s.locks| && s.txs[t].Live? && s.txs[t].pc.Idle?
    requires s.locks[l].owner == 0 && s.locks[l].readers < UINT16_MAX
    ensures var steps := [CallRead(l), PollWriter, ListRead];
            && CanDo(s, t, steps)
            && Do(s, t, steps) ==
               State(s.locks[l := Word(0, s.locks[l].readers + 1)],
                     s.txs[t := Live(s.txs[t].id, s.txs[t].list + [Entry(l, Read)], Idle)])
  {
    var tx, w := s.txs[t], Word(0, s.locks[l].readers + 1);
    var x1, x2 := tx.(pc := ReadWait(l)), tx.(pc := ReadGot(l));
    var x3 := Live(tx.id, tx.list + [Entry(l, Read)], Idle);
    var s1, s2 := With(s, l, w, t, x1), With(s, l, w, t, x2);
    ReadSteps(s, t, l);
    WithTwice(s, l, w, w, t, x1, x2);
    WithTwice(s, l, w, w, t, x2, x3);
    hide Apply, Enabled, CanDo, Do;
    DoLast(s2, t, ListRead);
    DoFirst(s1, t, PollWriter, [ListRead]);
    DoFirst(s, t, CallRead(l), [PollWriter, ListRead]);
    assert [PollWriter] + [ListRead] == [PollWriter, ListRead];
    assert [CallRead(l)] + [PollWriter, ListRead] == [CallRead(l), PollWriter, ListRead];
  }

  lemma ReadSteps(s: State, t: nat, l: nat)
    requires t < |s.txs| && l < |s.locks| && s.txs[t].Live? && s.txs[t].pc.Idle?
    requires s.locks[l].owner == 0 && s.locks[l].readers < UINT16_MAX
    ensures var tx, w := s.txs[t], Word(0, s.locks[l].readers + 1);
            var x1, x2 := tx.(pc := ReadWait(l)), tx.(pc := ReadGot(l));
            var x3 := Live(tx.id, tx.list + [Entry(l, Read)], Idle);
            var s1, s2 := With(s, l, w, t, x1), With(s, l, w, t, x2);
            && Enabled(s, t, CallRead(l)) && Apply(s, t, CallRead(l)) == s1
            && Enabled(s1, t, PollWriter) && Apply(s1, t, PollWriter) == With(s1, l, w, t, x2)
            && Enabled(s2, t, ListRead) && Apply(s2, t, ListRead) == With(s2, l, w, t, x3)
  {
  }

  // ----- Calls that fail -----

  lemma Undone(s: State, l: nat, t: nat)
    requires l < |s.locks| && t < |s.txs|
    ensures State(s.locks[l := s.locks[l]], s.txs[t := s.txs[t]]) == s
  {
  }

  /** A write call that gives up while it waits, whatever the word is, leaves all as it was. */
  lemma WriteGivesUp(s: State, t: nat, l: nat, upgrade: bool)
    requires t < |s.txs| && l < |s.locks| && s.txs[t].Live? && s.txs[t].pc.Idle? && s.locks[l].owner != s.txs[t].id
    ensures var steps := [CallWrite(l, upgrade), TestOwner, GiveUpWrite]; CanDo(s, t, steps) && Do(s, t, steps) == s
  {
    hide CanDo, Do;
    var s1 := Apply(s, t, CallWrite(l, upgrade));
    var s2 := Apply(s1, t, TestOwner);
    DoLast(s2, t, GiveUpWrite);
    DoFirst(s1, t, TestOwner, [GiveUpWrite]);
    DoFirst(s, t, CallWrite(l, upgrade), [TestOwner, GiveUpWrite]);
    assert [TestOwner] + [GiveUpWrite] == [TestOwner, GiveUpWrite];
    assert [CallWrite(l, upgrade)] + [TestOwner, GiveUpWrite] == [CallWrite(l, upgrade), TestOwner, GiveUpWrite];
    Undone(s, l, t);
  }

  /** A write call that takes the lock and cannot list it gives it back. */
  lemma WriteNotListed(s: State, t: nat, l: nat, upgrade: bool)
    requires t < |s.txs| && l < |s.locks| && s.txs[t].Live? && s.txs[t].pc.Idle? && s.txs[t].id != 0
    requires s.locks[l] == Word(0, if upgrade then 1 else 0)
    ensures var steps := [CallWrite(l, upgrade), TestOwner, CompareAndSwap, ListWriteFails];
            CanDo(s, t, steps) && Do(s, t, steps) == s
  {
    hide CanDo, Do;
    var s1 := Apply(s, t, CallWrite(l, upgrade));
    var s2 := Apply(s1, t, TestOwner);
    var s3 := Apply(s2, t, CompareAndSwap);
    DoLast(s3, t, ListWriteFails);
    DoFirst(s2, t, CompareAndSwap, [ListWriteFails]);
    DoFirst(s1, t, TestOwner, [CompareAndSwap, ListWriteFails]);
    DoFirst(s, t, CallWrite(l, upgrade), [TestOwner, CompareAndSwap, ListWriteFails]);
    assert [CompareAndSwap] + [ListWriteFails] == [CompareAndSwap, ListWriteFails];
    assert [TestOwner] + [CompareAndSwap, ListWriteFails] == [TestOwner, CompareAndSwap, ListWriteFails];
    assert [CallWrite(l, upgrade)] + [TestOwner, CompareAndSwap, ListWriteFails] ==
           [CallWrite(l, upgrade), TestOwner, CompareAndSwap, ListWriteFails];
    Undone(s, l, t);
  }

  /** A read call that gives up while it waits takes its announcement back. */
  lemma ReadGivesUp(s: State, t: nat, l: nat)
    requires t < |s.txs| && l < |s.locks| && s.txs[t].Live? && s.txs[t].pc.Idle? && s.locks[l].readers < UINT16_MAX
    ensures var steps := [CallRead(l), GiveUpRead]; CanDo(s, t, steps) && Do(s, t, steps) == s
  {
    hide CanDo, Do;
    var s1 := Apply(s, t, CallRead(l));
    DoLast(s1, t, GiveUpRead);
    DoFirst(s, t, CallRead(l), [GiveUpRead]);
    assert [CallRead(l)] + [GiveUpRead] == [CallRead(l), GiveUpRead];
    Undone(s, l, t);
  }

  /** So does one that was granted the lock and cannot list it. */
  lemma ReadNotListed(s: State, t: nat, l: nat)
    requires t < |s.txs| && l < |s.locks| && s.txs[t].Live? && s.txs[t].pc.Idle?
    requires s.locks[l].owner == 0 && s.locks[l].readers < UINT16_MAX
    ensures var steps := [CallRead(l), PollWriter, ListReadFails]; CanDo(s, t, steps) && Do(s, t, steps) == s
  {
    hide CanDo, Do;
    var s1 := Apply(s, t, CallRead(l));
    var s2 := Apply(s1, t, PollWriter);
    DoLast(s2, t, ListReadFails);
    DoFirst(s1, t, PollWriter, [ListReadFails]);
    DoFirst(s, t, CallRead(l), [PollWriter, ListReadFails]);
    assert [PollWriter] + [ListReadFails] == [PollWriter, ListReadFails];
    assert [CallRead(l)] + [PollWriter, ListReadFails] == [CallRead(l), PollWriter, ListReadFails];
    Undone(s, l, t);
  }

  // ----- A lock that is not free -----

  /** The swap of a write call changes nothing exactly when the word is not the one it expects. */
  lemma SwapWaits(s: State, t: nat)
    requires t < |s.txs| && Enabled(s, t, CompareAndSwap)
    ensures var w := s.locks[s.txs[t].pc.lock];
            Apply(s, t, CompareAndSwap) == s <==> w != Word(0, if s.txs[t].pc.upgrade then 1 else 0)
  {
    var s' := Apply(s, t, CompareAndSwap);
    assert s.txs[t := s.txs[t]] == s.txs;
    if s.locks[s.txs[t].pc.lock] == FreeWord(s.txs[t].pc.upgrade) { assert s'.txs[t].pc.WriteGot?; }
  }

  /** A read call waits exactly while there is a writer. */
  lemma ReadWaits(s: State, t: nat)
    requires t < |s.txs| && Enabled(s, t, PollWriter)
    ensures Apply(s, t, PollWriter) == s <==> s.locks[s.txs[t].pc.lock].owner != 0
  {
    var s' := Apply(s, t, PollWriter);
    assert s.txs[t := s.txs[t]] == s.txs;
    if s.locks[s.txs[t].pc.lock].owner == 0 { assert s'.txs[t].pc.ReadGot?; }
  }

  // ----- Giving everything back -----

  /** The steps of a release of `n` entries, after its call. */
  function Undo(n: nat): seq<Step> { if n == 0 then [Finish] else [ReleaseOne] + Undo(n - 1) }

  lemma ReleaseNext(s: State, t: nat)
    requires Inv(s) && t < |s.txs| && s.txs[t].Live? && s.txs[t].pc.Releasing? && s.txs[t].pc.index < |s.txs[t].list|
    ensures Enabled(s, t, ReleaseOne)
    ensures var s', tx := Apply(s, t, ReleaseOne), s.txs[t];
            Inv(s') && |s'.locks| == |s.locks| && s'.txs == s.txs[t := tx.(pc := Releasing(tx.pc.index + 1))]
  {
    hide Inv, Next;
    EntryKnown(s, t);
    ReleaseIs(s, t);
    Keeps(s, Apply(s, t, ReleaseOne));
  }

  lemma EntryKnown(s: State, t: nat)
    requires Inv(s) && t < |s.txs| && s.txs[t].Live? && s.txs[t].pc.Releasing? && s.txs[t].pc.index < |s.txs[t].list|
    ensures s.txs[t].list[s.txs[t].pc.index].lock < |s.locks|
  {
    assert WellFormedTx(s.txs[t], |s.locks|);
  }

  lemma ReleaseIs(s: State, t: nat)
    requires t < |s.txs| && Enabled(s, t, ReleaseOne)
    ensures Next(s, Apply(s, t, ReleaseOne)) && |Apply(s, t, ReleaseOne).locks| == |s.locks|
  {
    assert !Bad(s, t, ReleaseOne);
  }

  lemma ReleaseEnds(s: State, t: nat)
    requires Inv(s) && t < |s.txs| && s.txs[t].Live? && s.txs[t].pc == Releasing(|s.txs[t].list|)
    ensures Enabled(s, t, Finish)
    ensures var s' := Apply(s, t, Finish); Inv(s') && s'.locks == s.locks && s'.txs == s.txs[t := Dead]
  {
    hide Inv;
    assert Next(s, Apply(s, t, Finish));
    Keeps(s, Apply(s, t, Finish));
  }

  lemma {:induction false} UndoAlone(s: State, t: nat, n: nat)
    requires Inv(s) && t < |s.txs| && s.txs[t].Live? && s.txs[t].pc.Releasing? && s.txs[t].pc.index + n == |s.txs[t].list|
    ensures CanDo(s, t, Undo(n))
    ensures var f := Do(s, t, Undo(n)); Inv(f) && |f.locks| == |s.locks| && f.txs == s.txs[t := Dead]
    decreases n
  {
    hide Inv, Apply, Enabled, CanDo, Do;
    if n == 0 {
      ReleaseEnds(s, t);
      DoLast(s, t, Finish);
    } else {
      ReleaseNext(s, t);
      var s' := Apply(s, t, ReleaseOne);
      UndoAlone(s', t, n - 1);
      DoFirst(s, t, ReleaseOne, Undo(n - 1));
      assert s'.txs[t := Dead] == s.txs[t := Dead];
    }
  }

  /** What the words are when a transaction has gone, by the soundness of both states. */
  lemma WordsWithout(s: State, f: State, t: nat, l: nat)
    requires Inv(s) && Inv(f) && t < |s.txs| && |f.locks| == |s.locks| && l < |s.locks| && f.txs == s.txs[t := Dead]
    ensures f.locks[l].readers == s.locks[l].readers - Announced(s.txs[t], l)
    ensures f.locks[l].owner == if Writes(s.txs[t], l) > 0 then 0 else s.locks[l].owner
  {
    TotalUpdate(s.txs, t, Dead, l);
    assert Announced(Dead, l) == 0;
    assert s.locks[l].readers == TotalAnnounced(s.txs, l) && f.locks[l].readers == TotalAnnounced(f.txs, l);
    OwnerWithout(s, f, t, l);
  }

  lemma OwnerWithout(s: State, f: State, t: nat, l: nat)
    requires Inv(s) && Inv(f) && t < |s.txs| && |f.locks| == |s.locks| && l < |s.locks| && f.txs == s.txs[t := Dead]
    ensures f.locks[l].owner == if Writes(s.txs[t], l) > 0 then 0 else s.locks[l].owner
  {
    DeadHoldsNothing(Dead, l);
    hide Inv, Writes;
    if f.locks[l].owner != 0 {
      var u := OwnerOf(f, l);
      HolderFact(s, u, l);
      if Writes(s.txs[t], l) > 0 {
        HolderFact(s, t, l);
        SameId(s, t, u);
        assert false;
      }
    } else if Writes(s.txs[t], l) == 0 && s.locks[l].owner != 0 {
      var u := OwnerOf(s, l);
      HolderFact(f, u, l);
      assert false;
    }
  }

  /**
   From every sound state, an undisturbed release ends the transaction: the locks it held for write are
   free, each of its read locks is counted off, and no other word changes.
   */
  lemma ReleaseAlone(s: State, t: nat)
    requires Inv(s) && t < |s.txs| && s.txs[t].Live? && s.txs[t].pc.Idle?
    ensures var steps := [CallRelease] + Undo(|s.txs[t].list|);
            && CanDo(s, t, steps)
            && var f := Do(s, t, steps);
               && f.txs == s.txs[t := Dead] && |f.locks| == |s.locks|
               && forall l :: 0 <= l < |s.locks| ==>
                    && f.locks[l].owner == (if Writes(s.txs[t], l) > 0 then 0 else s.locks[l].owner)
                    && f.locks[l].readers == s.locks[l].readers - Announced(s.txs[t], l)
  {
    ReleaseBegins(s, t);
    hide Inv, Apply, Enabled, CanDo, Do, Writes, Announced;
    var s' := Apply(s, t, CallRelease);
    UndoAlone(s', t, |s.txs[t].list|);
    DoFirst(s, t, CallRelease, Undo(|s.txs[t].list|));
    var f := Do(s', t, Undo(|s.txs[t].list|));
    assert s'.txs[t := Dead] == s.txs[t := Dead];
    forall l | 0 <= l < |s.locks|
      ensures f.locks[l].owner == (if Writes(s.txs[t], l) > 0 then 0 else s.locks[l].owner)
      ensures f.locks[l].readers == s.locks[l].readers - Announced(s.txs[t], l)
    {
      WordsWithout(s, f, t, l);
    }
  }

  lemma ReleaseBegins(s: State, t: nat)
    requires Inv(s) && t < |s.txs| && s.txs[t].Live? && s.txs[t].pc.Idle?
    ensures Enabled(s, t, CallRelease)
    ensures var s' := Apply(s, t, CallRelease);
            Inv(s') && s'.locks == s.locks && s'.txs == s.txs[t := s.txs[t].(pc := Releasing(0))]
  {
    hide Inv;
    assert Next(s, Apply(s, t, CallRelease));
    Keeps(s, Apply(s, t, CallRelease));
  }
}
