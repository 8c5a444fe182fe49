/**
 What follows when a transaction takes a lock for write that it already holds for write: the
 lock is listed twice, so the release frees it once while the transaction still counts as its
 holder, and once more after that.
 */
module TransactionRelock {

  import opened TransactionLocks
  import opened TransactionDiscipline

  /** The state after a write call of `t` and its ownership test. */
  function Called(s: State, t: nat, l: nat, upgrade: bool): State
    requires t < |s.txs| && l < |s.locks| && s.txs[t].Live? && s.txs[t].pc.Idle?
  {
    Apply(Apply(s, t, CallWrite(l, upgrade)), t, TestOwner)
  }

  lemma CalledIs(s: State, t: nat, l: nat, upgrade: bool)
    requires t < |s.txs| && l < |s.locks| && s.txs[t].Live? && s.txs[t].pc.Idle?
    ensures var s', tx := Called(s, t, l, upgrade), s.txs[t];
            && s'.locks == s.locks && |s'.txs| == |s.txs| && s'.txs == s.txs[t := s'.txs[t]]
            && s'.txs[t] == tx.(pc := if s.locks[l].owner == tx.id then WriteGot(l) else WriteSpin(l, upgrade))
            && forall m :: Writes(s'.txs[t], m) == Writes(tx, m) + (if m == l && s.locks[l].owner == tx.id then 1 else 0)
  {
  }

  /**
   After a write call, with or without upgrade, each word still names the one holder of its lock if and
   only if the transaction did not hold the lock for write.
   */
  lemma RelockExactly(s: State, t: nat, l: nat, upgrade: bool)
    requires Inv(s) && t < |s.txs| && l < |s.locks| && s.txs[t].Live? && s.txs[t].pc.Idle?
    ensures NamesHolder(Called(s, t, l, upgrade)) <==> Writes(s.txs[t], l) == 0
  {
    var s' := Called(s, t, l, upgrade);
    CalledIs(s, t, l, upgrade);
    hide Called, Writes, WellFormed, DistinctIds, CountsReaders, OwnerHolds, ExcludesReaders;
    if Writes(s.txs[t], l) == 0 {
      NotNamed(s, t, l);
      forall u, m | 0 <= u < |s'.txs| && 0 <= m < |s'.locks| ensures HolderNamed(s', u, m) {
        assert HolderNamed(s, u, m);
      }
    } else {
      HolderFact(s, t, l);
      assert !HolderNamed(s', t, l);
    }
  }

  // ----- The lock is freed while it is held -----

  /** A release from entry `i` on, of a list with `l` for write in it and once more at its end. */
  ghost predicate Undoing(s: State, t: nat, l: nat, i: nat, j: nat) {
    && t < |s.txs| && l < |s.locks| && s.txs[t].Live?
    && var tx := s.txs[t];
       && tx.pc == Releasing(i) && i <= j < |tx.list| - 1
       && tx.list[j] == Entry(l, Write) && tx.list[|tx.list| - 1] == Entry(l, Write)
       && (forall e :: e in tx.list ==> e.lock < |s.locks|)
       && Listed(tx, l, Read) <= s.locks[l].readers <= UINT16_MAX
  }

  /** What undoing one entry does. */
  lemma UndoneIs(s: State, t: nat)
    requires t < |s.txs| && Enabled(s, t, ReleaseOne)
    ensures var tx := s.txs[t];
            var e := tx.list[tx.pc.index];
            Apply(s, t, ReleaseOne) ==
            State(s.locks[e.lock := if e.kind.Write? then Unlock(s.locks[e.lock]) else Leave(s.locks[e.lock])],
                  s.txs[t := tx.(pc := Releasing(tx.pc.index + 1))])
  {
  }

  lemma UndoEnabled(s: State, t: nat, l: nat, i: nat, j: nat)
    requires Undoing(s, t, l, i, j)
    ensures Enabled(s, t, ReleaseOne)
  {
    assert s.txs[t].list[i] in s.txs[t].list;
  }

  lemma UndoNext(s: State, t: nat, l: nat, i: nat, j: nat)
    requires Undoing(s, t, l, i, j) && i < j
    ensures Enabled(s, t, ReleaseOne)
    ensures var s' := Apply(s, t, ReleaseOne);
            && Undoing(s', t, l, i + 1, j) && s'.txs == s.txs[t := s'.txs[t]] && |s'.locks| == |s.locks|
            && s'.txs[t].list == s.txs[t].list && s'.txs[t].id == s.txs[t].id
            && s'.locks[l].readers <= s.locks[l].readers
  {
    hide Listed, Apply;
    UndoEnabled(s, t, l, i, j);
    UndoneIs(s, t);
    UndoneListed(s, t, l);
  }

  lemma UndoneListed(s: State, t: nat, l: nat)
    requires t < |s.txs| && Enabled(s, t, ReleaseOne)
    ensures var tx := s.txs[t];
            Listed(tx.(pc := Releasing(tx.pc.index + 1)), l, Read)
            == Listed(tx, l, Read) - (if tx.list[tx.pc.index] == Entry(l, Read) then 1 else 0)
  {
    hide Listed;
    ListedMoves(s, t, ReleaseOne, l, Read);
  }

  lemma UndoLast(s: State, t: nat, l: nat, j: nat)
    requires Undoing(s, t, l, j, j)
    ensures Enabled(s, t, ReleaseOne)
    ensures var s' := Apply(s, t, ReleaseOne);
            && s'.txs == s.txs[t := s'.txs[t]] && |s'.locks| == |s.locks| && s'.locks[l].readers <= s.locks[l].readers
            && s'.locks[l].owner == 0 && s'.txs[t].Live? && s'.txs[t].id == s.txs[t].id && Writes(s'.txs[t], l) > 0
  {
    var tx := s.txs[t];
    UndoEnabled(s, t, l, j, j);
    UndoneIs(s, t);
    hide Apply;
    var rest := tx.list[j + 1..];
    assert rest[|rest| - 1] == Entry(l, Write);
    assert Entry(l, Write) in multiset(rest);
  }

  /** Undoing entry by entry up to the first that frees `l`. */
  lemma {:induction false} UndoAll(run: seq<State>, t: nat, l: nat, i: nat, j: nat) returns (run': seq<State>)
    requires Chain(run) && Undoing(run[|run| - 1], t, l, i, j)
    ensures Chain(run') && run'[0] == run[0]
    ensures var s, s' := run[|run| - 1], run'[|run'| - 1];
            && |s'.locks| == |s.locks| && |s'.txs| == |s.txs| && s'.txs == s.txs[t := s'.txs[t]]
            && s'.locks[l].readers <= s.locks[l].readers
            && s'.locks[l].owner == 0 && s'.txs[t].Live? && s'.txs[t].id == s.txs[t].id && Writes(s'.txs[t], l) > 0
    decreases j - i
  {
    hide Orderly, Writes, Apply, Enabled;
    var s := run[|run| - 1];
    if i == j {
      UndoLast(s, t, l, j);
      run' := ChainStep(run, t, ReleaseOne);
    } else {
      UndoNext(s, t, l, i, j);
      run' := ChainStep(run, t, ReleaseOne);
      run' := UndoAll(run', t, l, i + 1, j);
    }
  }

  /** A second write call and the begin of the release: the lock is in the list twice. */
  lemma Relists(s: State, t: nat, l: nat) returns (run: seq<State>)
    requires t < |s.txs| && l < |s.locks| && s.txs[t].Live? && s.txs[t].pc.Idle? && s.locks[l].owner == s.txs[t].id
    ensures Chain(run) && run[0] == Apply(s, t, CallWrite(l, false))
    ensures run[|run| - 1] ==
            State(s.locks, s.txs[t := s.txs[t].(list := s.txs[t].list + [Entry(l, Write)], pc := Releasing(0))])
  {
    run := [Apply(s, t, CallWrite(l, false))];
    hide Chain, Disciplined, Listed;
    OneChain(run);
    run := ChainStep(run, t, TestOwner);
    run := ChainStep(run, t, ListWrite);
    run := ChainStep(run, t, CallRelease);
    var end := run[|run| - 1];
    assert end.txs == s.txs[t := end.txs[t]];
  }

  lemma SoundParts(s: State, t: nat, l: nat)
    requires Inv(s) && t < |s.txs| && s.txs[t].Live? && l < |s.locks|
    ensures s.locks[l].readers == TotalAnnounced(s.txs, l) && s.locks[l].readers <= UINT16_MAX
    ensures forall e :: e in s.txs[t].list ==> e.lock < |s.locks|
  {
    assert WellFormedTx(s.txs[t], |s.locks|);
  }

  lemma StartsUndoing(s: State, t: nat, l: nat) returns (j: nat)
    requires Inv(s) && t < |s.txs| && l < |s.locks| && s.txs[t].Live? && s.txs[t].pc.Idle? && Writes(s.txs[t], l) > 0
    ensures Undoing(State(s.locks, s.txs[t := s.txs[t].(list := s.txs[t].list + [Entry(l, Write)], pc := Releasing(0))]),
                    t, l, 0, j)
  {
    hide Inv, TotalAnnounced;
    var tx := s.txs[t];
    SoundParts(s, t, l);
    TotalCovers(s.txs, t, t, l);
    assert Entry(l, Write) in tx.list;
    j :| 0 <= j < |tx.list| && tx.list[j] == Entry(l, Write);
    var list := tx.list + [Entry(l, Write)];
    assert list[0..] == list;
    assert Listed(tx.(list := list, pc := Releasing(0)), l, Read) == Listed(tx, l, Read) <= Announced(tx, l);
  }

  lemma OneChain(run: seq<State>)
    requires |run| == 1
    ensures Chain(run)
  {
  }

  /**
   From every sound state: a transaction that holds a lock for write and calls for it again frees it by
   disciplined steps while it still holds it, whatever else it holds and however many readers wait.
   */
  lemma RelockFreesHeldLock(s: State, t: nat, l: nat) returns (run: seq<State>)
    requires Inv(s) && t < |s.txs| && l < |s.locks| && s.txs[t].Live? && s.txs[t].pc.Idle? && Writes(s.txs[t], l) > 0
    ensures Chain(run) && run[0] == Apply(s, t, CallWrite(l, false))
    ensures var s' := run[|run| - 1];
            && |s'.locks| == |s.locks| && |s'.txs| == |s.txs| && s'.txs == s.txs[t := s'.txs[t]]
            && s'.txs[t].Live? && s'.txs[t].id == s.txs[t].id && s'.locks[l].readers <= s.locks[l].readers
            && s'.locks[l].owner == 0 && Writes(s'.txs[t], l) > 0
  {
    hide Orderly, Inv, Undoing, Writes, Apply, Enabled;
    HolderFact(s, t, l);
    run := Relists(s, t, l);
    var j := StartsUndoing(s, t, l);
    run := UndoAll(run, t, l, 0, j);
  }

  /**
   From every such state in which another transaction can start and read, that transaction is granted
   the lock while the first still holds it for write.
   */
  lemma RelockBreaksExclusion(s: State, t: nat, u: nat, l: nat, id: nat) returns (run: seq<State>)
    requires Inv(s) && t < |s.txs| && l < |s.locks| && s.txs[t].Live? && s.txs[t].pc.Idle? && Writes(s.txs[t], l) > 0
    requires u < |s.txs| && u != t && s.txs[u].Dead? && id != 0 && s.locks[l].readers < UINT16_MAX
    requires forall w :: 0 <= w < |s.txs| && s.txs[w].Live? ==> s.txs[w].id != id
    ensures Chain(run) && run[0] == Apply(s, t, CallWrite(l, false)) && !MutualExclusion(run[|run| - 1])
  {
    run := RelockFreesHeldLock(s, t, l);
    hide Chain, Inv, Listed;
    run := ChainStep(run, u, Acquire(id));
    run := ChainStep(run, u, CallRead(l));
    run := ChainStep(run, u, PollWriter);
    var end := run[|run| - 1];
    assert Grants(end.txs[u], l) > 0;
    assert !Apart(end, t, u, l);
  }

  // ----- Two writers, from the initial state -----

  /** Two transactions own the word of the lock at the same time. */
  predicate TwoWriters(s: State, u: nat, v: nat, l: nat) {
    && l < |s.locks| && u < |s.txs| && v < |s.txs| && u != v && s.txs[u].Live? && s.txs[v].Live?
    && s.txs[u].pc == WriteGot(l) && s.txs[v].pc == WriteGot(l)
  }

  /** A transaction that owns `l` takes it for write again, and undoes the first of its two entries. */
  lemma RelocksAndFrees(s: State, t: nat, l: nat) returns (run: seq<State>)
    requires t < |s.txs| && l < |s.locks|
    requires s.txs[t].Live? && s.txs[t].pc.Idle? && s.txs[t].list == [Entry(l, Write)]
    requires s.locks[l] == Word(s.txs[t].id, 0)
    ensures Chain(run) && run[0] == Apply(s, t, CallWrite(l, false))
    ensures run[|run| - 1] ==
            State(s.locks[l := Word(0, 0)], s.txs[t := Live(s.txs[t].id, [Entry(l, Write), Entry(l, Write)], Releasing(1))])
  {
    run := Relists(s, t, l);
    hide Chain;
    run := ChainStep(run, t, ReleaseOne);
    var end := run[|run| - 1];
    assert end.txs[t] == Live(s.txs[t].id, [Entry(l, Write), Entry(l, Write)], Releasing(1));
    assert end.txs == s.txs[t := end.txs[t]];
  }

  /** The lock is freed a second time while it is someone else's, so that two others hold it for write. */
  lemma FreesTwice(s: State, t: nat, u: nat, v: nat, l: nat, idU: nat, idV: nat) returns (run: seq<State>)
    requires t < |s.txs| && u < |s.txs| && v < |s.txs| && t != u && t != v && u != v && l < |s.locks|
    requires s.txs[t].Live? && s.txs[t].pc.Idle? && s.txs[t].list == [Entry(l, Write)]
    requires s.locks[l] == Word(s.txs[t].id, 0)
    requires s.txs[u].Dead? && s.txs[v].Dead? && idU != 0 && idV != 0 && idU != idV
    requires forall w :: 0 <= w < |s.txs| && s.txs[w].Live? ==> s.txs[w].id != idU && s.txs[w].id != idV
    ensures Chain(run) && run[0] == Apply(s, t, CallWrite(l, false))
    ensures TwoWriters(run[|run| - 1], u, v, l)
  {
    run := RelocksAndFrees(s, t, l);
    hide Chain;
    run := TakesFreeLock(run, u, l, idU);
    run := ChainStep(run, t, ReleaseOne);
    assert run[|run| - 1].locks[l] == Word(0, 0);
    run := TakesFreeLock(run, v, l, idV);
    var end := run[|run| - 1];
    assert end.txs[u].pc == WriteGot(l) && end.txs[v].pc == WriteGot(l);
  }

  predicate WriteCallTo(run: seq<State>, at: nat, t: nat, l: nat)
    requires 0 < at < |run|
  {
    var s := run[at - 1];
    t < |s.txs| && Enabled(s, t, CallWrite(l, false)) && run[at] == Apply(s, t, CallWrite(l, false))
  }

  /** A run whose steps are all disciplined but the one to state `at`, which is a plain write call. */
  ghost predicate IsRunButOne(run: seq<State>, at: nat) {
    && run != [] && Initial(run[0]) && 0 < at < |run|
    && (forall i :: 0 < i < |run| && i != at ==> OrderlyAt(run, i))
    && exists t, l :: WriteCallTo(run, at, t, l)
  }

  /** A chain, one more write call, and a chain from there. */
  lemma Join(first: seq<State>, t: nat, l: nat, rest: seq<State>) returns (run: seq<State>)
    requires Chain(first) && Initial(first[0]) && Chain(rest)
    requires var s := first[|first| - 1];
             t < |s.txs| && Enabled(s, t, CallWrite(l, false)) && rest[0] == Apply(s, t, CallWrite(l, false))
    ensures IsRunButOne(run, |first|) && run[|run| - 1] == rest[|rest| - 1]
  {
    hide Enabled, Disciplined, Apply, Orderly, Initial;
    run := first + rest;
    forall i | 0 < i < |run| && i != |first| ensures OrderlyAt(run, i) {
      if i < |first| {
        assert OrderlyAt(first, i);
      } else {
        assert OrderlyAt(rest, i - |first|);
      }
    }
    assert WriteCallTo(run, |first|, t, l);
  }

  /** The first transaction holds the only lock; the two others have not started. */
  lemma FirstWriter() returns (run: seq<State>)
    ensures Chain(run) && Initial(run[0])
    ensures run[|run| - 1] == State([Word(1, 0)], [Live(1, [Entry(0, Write)], Idle), Dead, Dead])
  {
    run := [State([Word(0, 0)], [Dead, Dead, Dead])];
    OneChain(run);
    hide Chain;
    run := TakesFreeLock(run, 0, 0, 1);
    assert run[|run| - 1] == State([Word(1, 0)], [Live(1, [], WriteGot(0)), Dead, Dead]);
    run := ChainStep(run, 0, ListWrite);
    var end := run[|run| - 1];
    assert end.txs[0].list == [Entry(0, Write)];
    assert end.txs == [Live(1, [Entry(0, Write)], Idle), Dead, Dead];
  }

  /** A run of three transactions on one free lock, undisciplined in one write call, that ends with two of them writing. */
  lemma TwoWritersReached() returns (run: seq<State>, at: nat)
    ensures IsRunButOne(run, at) && TwoWriters(run[|run| - 1], 1, 2, 0) && !MutualExclusion(run[|run| - 1])
  {
    var first := FirstWriter();
    hide Orderly, OrderlyAt, MutualExclusion, Initial;
    var rest := FreesTwice(first[|first| - 1], 0, 1, 2, 0, 2, 3);
    at := |first|;
    run := Join(first, 0, 0, rest);
    TwoWritersClash(run[|run| - 1], 1, 2, 0);
  }

  lemma TwoWritersClash(s: State, u: nat, v: nat, l: nat)
    requires TwoWriters(s, u, v, l)
    ensures !MutualExclusion(s)
  {
    assert !Apart(s, u, v, l);
  }
}
