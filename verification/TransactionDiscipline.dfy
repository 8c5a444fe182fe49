/**
 Which steps and runs of the transactional locks are safe: exactly those that take none of the
 failing branches; and what callers can keep to so that they are never taken.
 */
module TransactionDiscipline {

  import opened TransactionLocks

  // ----- Exactly the steps and runs that keep the words true -----

  /**
   Ids are unique, each word names the one holder of its lock and counts its announced readers, and a
   writer excludes granted readers.
   */
  ghost predicate Truthful(s: State) {
    DistinctIds(s) && NamesHolder(s) && CountsReaders(s) && ExcludesReaders(s)
  }

  lemma SameIdBreaks(s: State, t: nat, step: Step)
    requires t < |s.txs| && step.Acquire? && Enabled(s, t, step) && Bad(s, t, step)
    ensures !DistinctIds(Apply(s, t, step))
  {
    var s' := Apply(s, t, step);
    var u :| 0 <= u < |s.txs| && s.txs[u].Live? && s.txs[u].id == step.id;
    var a, b := if u < t then u else t, if u < t then t else u;
    assert s'.txs[a].Live? && s'.txs[b].Live? && s'.txs[a].id == s'.txs[b].id;
  }

  /** A write call that finds its own transaction in the word holds the lock twice. */
  lemma OwnIdBreaks(s: State, t: nat)
    requires Inv(s) && t < |s.txs| && Enabled(s, t, TestOwner) && Bad(s, t, TestOwner)
    ensures !NamesHolder(Apply(s, t, TestOwner))
  {
    var l := s.txs[t].pc.lock;
    assert WellFormedTx(s.txs[t], |s.locks|);
    var u := OwnerOf(s, l);
    SameId(s, t, u);
    WritesMoves(s, t, TestOwner, l);
    assert !HolderNamed(Apply(s, t, TestOwner), t, l);
  }

  /** The swap of an upgrade that another granted reader let through. */
  lemma UpgradeBreaks(s: State, t: nat)
    requires t < |s.txs| && Enabled(s, t, CompareAndSwap) && Bad(s, t, CompareAndSwap)
    ensures !ExcludesReaders(Apply(s, t, CompareAndSwap))
  {
    var l := s.txs[t].pc.lock;
    var u :| 0 <= u < |s.txs| && u != t && Grants(s.txs[u], l) > 0;
    WritesMoves(s, t, CompareAndSwap, l);
    assert !Excludes(Apply(s, t, CompareAndSwap), t, u, l);
  }

  /** One reader too many is counted as none. */
  lemma WrapBreaks(s: State, t: nat, step: Step)
    requires Inv(s) && t < |s.txs| && step.CallRead? && Enabled(s, t, step) && Bad(s, t, step)
    ensures !CountsReaders(Apply(s, t, step))
  {
    hide Announced, TotalAnnounced, Moved, Written, WellFormed, DistinctIds, NamesHolder, OwnerHolds, ExcludesReaders;
    AnnouncedMoves(s, t, step, step.lock);
    TotalUpdate(s.txs, t, Moved(s, t, step), step.lock);
    WrapIs(s, t, step);
    assert s.locks[step.lock].readers == TotalAnnounced(s.txs, step.lock);
  }

  lemma WrapIs(s: State, t: nat, step: Step)
    requires t < |s.txs| && step.CallRead? && Enabled(s, t, step) && Bad(s, t, step)
    ensures |Written(s, t, step)| == |s.locks| && Written(s, t, step)[step.lock].readers == 0
  {
  }

  /** From every sound state, a step leaves the words true, and the state sound, if and only if it takes no failing branch. */
  lemma KeepsExactly(s: State, t: nat, step: Step)
    requires Inv(s) && t < |s.txs| && Enabled(s, t, step)
    ensures Truthful(Apply(s, t, step)) <==> !Bad(s, t, step)
    ensures Inv(Apply(s, t, step)) <==> !Bad(s, t, step)
  {
    hide WellFormed, DistinctIds, CountsReaders, NamesHolder, OwnerHolds, ExcludesReaders, Enabled, Apply;
    if !Bad(s, t, step) {
      assert Next(s, Apply(s, t, step));
      Keeps(s, Apply(s, t, step));
    } else {
      match step
      case Acquire(_) => SameIdBreaks(s, t, step);
      case TestOwner => OwnIdBreaks(s, t);
      case CompareAndSwap => UpgradeBreaks(s, t);
      case CallRead(_) => WrapBreaks(s, t, step);
    }
  }

  /** The run makes the given steps, whatever they are. */
  ghost predicate Makes(run: seq<State>, moves: seq<(nat, Step)>, i: nat)
    requires |run| == |moves| + 1 && i < |moves|
  {
    var (t, step) := moves[i];
    t < |run[i].txs| && Enabled(run[i], t, step) && run[i + 1] == Apply(run[i], t, step)
  }

  /** The step takes a failing branch. */
  ghost predicate BadAt(run: seq<State>, moves: seq<(nat, Step)>, i: nat)
    requires |run| == |moves| + 1 && i < |moves| && Makes(run, moves, i)
  {
    Bad(run[i], moves[i].0, moves[i].1)
  }

  ghost predicate TruthfulAt(run: seq<State>, i: nat)
    requires i < |run|
  {
    Truthful(run[i])
  }

  lemma {:induction false} SoundUpTo(run: seq<State>, moves: seq<(nat, Step)>, i: nat)
    requires |run| == |moves| + 1 && Initial(run[0]) && i < |run|
    requires forall j :: 0 <= j < |moves| ==> Makes(run, moves, j)
    requires forall j :: 0 <= j < i ==> TruthfulAt(run, j + 1) || !BadAt(run, moves, j)
    ensures Inv(run[i])
  {
    hide Inv, Initial, Truthful;
    if i == 0 {
      InitialInv(run[0]);
    } else {
      SoundUpTo(run, moves, i - 1);
      assert Makes(run, moves, i - 1) && (TruthfulAt(run, i) || !BadAt(run, moves, i - 1));
      KeepsExactly(run[i - 1], moves[i - 1].0, moves[i - 1].1);
    }
  }

  lemma SoundIsTruthful(s: State)
    requires Inv(s)
    ensures Truthful(s)
  {
  }

  /** Whatever steps are made from an initial state: the words are true all along if and only if no failing branch is taken. */
  lemma RunsExactly(run: seq<State>, moves: seq<(nat, Step)>)
    requires |run| == |moves| + 1 && Initial(run[0])
    requires forall i :: 0 <= i < |moves| ==> Makes(run, moves, i)
    ensures (forall i :: 0 <= i < |run| ==> TruthfulAt(run, i)) <==> (forall i :: 0 <= i < |moves| ==> !BadAt(run, moves, i))
  {
    hide Inv, Initial, Enabled, Apply, Bad, Truthful;
    if forall i :: 0 <= i < |moves| ==> !BadAt(run, moves, i) {
      forall i | 0 <= i < |run| ensures TruthfulAt(run, i) {
        SoundUpTo(run, moves, i);
        SoundIsTruthful(run[i]);
      }
    }
    if forall i :: 0 <= i < |run| ==> TruthfulAt(run, i) {
      forall i | 0 <= i < |moves| ensures !BadAt(run, moves, i) {
        SoundUpTo(run, moves, i);
        assert Makes(run, moves, i) && TruthfulAt(run, i + 1);
        KeepsExactly(run[i], moves[i].0, moves[i].1);
      }
    }
  }

  // ----- A discipline for callers -----

  /**
   What callers must keep to: a new id is not in use, a lock is taken for write at most once, an
   upgrade starts from an own read lock, and no lock is read more often than its word can count.
   */
  predicate Disciplined(s: State, t: nat, step: Step)
    requires t < |s.txs|
  {
    var tx := s.txs[t];
    match step
    case Acquire(id) => forall u :: 0 <= u < |s.txs| && s.txs[u].Live? ==> s.txs[u].id != id
    case CallWrite(l, upgrade) => Writes(tx, l) == 0 && (upgrade ==> Grants(tx, l) >= 1)
    case CallRead(l) => l < |s.locks| ==> s.locks[l].readers < UINT16_MAX
    case _ => true
  }

  ghost predicate Orderly(s: State, s': State) {
    exists t, step :: 0 <= t < |s.txs| && Enabled(s, t, step) && Disciplined(s, t, step) && s' == Apply(s, t, step)
  }

  /** What a disciplined caller still has while its write call waits. */
  ghost predicate CallOk(tx: Tx) {
    tx.Live? && (tx.pc.WriteTest? || tx.pc.WriteSpin?) ==>
      Writes(tx, tx.pc.lock) == 0 && (tx.pc.upgrade ==> Grants(tx, tx.pc.lock) >= 1)
  }

  ghost predicate CallsOk(s: State) {
    forall t :: 0 <= t < |s.txs| ==> CallOk(s.txs[t])
  }

  /** Holding no write lock on a lock, a transaction is not named by its word. */
  lemma NotNamed(s: State, t: nat, l: nat)
    requires Inv(s) && t < |s.txs| && l < |s.locks| && s.txs[t].Live? && Writes(s.txs[t], l) == 0
    ensures s.locks[l].owner != s.txs[t].id
  {
    assert WellFormedTx(s.txs[t], |s.locks|);
    hide Inv, Writes, WellFormedTx;
    if s.locks[l].owner == s.txs[t].id {
      var u := OwnerOf(s, l);
      SameId(s, t, u);
      assert false;
    }
  }

  /** The ownership test of a disciplined caller never finds the lock owned already. */
  lemma NeverOwnedAlready(s: State, t: nat)
    requires Inv(s) && CallsOk(s) && t < |s.txs| && Enabled(s, t, TestOwner)
    ensures s.locks[s.txs[t].pc.lock].owner != s.txs[t].id
  {
    hide Inv, Writes, Grants;
    assert CallOk(s.txs[t]);
    NotNamed(s, t, s.txs[t].pc.lock);
  }

  /** The one reader that the upgrade of a disciplined caller expects is its own. */
  lemma OnlyReader(s: State, t: nat, l: nat)
    requires Inv(s) && t < |s.txs| && l < |s.locks| && Grants(s.txs[t], l) >= 1 && s.locks[l].readers == 1
    ensures !GrantedElsewhere(s, t, l)
  {
    hide Grants, WellFormed, DistinctIds, NamesHolder, OwnerHolds, ExcludesReaders;
    if GrantedElsewhere(s, t, l) {
      var u :| 0 <= u < |s.txs| && u != t && Grants(s.txs[u], l) > 0;
      TotalCovers(s.txs, t, u, l);
      assert false;
    }
  }

  /** A disciplined step takes no failing branch. */
  lemma NeverBad(s: State, t: nat, step: Step)
    requires Inv(s) && CallsOk(s) && t < |s.txs| && Enabled(s, t, step) && Disciplined(s, t, step)
    ensures !Bad(s, t, step)
  {
    hide Inv, Writes, Grants;
    assert CallOk(s.txs[t]);
    if step.TestOwner? {
      NeverOwnedAlready(s, t);
    } else if step.CompareAndSwap? && s.txs[t].pc.upgrade && s.locks[s.txs[t].pc.lock] == Word(0, 1) {
      OnlyReader(s, t, s.txs[t].pc.lock);
    }
  }

  lemma CallsKept(s: State, t: nat, step: Step)
    requires Inv(s) && CallsOk(s) && t < |s.txs| && Enabled(s, t, step) && Disciplined(s, t, step)
    ensures CallsOk(Apply(s, t, step))
  {
    hide Inv, Writes, Grants;
    var tx' := Moved(s, t, step);
    assert CallOk(s.txs[t]);
    if tx'.Live? && (tx'.pc.WriteTest? || tx'.pc.WriteSpin?) {
      WritesMoves(s, t, step, tx'.pc.lock);
      GrantsMoves(s, t, step, tx'.pc.lock);
      NeverBad(s, t, step);
    }
  }

  ghost predicate OrderlyAt(run: seq<State>, i: nat)
    requires 0 < i < |run|
  {
    Orderly(run[i - 1], run[i])
  }

  ghost predicate IsOrderlyRun(run: seq<State>) {
    && run != [] && Initial(run[0])
    && forall i :: 0 < i < |run| ==> OrderlyAt(run, i)
  }

  lemma OrderlyStep(s: State, s': State)
    requires Inv(s) && CallsOk(s) && Orderly(s, s')
    ensures Next(s, s') && Inv(s') && CallsOk(s')
  {
    hide Inv, CallsOk, Enabled, Disciplined, Bad, Apply;
    var t, step :| 0 <= t < |s.txs| && Enabled(s, t, step) && Disciplined(s, t, step) && s' == Apply(s, t, step);
    NeverBad(s, t, step);
    CallsKept(s, t, step);
    Keeps(s, s');
  }

  lemma {:induction false} OrderlyUpTo(run: seq<State>, i: nat)
    requires IsOrderlyRun(run) && i < |run|
    ensures Inv(run[i]) && CallsOk(run[i]) && (i > 0 ==> NextAt(run, i))
  {
    if i == 0 {
      InitialInv(run[0]);
    } else {
      hide Inv, CallsOk, Orderly, Initial, Next;
      OrderlyUpTo(run, i - 1);
      assert OrderlyAt(run, i);
      OrderlyStep(run[i - 1], run[i]);
    }
  }

  /** Callers that keep to the discipline never reach a failing branch, so that all their runs are safe. */
  lemma DisciplineSuffices(run: seq<State>)
    requires IsOrderlyRun(run)
    ensures IsRun(run)
    ensures forall i :: 0 <= i < |run| ==> MutualExclusion(run[i]) && CountsReaders(run[i])
  {
    hide Inv, CallsOk, Orderly, Initial, Next, MutualExclusion, CountsReaders;
    forall i | 0 < i < |run| ensures NextAt(run, i) { OrderlyUpTo(run, i); }
    forall i | 0 <= i < |run| ensures MutualExclusion(run[i]) && CountsReaders(run[i]) { RunsAreSafe(run, i); }
  }

  /** Consecutive disciplined steps. */
  ghost predicate Chain(run: seq<State>) {
    run != [] && forall i :: 0 < i < |run| ==> OrderlyAt(run, i)
  }

  lemma ChainStep(run: seq<State>, t: nat, step: Step) returns (run': seq<State>)
    requires Chain(run)
    requires var s := run[|run| - 1]; t < |s.txs| && Enabled(s, t, step) && Disciplined(s, t, step)
    ensures Chain(run') && run'[0] == run[0] && run'[|run'| - 1] == Apply(run[|run| - 1], t, step)
  {
    run' := run + [Apply(run[|run| - 1], t, step)];
    forall i | 0 < i < |run'| ensures OrderlyAt(run', i) {
      assert i < |run| ==> OrderlyAt(run, i);
    }
  }

  /** A new transaction takes a free lock for write. */
  lemma TakesFreeLock(run: seq<State>, u: nat, l: nat, id: nat) returns (run': seq<State>)
    requires Chain(run)
    requires var s := run[|run| - 1];
             && l < |s.locks| && s.locks[l] == Word(0, 0) && u < |s.txs| && s.txs[u].Dead? && id != 0
             && forall w :: 0 <= w < |s.txs| && s.txs[w].Live? ==> s.txs[w].id != id
    ensures Chain(run') && run'[0] == run[0]
    ensures var s := run[|run| - 1];
            run'[|run'| - 1] == State(s.locks[l := Word(id, 0)], s.txs[u := Live(id, [], WriteGot(l))])
  {
    var s := run[|run| - 1];
    hide Chain;
    run' := ChainStep(run, u, Acquire(id));
    run' := ChainStep(run', u, CallWrite(l, false));
    run' := ChainStep(run', u, TestOwner);
    run' := ChainStep(run', u, CompareAndSwap);
    assert s.txs[u := Live(id, [], WriteGot(l))] ==
           s.txs[u := Live(id, [], Idle)][u := Live(id, [], WriteTest(l, false))]
                [u := Live(id, [], WriteSpin(l, false))][u := Live(id, [], WriteGot(l))];
  }

  // ----- Upgrades -----

  /** The upgrade call of `t` on `l` up to its successful compare-and-swap, with no other step in between. */
  function Upgraded(s: State, t: nat, l: nat): State
    requires t < |s.txs| && l < |s.locks| && s.txs[t].Live? && s.txs[t].pc.Idle?
    requires s.locks[l] == Word(0, 1) && s.txs[t].id != 0
  {
    Apply(Apply(Apply(s, t, CallWrite(l, true)), t, TestOwner), t, CompareAndSwap)
  }

  /**
   An upgrade call that finds a free word with one reader is safe exactly when no other
   transaction has that read lock granted.
   */
  lemma UpgradeSafeExactly(s: State, t: nat, l: nat)
    requires Inv(s) && t < |s.txs| && l < |s.locks| && s.txs[t].Live? && s.txs[t].pc.Idle?
    requires s.locks[l] == Word(0, 1) && s.txs[t].id != 0
    ensures MutualExclusion(Upgraded(s, t, l)) <==>
            forall u :: 0 <= u < |s.txs| && u != t ==> Grants(s.txs[u], l) == 0
  {
    var s' := Upgraded(s, t, l);
    UpgradedIs(s, t, l);
    hide Inv, Upgraded, Writes, Grants;
    if forall u :: 0 <= u < |s.txs| && u != t ==> Grants(s.txs[u], l) == 0 {
      forall w, u, m | 0 <= w < |s'.txs| && 0 <= u < |s'.txs| && 0 <= m < |s'.locks|
        ensures Apart(s', w, u, m)
      {
        UpgradedApart(s, t, l, w, u, m);
      }
    }
    if MutualExclusion(s') {
      forall u | 0 <= u < |s.txs| && u != t ensures Grants(s.txs[u], l) == 0 {
        assert Apart(s', t, u, l);
      }
    }
  }

  lemma UpgradedIs(s: State, t: nat, l: nat)
    requires t < |s.txs| && l < |s.locks| && s.txs[t].Live? && s.txs[t].pc.Idle?
    requires s.locks[l] == Word(0, 1) && s.txs[t].id != 0
    ensures var s' := Upgraded(s, t, l);
            && |s'.locks| == |s.locks|
            && s'.txs == s.txs[t := s.txs[t].(pc := WriteGot(l))]
            && Writes(s'.txs[t], l) == Writes(s.txs[t], l) + 1
            && (forall m :: m != l ==> Writes(s'.txs[t], m) == Writes(s.txs[t], m))
            && (forall m :: Grants(s'.txs[t], m) == Grants(s.txs[t], m))
  {
  }

  lemma UpgradedApart(s: State, t: nat, l: nat, w: nat, u: nat, m: nat)
    requires Inv(s) && t < |s.txs| && l < |s.locks| && s.txs[t].Live? && s.txs[t].pc.Idle?
    requires s.locks[l] == Word(0, 1) && s.txs[t].id != 0
    requires w < |s.txs| && u < |s.txs| && m < |s.locks|
    requires u != t ==> Grants(s.txs[u], l) == 0
    ensures |Upgraded(s, t, l).txs| == |s.txs| && Apart(Upgraded(s, t, l), w, u, m)
  {
    UpgradedIs(s, t, l);
    hide Inv, Upgraded, Writes, Grants;
    if w != u {
      if Writes(s.txs[u], l) > 0 { HolderFact(s, u, l); }
      if Writes(s.txs[w], l) > 0 { HolderFact(s, w, l); }
      if Writes(s.txs[w], m) > 0 { HoldersDiffer(s, w, u, m); }
    }
  }
}
